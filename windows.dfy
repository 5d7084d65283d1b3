/** Bounded windows over a stream: the replay cache of the log bus and the log list of the logs
    tab both keep the most recent lines and drop the oldest first. */
module Windows {

  /** The last `n` elements of `s`, or all of `s` when it has fewer. */
  function LastN<T>(s: seq<T>, n: nat): (r: seq<T>)
    ensures |r| == if |s| < n then |s| else n
    ensures r == s[|s| - |r|..]
  {
    if |s| <= n then s else s[|s| - n..]
  }

  /** Appends `x` and, when the window then holds more than `cap` elements, drops the oldest
      one: `add` followed by `removeFirst` in the logs tab, the drop-oldest replay cache. */
  function Push<T>(w: seq<T>, x: T, cap: nat): (r: seq<T>)
    ensures |w| <= cap ==> |r| <= cap
    ensures cap > 0 ==> |r| > 0 && r[|r| - 1] == x
    ensures |r| <= |w| + 1 && r == (w + [x])[|w| + 1 - |r|..]
  {
    var b := w + [x];
    if |b| > cap then b[1..] else b
  }

  /** Pushing onto the window of a stream gives the window of the longer stream. */
  lemma PushLastN<T>(s: seq<T>, x: T, cap: nat)
    ensures Push(LastN(s, cap), x, cap) == LastN(s + [x], cap)
  {
    var w := LastN(s, cap);
    var t := s + [x];
    assert w + [x] == t[|t| - |w| - 1..];
    if |w| + 1 > cap {
      assert (w + [x])[1..] == t[|t| - cap..];
    }
  }

  /** The window after every element of `xs` has been pushed onto an empty one, in order. */
  function Fill<T>(xs: seq<T>, cap: nat): seq<T>
  {
    if |xs| == 0 then [] else Push(Fill(xs[..|xs| - 1], cap), xs[|xs| - 1], cap)
  }

  /** Pushing a stream one element at a time keeps exactly its last `cap` elements, in order. */
  lemma {:induction false} FillIsLastN<T>(xs: seq<T>, cap: nat)
    ensures Fill(xs, cap) == LastN(xs, cap)
  {
    if |xs| > 0 {
      var init, last := xs[..|xs| - 1], xs[|xs| - 1];
      InitLast(xs);
      assert Fill(xs, cap) == Push(Fill(init, cap), last, cap);
      FillIsLastN(init, cap);
      PushLastN(init, last, cap);
    }
  }

  lemma InitLast<T>(xs: seq<T>)
    requires |xs| > 0
    ensures xs[..|xs| - 1] + [xs[|xs| - 1]] == xs
  {
  }
}
