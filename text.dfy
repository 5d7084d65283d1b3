/** String operations of the Kotlin and Java standard libraries that the core relies on
    (`indexOf`, `split`, `contains`, `startsWith`, `endsWith`, `substringAfterLast`, `isBlank`,
    decimal rendering and parsing), each defined once and characterised by its contract. */
module Text {

  /** `t` occurs in `s` at index `i`. */
  predicate OccursAt(s: string, t: string, i: int)
  {
    0 <= i && i + |t| <= |s| && s[i..i + |t|] == t
  }

  predicate StartsWith(s: string, prefix: string)
  {
    |prefix| <= |s| && s[..|prefix|] == prefix
  }

  predicate EndsWith(s: string, suffix: string)
  {
    |suffix| <= |s| && s[|s| - |suffix|..] == suffix
  }

  /** Kotlin's `CharSequence.contains(other)`, case-sensitive. */
  function Contains(s: string, t: string): (b: bool)
    ensures b <==> exists i :: OccursAt(s, t, i)
    decreases |s|
  {
    if StartsWith(s, t) then
      assert OccursAt(s, t, 0);
      true
    else if |s| == 0 then
      false
    else
      var b := Contains(s[1..], t);
      OccursInTail(s, t);
      b
  }

  /** An occurrence away from index 0 is an occurrence in the tail. */
  lemma OccursInTail(s: string, t: string)
    requires |s| > 0 && !StartsWith(s, t)
    ensures (exists i :: OccursAt(s, t, i)) <==> (exists i :: OccursAt(s[1..], t, i))
  {
    forall i | OccursAt(s[1..], t, i) ensures OccursAt(s, t, i + 1) {
      assert s[i + 1..i + 1 + |t|] == s[1..][i..i + |t|];
    }
    forall i | OccursAt(s, t, i) ensures OccursAt(s[1..], t, i - 1) {
      assert i != 0;
      assert s[1..][i - 1..i - 1 + |t|] == s[i..i + |t|];
    }
  }

  lemma ContainsMiddle(a: string, b: string, c: string)
    ensures Contains(a + b + c, b)
  {
    assert (a + b + c)[|a|..|a| + |b|] == b;
    assert OccursAt(a + b + c, b, |a|);
  }

  lemma ContainsSelf(t: string)
    ensures Contains(t, t)
  {
    assert OccursAt(t, t, 0);
  }

  lemma ContainsPrefix(a: string, b: string, t: string)
    requires Contains(a, t)
    ensures Contains(a + b, t)
  {
    var k :| OccursAt(a, t, k);
    assert (a + b)[k..k + |t|] == a[k..k + |t|];
    assert OccursAt(a + b, t, k);
  }

  lemma ContainsSuffix(a: string, b: string, t: string)
    requires Contains(b, t)
    ensures Contains(a + b, t)
  {
    var k :| OccursAt(b, t, k);
    assert (a + b)[|a| + k..|a| + k + |t|] == b[k..k + |t|];
    assert OccursAt(a + b, t, |a| + k);
  }

  /** Kotlin's `indexOf(c)`: the first index of `c`, or -1 when `c` does not occur. */
  function IndexOf(s: string, c: char): (r: int)
    ensures -1 <= r < |s|
    ensures r == -1 <==> c !in s
    ensures 0 <= r ==> s[r] == c && c !in s[..r]
  {
    if |s| == 0 then -1
    else if s[0] == c then 0
    else
      var k := IndexOf(s[1..], c);
      if k < 0 then -1
      else
        assert s[..k + 1] == [s[0]] + s[1..][..k];
        k + 1
  }

  /** The index of `c` in `a + b` when `a` does not contain it. */
  lemma {:induction false} IndexOfAfter(a: string, b: string, c: char)
    requires c !in a
    ensures IndexOf(a + b, c) == if c in b then |a| + IndexOf(b, c) else -1
    decreases |a|
  {
    if a == [] {
      assert a + b == b;
    } else {
      assert (a + b)[0] == a[0];
      assert (a + b)[1..] == a[1..] + b;
      IndexOfAfter(a[1..], b, c);
    }
  }

  /** A character that `a` lacks is found first right after `a`. */
  lemma IndexOfFirst(a: string, c: char, b: string)
    requires c !in a
    ensures IndexOf(a + [c] + b, c) == |a|
    ensures (a + [c] + b)[..|a|] == a && (a + [c] + b)[|a| + 1..] == b
  {
    var t := a + [c] + b;
    var cb := [c] + b;
    assert t == a + cb;
    assert cb[0] == c;
    assert IndexOf(cb, c) == 0;
    IndexOfAfter(a, cb, c);
    assert t[..|a|] == a;
    assert t[|a| + 1..] == b;
  }

  /** The first index of a character of `stops` in `s`, or `|s|` when there is none
      (the scanning primitive of `java.net.URI`'s parser). */
  function FirstOf(s: string, stops: string): (r: nat)
    ensures r <= |s|
    ensures forall i :: 0 <= i < r ==> s[i] !in stops
    ensures r < |s| ==> s[r] in stops
  {
    if |s| == 0 then 0
    else if s[0] in stops then 0
    else 1 + FirstOf(s[1..], stops)
  }

  /** `FirstOf` is determined by where the first stop character is. */
  lemma FirstOfIs(s: string, stops: string, k: nat)
    requires k <= |s|
    requires forall i :: 0 <= i < k ==> s[i] !in stops
    requires k < |s| ==> s[k] in stops
    ensures FirstOf(s, stops) == k
  {
  }

  /** No character of `s` is in `cs`. */
  predicate NoneOf(s: string, cs: string)
  {
    forall i :: 0 <= i < |s| ==> s[i] !in cs
  }

  lemma NoneOfConcat(a: string, b: string, cs: string)
    requires NoneOf(a, cs) && NoneOf(b, cs)
    ensures NoneOf(a + b, cs)
  {
    forall i | 0 <= i < |a + b| ensures (a + b)[i] !in cs {
      if i >= |a| { assert (a + b)[i] == b[i - |a|]; }
    }
  }

  /** Joins `parts` with the separator `sep`; the inverse of `Split`. */
  function Join(parts: seq<string>, sep: char): string
  {
    if |parts| == 0 then ""
    else if |parts| == 1 then parts[0]
    else parts[0] + [sep] + Join(parts[1..], sep)
  }

  /** Kotlin's `split(sep)`: the text between separators, empty pieces included, in order. */
  function Split(s: string, sep: char): (parts: seq<string>)
    ensures |parts| >= 1
    ensures forall i :: 0 <= i < |parts| ==> sep !in parts[i]
    ensures Join(parts, sep) == s
    decreases |s|
  {
    var i := IndexOf(s, sep);
    if i < 0 then [s]
    else
      var rest := Split(s[i + 1..], sep);
      assert s == s[..i] + [sep] + s[i + 1..];
      assert ([s[..i]] + rest)[1..] == rest;
      [s[..i]] + rest
  }

  /** Splitting undoes joining, as long as no part contains the separator. */
  lemma {:induction false} SplitJoin(parts: seq<string>, sep: char)
    requires |parts| >= 1
    requires forall i :: 0 <= i < |parts| ==> sep !in parts[i]
    ensures Split(Join(parts, sep), sep) == parts
    decreases |parts|
  {
    if |parts| == 1 {
      assert IndexOf(parts[0], sep) == -1;
    } else {
      var tail := Join(parts[1..], sep);
      assert Join(parts, sep) == parts[0] + [sep] + tail;
      SplitCons(parts[0], sep, tail);
      SplitJoin(parts[1..], sep);
      assert [parts[0]] + parts[1..] == parts;
    }
  }

  /** A separator-free first piece is split off at the first separator. */
  lemma SplitCons(p: string, sep: char, tail: string)
    requires sep !in p
    ensures Split(p + [sep] + tail, sep) == [p] + Split(tail, sep)
  {
    IndexOfFirst(p, sep, tail);
  }

  /** A text without the separator is split into itself. */
  lemma SplitWhole(s: string, sep: char)
    requires sep !in s
    ensures Split(s, sep) == [s]
  {
  }

  /** Joining two non-empty lists of parts puts one separator between their joins. */
  lemma {:induction false} JoinAppend(p: seq<string>, q: seq<string>, sep: char)
    requires |p| >= 1 && |q| >= 1
    ensures Join(p + q, sep) == Join(p, sep) + [sep] + Join(q, sep)
    decreases |p|
  {
    var pq := p + q;
    assert pq[0] == p[0];
    if |p| > 1 {
      assert pq[1..] == p[1..] + q;
      JoinAppend(p[1..], q, sep);
    } else {
      assert pq[1..] == q;
    }
  }

  /** A separator splits the text into the pieces before it and the pieces after it. */
  lemma SplitAround(x: string, y: string, sep: char)
    ensures Split(x + [sep] + y, sep) == Split(x, sep) + Split(y, sep)
  {
    var px, py := Split(x, sep), Split(y, sep);
    JoinAppend(px, py, sep);
    FreeOfAppend(px, py, sep);
    SplitJoin(px + py, sep);
  }

  lemma FreeOfAppend(p: seq<string>, q: seq<string>, c: char)
    requires forall i :: 0 <= i < |p| ==> c !in p[i]
    requires forall i :: 0 <= i < |q| ==> c !in q[i]
    ensures forall i :: 0 <= i < |p + q| ==> c !in (p + q)[i]
  {
    forall i | 0 <= i < |p + q| ensures c !in (p + q)[i] {
      if i >= |p| { assert (p + q)[i] == q[i - |p|]; }
    }
  }

  /** The first piece is a prefix of the text. */
  lemma SplitFirstPrefix(s: string, sep: char)
    ensures var p := Split(s, sep)[0]; |p| <= |s| && s[..|p|] == p
  {
    var i := IndexOf(s, sep);
    if i >= 0 {
      assert Split(s, sep)[0] == s[..i];
    }
  }

  /** Text that occurs in one of the parts occurs in the joined text. */
  lemma {:induction false} JoinContains(parts: seq<string>, sep: char, i: nat, t: string)
    requires i < |parts| && Contains(parts[i], t)
    ensures Contains(Join(parts, sep), t)
    decreases |parts|
  {
    if |parts| > 1 {
      var tail := Join(parts[1..], sep);
      assert Join(parts, sep) == parts[0] + ([sep] + tail);
      if i == 0 {
        ContainsPrefix(parts[0], [sep] + tail, t);
      } else {
        JoinContains(parts[1..], sep, i - 1, t);
        assert Join(parts, sep) == (parts[0] + [sep]) + tail;
        ContainsSuffix(parts[0] + [sep], tail, t);
      }
    }
  }

  /** Three separator-free fields joined by the separator split back into those fields. */
  lemma SplitThree(a: string, b: string, c: string, sep: char)
    requires sep !in a && sep !in b && sep !in c
    ensures Split(a + [sep] + b + [sep] + c, sep) == [a, b, c]
  {
    var parts := [a, b, c];
    assert parts[1..] == [b, c] && [b, c][1..] == [c];
    assert Join([b, c], sep) == b + [sep] + c;
    assert a + [sep] + b + [sep] + c == Join(parts, sep);
    SplitJoin(parts, sep);
  }

  /** Kotlin's `lastIndexOf(c)`: the last index of `c`, or -1 when `c` does not occur. */
  function LastIndexOf(s: string, c: char): (r: int)
    ensures -1 <= r < |s|
    ensures 0 <= r ==> s[r] == c
    ensures forall j :: r < j < |s| ==> s[j] != c
  {
    if |s| == 0 then -1
    else if s[|s| - 1] == c then |s| - 1
    else LastIndexOf(s[..|s| - 1], c)
  }

  /** Kotlin's `substringAfterLast(c)`: the text after the last `c`, or all of `s` without one. */
  function SubstringAfterLast(s: string, c: char): (r: string)
    ensures c !in r
    ensures EndsWith(s, r)
    ensures c !in s ==> r == s
    ensures c in s ==> |r| < |s| && s[|s| - |r| - 1] == c
  {
    var k := LastIndexOf(s, c);
    assert c in s ==> k >= 0;
    s[k + 1..]
  }

  /** The last piece of a split is the text after the last separator. */
  lemma SplitLastPiece(s: string, sep: char)
    ensures var ps := Split(s, sep); ps[|ps| - 1] == SubstringAfterLast(s, sep)
  {
    var k := LastIndexOf(s, sep);
    if k < 0 {
      assert sep !in s by {
        forall j | 0 <= j < |s| ensures s[j] != sep { }
      }
      SplitWhole(s, sep);
    } else {
      var x, y := s[..k], s[k + 1..];
      assert s == x + [sep] + y;
      assert sep !in y by {
        forall j | 0 <= j < |y| ensures y[j] != sep { assert y[j] == s[k + 1 + j]; }
      }
      SplitAround(x, y, sep);
      SplitWhole(y, sep);
    }
  }

  /** The text after the last separator is the part after the separator that ends the text's
      separator-free tail. */
  lemma SubstringAfterLastConcat(p: string, n: string, c: char)
    requires c !in n
    ensures SubstringAfterLast(p + [c] + n, c) == n
  {
    var s := p + [c] + n;
    var r := SubstringAfterLast(s, c);
    assert s[|s| - |n| - 1] == c;
    assert c in s;
    assert n == s[|s| - |n|..];
  }

  /** Kotlin's `Char.isWhitespace()`: Java's `isWhitespace` or `isSpaceChar`. */
  predicate IsWhitespace(c: char)
  {
    var n := c as int;
    (9 <= n <= 13) || (28 <= n <= 32) || n == 0xA0 || n == 0x1680 || (0x2000 <= n <= 0x200A)
    || n == 0x2028 || n == 0x2029 || n == 0x202F || n == 0x205F || n == 0x3000
  }

  /** Kotlin's `isBlank()`: empty or whitespace only. */
  predicate IsBlank(s: string)
  {
    forall i :: 0 <= i < |s| ==> IsWhitespace(s[i])
  }

  /** ASCII lower-casing of one character. */
  function LowerChar(c: char): char
  {
    if 'A' <= c <= 'Z' then (c as int + 32) as char else c
  }

  function Lower(s: string): (r: string)
    ensures |r| == |s|
    ensures forall i :: 0 <= i < |s| ==> r[i] == LowerChar(s[i])
  {
    seq(|s|, i requires 0 <= i < |s| => LowerChar(s[i]))
  }

  /** `contains(t, ignoreCase = true)` for ASCII text. */
  function ContainsIgnoreCase(s: string, t: string): bool
  {
    Contains(Lower(s), Lower(t))
  }

  predicate IsDigit(c: char) { '0' <= c <= '9' }

  predicate AllDigits(s: string)
  {
    forall i :: 0 <= i < |s| ==> IsDigit(s[i])
  }

  function DigitChar(d: nat): (c: char)
    requires d < 10
    ensures IsDigit(c) && c as int - '0' as int == d
  {
    ('0' as int + d) as char
  }

  /** The value of a string of decimal digits (leading zeros allowed, the empty string is 0). */
  function DigitsValue(s: string): nat
    requires AllDigits(s)
  {
    if |s| == 0 then 0
    else DigitsValue(s[..|s| - 1]) * 10 + (s[|s| - 1] as int - '0' as int)
  }

  /** Decimal rendering of a natural number, without leading zeros. */
  function NatToString(n: nat): (s: string)
    ensures |s| >= 1 && AllDigits(s)
    ensures n >= 10 ==> s[0] != '0'
  {
    if n < 10 then [DigitChar(n)]
    else NatToString(n / 10) + [DigitChar(n % 10)]
  }

  /** Decimal rendering of any integer, as Kotlin's `toString()` writes it. */
  function IntToString(n: int): string
  {
    if n < 0 then "-" + NatToString(-n) else NatToString(n)
  }

  /** Reading back a rendered number gives the number. */
  lemma {:induction false} DigitsValueNatToString(n: nat)
    ensures DigitsValue(NatToString(n)) == n
    decreases n
  {
    if n >= 10 {
      var s := NatToString(n);
      assert s[..|s| - 1] == NatToString(n / 10);
      DigitsValueNatToString(n / 10);
    }
  }

  /** A leading zero does not change the value. */
  lemma {:induction false} DigitsValueLeadingZero(s: string)
    requires AllDigits(s)
    ensures AllDigits("0" + s) && DigitsValue("0" + s) == DigitsValue(s)
    decreases |s|
  {
    if |s| > 0 {
      var t := "0" + s;
      assert t[..|t| - 1] == "0" + s[..|s| - 1];
      DigitsValueLeadingZero(s[..|s| - 1]);
    }
  }
}
