/** What the managers hand to `ProcessBuilder` before `start()`: the argument vector, the working
    directory and whether standard error is merged into standard output. Starting the process
    is an operating-system call and is not modelled; `FlagValue` reads an argument vector as
    the started program's option parser sees it. */
module Processes {
  import opened Wrappers
  import opened Text

  datatype ProcessSpec = ProcessSpec(argv: seq<string>, directory: string, redirectErrorStream: bool)

  /** The argument that follows the first occurrence of `flag` after the program path, if any. */
  function FlagValue(argv: seq<string>, flag: string): Option<string>
  {
    FlagFrom(argv, flag, 1)
  }

  /** `k` is the first index from `i` on that holds `flag` and has an argument after it. */
  predicate FirstFlagAt(argv: seq<string>, flag: string, i: nat, k: nat)
  {
    i <= k && k + 1 < |argv| && argv[k] == flag && forall j :: i <= j < k ==> argv[j] != flag
  }

  /** `FlagValue`, searching from index `i`. */
  function FlagFrom(argv: seq<string>, flag: string, i: nat): (r: Option<string>)
    ensures r.Some? <==> exists k :: i <= k && k + 1 < |argv| && argv[k] == flag
    ensures r.Some? ==> exists k :: FirstFlagAt(argv, flag, i, k) && argv[k + 1] == r.value
    decreases |argv| - i
  {
    if i + 1 >= |argv| then None
    else if argv[i] == flag then
      assert FirstFlagAt(argv, flag, i, i);
      Some(argv[i + 1])
    else
      var r := FlagFrom(argv, flag, i + 1);
      assert r.Some? ==> exists k :: FirstFlagAt(argv, flag, i, k) && argv[k + 1] == r.value by {
        if r.Some? {
          var k :| FirstFlagAt(argv, flag, i + 1, k) && argv[k + 1] == r.value;
          assert FirstFlagAt(argv, flag, i, k);
        }
      }
      r
  }

  /** The decimal rendering of a number never starts with `--`, so it is never read as a flag. */
  lemma NumberIsNotFlag(n: int)
    ensures !StartsWith(IntToString(n), "--")
  {
    if n < 0 {
      var s := IntToString(n);
      assert s[1] == NatToString(-n)[0];
    }
  }
}
