/** `CpuAbi` of the Netvor tree: the four processor families the release archives are built
    for, each with the suffix of its archive name, and `detect`, which picks one from the
    device's `Build.SUPPORTED_ABIS` list by substring matching in a fixed priority order. */
module AbiResolver {
  import opened Wrappers
  import opened Text

  datatype CpuAbi = Arm64 | Arm32 | X86_64 | X86

  /** `releaseSuffix` of each enum constant. */
  function ReleaseSuffix(abi: CpuAbi): string
  {
    match abi
    case Arm64 => "android-arm64-v8a"
    case Arm32 => "android-armv7"
    case X86_64 => "android-amd64"
    case X86 => "android-386"
  }

  /** The constant whose suffix is `suffix`, if any: the inverse of `ReleaseSuffix`. */
  function AbiOfSuffix(suffix: string): (r: Option<CpuAbi>)
    ensures forall abi :: r == Some(abi) <==> ReleaseSuffix(abi) == suffix
  {
    if suffix == "android-arm64-v8a" then Some(Arm64)
    else if suffix == "android-armv7" then Some(Arm32)
    else if suffix == "android-amd64" then Some(X86_64)
    else if suffix == "android-386" then Some(X86)
    else None
  }

  /** The four suffixes are pairwise distinct, so a suffix names one constant. */
  lemma SuffixesDistinct(a: CpuAbi, b: CpuAbi)
    requires ReleaseSuffix(a) == ReleaseSuffix(b)
    ensures a == b
  {
    assert AbiOfSuffix(ReleaseSuffix(a)) == Some(a);
  }

  /** `entry.contains(needle, ignoreCase)` for one of the needles. */
  predicate MatchesAny(entry: string, needles: seq<string>, ignoreCase: bool)
  {
    exists j :: 0 <= j < |needles| && (if ignoreCase then ContainsIgnoreCase(entry, needles[j]) else Contains(entry, needles[j]))
  }

  /** Some entry of the list matches one of the needles. */
  ghost predicate HasEntry(abis: seq<string>, needles: seq<string>, ignoreCase: bool)
  {
    exists i :: 0 <= i < |abis| && MatchesAny(abis[i], needles, ignoreCase)
  }

  /** `abis.any { ... }`, scanning the list from its head. */
  function AnyEntry(abis: seq<string>, needles: seq<string>, ignoreCase: bool): (b: bool)
    ensures b <==> HasEntry(abis, needles, ignoreCase)
  {
    if |abis| == 0 then false
    else if MatchesAny(abis[0], needles, ignoreCase) then true
    else
      var b := AnyEntry(abis[1..], needles, ignoreCase);
      assert forall i :: 1 <= i < |abis| ==> abis[i] == abis[1..][i - 1];
      b
  }

  const Arm64Needles := ["arm64", "aarch64"]
  const Arm32Needles := ["armeabi-v7a"]
  const X86_64Needles := ["x86_64"]

  /** The `when` of `detect`: the first test in priority order that some entry passes. The
      same rule, matched case-sensitively, picks the relay's asset. */
  function Classify(abis: seq<string>, ignoreCase: bool): CpuAbi
  {
    if AnyEntry(abis, Arm64Needles, ignoreCase) then Arm64
    else if AnyEntry(abis, Arm32Needles, ignoreCase) then Arm32
    else if AnyEntry(abis, X86_64Needles, ignoreCase) then X86_64
    else X86
  }

  /** `Build.SUPPORTED_ABIS?.toList().orEmpty()`. */
  function OrEmpty(supported: Option<seq<string>>): (abis: seq<string>)
    ensures supported.Some? ==> abis == supported.value
    ensures supported.None? ==> abis == []
  {
    match supported
    case None => []
    case Some(list) => list
  }

  /** `CpuAbi.detect()` for the list the platform reports (`None` when it reports null). */
  function Detect(supported: Option<seq<string>>): CpuAbi
  {
    Classify(OrEmpty(supported), true)
  }

  /** Each outcome of the classification, stated as the tests that select it. */
  lemma ClassifyCases(abis: seq<string>, ignoreCase: bool)
    ensures Classify(abis, ignoreCase) == Arm64 <==> HasEntry(abis, Arm64Needles, ignoreCase)
    ensures Classify(abis, ignoreCase) == Arm32
            <==> !HasEntry(abis, Arm64Needles, ignoreCase) && HasEntry(abis, Arm32Needles, ignoreCase)
    ensures Classify(abis, ignoreCase) == X86_64
            <==> !HasEntry(abis, Arm64Needles, ignoreCase) && !HasEntry(abis, Arm32Needles, ignoreCase)
                 && HasEntry(abis, X86_64Needles, ignoreCase)
    ensures Classify(abis, ignoreCase) == X86
            <==> !HasEntry(abis, Arm64Needles, ignoreCase) && !HasEntry(abis, Arm32Needles, ignoreCase)
                 && !HasEntry(abis, X86_64Needles, ignoreCase)
  {
  }

  /** An entry containing `arm64` or `aarch64` in any case makes the device ARM64, wherever it
      sits in the list. */
  lemma Arm64Anywhere(before: seq<string>, entry: string, after: seq<string>)
    requires ContainsIgnoreCase(entry, "arm64") || ContainsIgnoreCase(entry, "aarch64")
    ensures Detect(Some(before + [entry] + after)) == Arm64
  {
    var abis := before + [entry] + after;
    assert abis[|before|] == entry;
    if ContainsIgnoreCase(entry, "arm64") {
      assert Arm64Needles[0] == "arm64";
    } else {
      assert Arm64Needles[1] == "aarch64";
    }
    assert MatchesAny(abis[|before|], Arm64Needles, true);
  }

  /** The outcome depends only on which entries are present, not on their order or how often
      they repeat. */
  lemma SameEntriesSameResult(a: seq<string>, b: seq<string>, ignoreCase: bool)
    requires forall x :: x in a <==> x in b
    ensures Classify(a, ignoreCase) == Classify(b, ignoreCase)
  {
    forall needles: seq<string> ensures HasEntry(a, needles, ignoreCase) <==> HasEntry(b, needles, ignoreCase) {
      SameEntriesHas(a, b, needles, ignoreCase);
      SameEntriesHas(b, a, needles, ignoreCase);
    }
  }

  lemma SameEntriesHas(a: seq<string>, b: seq<string>, needles: seq<string>, ignoreCase: bool)
    requires forall x :: x in a ==> x in b
    ensures HasEntry(a, needles, ignoreCase) ==> HasEntry(b, needles, ignoreCase)
  {
    if HasEntry(a, needles, ignoreCase) {
      var i :| 0 <= i < |a| && MatchesAny(a[i], needles, ignoreCase);
      assert a[i] in b;
      var k :| 0 <= k < |b| && b[k] == a[i];
    }
  }

  /** An empty or absent list falls through to X86. */
  lemma NoEntriesIsX86()
    ensures Detect(None) == X86 && Detect(Some([])) == X86
  {
  }
}
