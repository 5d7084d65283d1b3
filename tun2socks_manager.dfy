/** `Tun2SocksManager`: provides the relay binary that turns the tunnel's packets into SOCKS
    connections, copying it from the app's assets into the code cache the first time, and
    builds the command line that starts it on the tunnel's file descriptor. */
module Tun2SocksManager {
  import opened Wrappers
  import opened Text
  import opened FileSystem
  import opened Processes
  import AbiResolver

  /** `binDir()`: `codeCacheDir/tun2socks`. */
  function BinDir(codeCacheDir: string): string
  {
    Child(codeCacheDir, "tun2socks")
  }

  /** `binFile()`: `codeCacheDir/tun2socks/tun2socks`. */
  function BinFile(codeCacheDir: string): (f: string)
    ensures f != BinDir(codeCacheDir)
  {
    Child(BinDir(codeCacheDir), "tun2socks")
  }

  /** The SOCKS endpoint `run` uses when the caller names none. */
  const DefaultSocksAddr := "127.0.0.1:10808"

  /** The relay's asset name for each processor family. */
  function AssetOf(abi: AbiResolver.CpuAbi): string
  {
    match abi
    case Arm64 => "tun2socks-arm64-v8a"
    case Arm32 => "tun2socks-armeabi-v7a"
    case X86_64 => "tun2socks-x86_64"
    case X86 => "tun2socks-x86"
  }

  /** `assetName()`: the `when` of `CpuAbi.detect`, in the same order, but matched
      case-sensitively. */
  function AssetName(supported: Option<seq<string>>): string
  {
    AssetOf(AbiResolver.Classify(AbiResolver.OrEmpty(supported), false))
  }

  /** Each asset name, stated as the (case-sensitive) tests that select it. */
  lemma AssetNameCases(abis: seq<string>)
    ensures AssetName(Some(abis)) == "tun2socks-arm64-v8a"
            <==> AbiResolver.HasEntry(abis, AbiResolver.Arm64Needles, false)
    ensures AssetName(Some(abis)) == "tun2socks-armeabi-v7a"
            <==> !AbiResolver.HasEntry(abis, AbiResolver.Arm64Needles, false)
                 && AbiResolver.HasEntry(abis, AbiResolver.Arm32Needles, false)
    ensures AssetName(Some(abis)) == "tun2socks-x86_64"
            <==> !AbiResolver.HasEntry(abis, AbiResolver.Arm64Needles, false)
                 && !AbiResolver.HasEntry(abis, AbiResolver.Arm32Needles, false)
                 && AbiResolver.HasEntry(abis, AbiResolver.X86_64Needles, false)
    ensures AssetName(Some(abis)) == "tun2socks-x86"
            <==> !AbiResolver.HasEntry(abis, AbiResolver.Arm64Needles, false)
                 && !AbiResolver.HasEntry(abis, AbiResolver.Arm32Needles, false)
                 && !AbiResolver.HasEntry(abis, AbiResolver.X86_64Needles, false)
  {
    AbiResolver.ClassifyCases(abis, false);
  }

  /** An empty or absent list selects the x86 relay. */
  lemma NoEntriesIsX86()
    ensures AssetName(None) == "tun2socks-x86" && AssetName(Some([])) == "tun2socks-x86"
  {
  }

  /** Unlike `CpuAbi.detect`, the relay's choice sees case: a device reporting `ARM64` gets the
      ARM64 engine but the x86 relay. */
  lemma CaseMatters()
    ensures AbiResolver.Detect(Some(["ARM64"])) == AbiResolver.Arm64
    ensures AssetName(Some(["ARM64"])) == "tun2socks-x86"
  {
    UpperArm64Matches();
    UpperArm64Misses();
    assert ["ARM64"][0] == "ARM64";
  }

  /** Ignoring case, `ARM64` contains `arm64`. */
  lemma UpperArm64Matches()
    ensures AbiResolver.MatchesAny("ARM64", AbiResolver.Arm64Needles, true)
  {
    assert Lower("ARM64") == "arm64";
    assert Lower("arm64") == "arm64";
    ContainsSelf("arm64");
    assert AbiResolver.Arm64Needles[0] == "arm64";
  }

  /** Seeing case, `ARM64` contains none of the needles. */
  lemma UpperArm64Misses()
    ensures !AbiResolver.MatchesAny("ARM64", AbiResolver.Arm64Needles, false)
    ensures !AbiResolver.MatchesAny("ARM64", AbiResolver.Arm32Needles, false)
    ensures !AbiResolver.MatchesAny("ARM64", AbiResolver.X86_64Needles, false)
  {
    var e := "ARM64";
    assert e[0..5][0] == 'A' != "arm64"[0];
  }

  /** `ensurePresent()` over the store `fs`, with the packaged assets: the binary is copied
      from the asset only when it is missing, and then made executable (`Os.chmod`, or
      `setExecutable` when that throws: both set the owner's execute bit). */
  function EnsurePresentOutcome(fs: Files, codeCacheDir: string, supported: Option<seq<string>>, assets: map<string, string>): (Files, Result<string, IoError>)
  {
    ProvideIfMissing(fs, BinDir(codeCacheDir), BinFile(codeCacheDir), OpenAsset(assets, AssetName(supported)))
  }

  /** The three ways `ensurePresent` can end. */
  lemma EnsurePresentCases(fs: Files, codeCacheDir: string, supported: Option<seq<string>>, assets: map<string, string>)
    ensures var (r, out) := EnsurePresentOutcome(fs, codeCacheDir, supported, assets);
            var bin := BinFile(codeCacheDir);
            (bin in fs && fs[bin].File? ==> out == Success(bin) && r[bin] == File(fs[bin].content, true))
            && (bin !in fs && AssetName(supported) !in assets
                ==> out == Failure(AssetMissing(AssetName(supported))) && r == AddDir(fs, BinDir(codeCacheDir)))
            && (bin !in fs && AssetName(supported) in assets && (BinDir(codeCacheDir) !in fs || fs[BinDir(codeCacheDir)].Dir?)
                ==> out == Success(bin) && r[bin] == File(assets[AssetName(supported)], true))
  {
    var dir, bin, source := BinDir(codeCacheDir), BinFile(codeCacheDir), OpenAsset(assets, AssetName(supported));
    if bin in fs && fs[bin].File? {
      ProvideKeepsExisting(fs, dir, bin, source);
    } else if bin !in fs && AssetName(supported) in assets && (dir !in fs || fs[dir].Dir?) {
      ProvideCopiesMissing(fs, dir, bin, assets[AssetName(supported)]);
    }
  }

  /** The relay's argument vector. */
  function RunArgs(bin: string, tunFd: int, socksAddr: string): seq<string>
  {
    [bin, "--tunfd", IntToString(tunFd), "--tunmtu", "1500", "--socks-server-addr", socksAddr, "--enable-udprelay"]
  }

  /** The relay reads the descriptor, an MTU of 1500 and the SOCKS endpoint from its flags, and
      has UDP relaying switched on. */
  lemma RunArgsRead(bin: string, tunFd: int, socksAddr: string)
    ensures var argv := RunArgs(bin, tunFd, socksAddr);
            |argv| == 8 && argv[0] == bin
            && FlagValue(argv, "--tunfd") == Some(IntToString(tunFd))
            && FlagValue(argv, "--tunmtu") == Some("1500")
            && FlagValue(argv, "--socks-server-addr") == Some(socksAddr)
            && "--enable-udprelay" in argv[1..]
  {
    var argv := RunArgs(bin, tunFd, socksAddr);
    NumberIsNotFlag(tunFd);
    assert IntToString(tunFd) != "--tunmtu" && IntToString(tunFd) != "--socks-server-addr";
    assert FlagFrom(argv, "--tunmtu", 1) == FlagFrom(argv, "--tunmtu", 3);
    assert FlagFrom(argv, "--socks-server-addr", 1) == FlagFrom(argv, "--socks-server-addr", 5);
    assert argv[1..][6] == "--enable-udprelay";
  }

  /** `run(tunFd, socksAddr)`: provides the binary and, when that does not throw, the process to
      start in the binary's directory with standard error merged. */
  function RunOutcome(fs: Files, codeCacheDir: string, supported: Option<seq<string>>, assets: map<string, string>, tunFd: int, socksAddr: string): (Files, Result<ProcessSpec, IoError>)
  {
    var (fs1, bin) := EnsurePresentOutcome(fs, codeCacheDir, supported, assets);
    match bin
    case Failure(e) => (fs1, Failure(e))
    case Success(path) => (AddDir(fs1, BinDir(codeCacheDir)), Success(ProcessSpec(RunArgs(path, tunFd, socksAddr), BinDir(codeCacheDir), true)))
  }

  /** Running leaves the store as providing does, and starts the provided binary. */
  lemma RunStartsProvidedBinary(fs: Files, codeCacheDir: string, supported: Option<seq<string>>, assets: map<string, string>, tunFd: int, socksAddr: string)
    ensures var (r, p) := RunOutcome(fs, codeCacheDir, supported, assets, tunFd, socksAddr);
            var (r1, bin) := EnsurePresentOutcome(fs, codeCacheDir, supported, assets);
            r == r1
            && (p.Success? <==> bin.Success?)
            && (p.Success? ==> p.value.argv[0] == BinFile(codeCacheDir) && p.value.directory == BinDir(codeCacheDir)
                               && p.value.redirectErrorStream)
            && (p.Failure? ==> p.error == bin.error)
  {
    var (r1, bin) := EnsurePresentOutcome(fs, codeCacheDir, supported, assets);
    assert BinDir(codeCacheDir) in r1;
  }

  /** `Tun2SocksManager(appContext)`: the code-cache directory, the ABI list the platform
      reports, the packaged assets and the storage they are copied into. */
  class Tun2SocksManager {
    const codeCacheDir: string
    const supportedAbis: Option<seq<string>>
    const assets: map<string, string>
    const store: FileStore

    constructor (codeCacheDir: string, supportedAbis: Option<seq<string>>, assets: map<string, string>, store: FileStore)
      ensures this.codeCacheDir == codeCacheDir && this.supportedAbis == supportedAbis
      ensures this.assets == assets && this.store == store
    {
      this.codeCacheDir := codeCacheDir;
      this.supportedAbis := supportedAbis;
      this.assets := assets;
      this.store := store;
    }

    method EnsurePresent() returns (r: Result<string, IoError>)
      modifies store
      ensures (store.files, r) == EnsurePresentOutcome(old(store.files), codeCacheDir, supportedAbis, assets)
    {
      r := store.Provide(BinDir(codeCacheDir), BinFile(codeCacheDir), OpenAsset(assets, AssetName(supportedAbis)));
    }

    method Run(tunFd: int, socksAddr: string) returns (r: Result<ProcessSpec, IoError>)
      modifies store
      ensures (store.files, r) == RunOutcome(old(store.files), codeCacheDir, supportedAbis, assets, tunFd, socksAddr)
    {
      var bin := EnsurePresent();
      if bin.Failure? {
        return Failure(bin.error);
      }
      store.MkDirs(BinDir(codeCacheDir));
      r := Success(ProcessSpec(RunArgs(bin.value, tunFd, socksAddr), BinDir(codeCacheDir), true));
    }
  }
}
