/** The `XrayManager` of the app tree: provides the proxy engine binary by copying the asset
    packaged for the device's processor family into `filesDir/xray/xray` the first time, and
    builds the command line that runs it on a configuration file. The family comes from
    `CpuAbi.detect()`; the app tree's own `CpuAbi` is not part of this model, and the model
    uses the Netvor tree's `detect`. */
module XrayAssetManager {
  import opened Wrappers
  import opened FileSystem
  import opened Processes
  import AbiResolver

  /** `binariesDir()`: `filesDir/xray`. */
  function BinariesDir(filesDir: string): string
  {
    Child(filesDir, "xray")
  }

  /** `binaryFile()`: `filesDir/xray/xray`. */
  function BinaryFile(filesDir: string): (f: string)
    ensures f != BinariesDir(filesDir)
  {
    Child(BinariesDir(filesDir), "xray")
  }

  /** The `when` of `copyFromAssets`: the engine's asset for each processor family. */
  function AssetName(abi: AbiResolver.CpuAbi): string
  {
    match abi
    case Arm64 => "xray-arm64-v8a"
    case Arm32 => "xray-armeabi-v7a"
    case X86_64 => "xray-x86_64"
    case X86 => "xray-x86"
  }

  /** The family an asset name belongs to, if any: the inverse of `AssetName`. */
  function AbiOfAsset(name: string): (r: Option<AbiResolver.CpuAbi>)
    ensures forall abi :: r == Some(abi) <==> AssetName(abi) == name
  {
    if name == "xray-arm64-v8a" then Some(AbiResolver.Arm64)
    else if name == "xray-armeabi-v7a" then Some(AbiResolver.Arm32)
    else if name == "xray-x86_64" then Some(AbiResolver.X86_64)
    else if name == "xray-x86" then Some(AbiResolver.X86)
    else None
  }

  /** Each family has its own asset. */
  lemma AssetNamesDistinct(a: AbiResolver.CpuAbi, b: AbiResolver.CpuAbi)
    requires AssetName(a) == AssetName(b)
    ensures a == b
  {
    assert AbiOfAsset(AssetName(a)) == Some(a);
  }

  /** `ensureXrayPresent()` over the store `fs`: the asset is copied only when the binary is
      missing, and the binary is made executable either way. */
  function EnsureXrayPresentOutcome(fs: Files, filesDir: string, supported: Option<seq<string>>, assets: map<string, string>): (Files, Result<string, IoError>)
  {
    ProvideIfMissing(fs, BinariesDir(filesDir), BinaryFile(filesDir), OpenAsset(assets, AssetName(AbiResolver.Detect(supported))))
  }

  /** The three ways `ensureXrayPresent` can end, and the path it returns. */
  lemma EnsureXrayPresentCases(fs: Files, filesDir: string, supported: Option<seq<string>>, assets: map<string, string>)
    ensures var (r, out) := EnsureXrayPresentOutcome(fs, filesDir, supported, assets);
            var bin := BinaryFile(filesDir);
            var name := AssetName(AbiResolver.Detect(supported));
            (out.Success? ==> out.value == bin && bin in r && (r[bin].File? ==> r[bin].executable))
            && (bin in fs && fs[bin].File? ==> out == Success(bin) && r[bin] == File(fs[bin].content, true))
            && (bin !in fs && name !in assets ==> out == Failure(AssetMissing(name)) && r == AddDir(fs, BinariesDir(filesDir)))
            && (bin !in fs && name in assets && (BinariesDir(filesDir) !in fs || fs[BinariesDir(filesDir)].Dir?)
                ==> out == Success(bin) && r[bin] == File(assets[name], true))
  {
    var dir, bin := BinariesDir(filesDir), BinaryFile(filesDir);
    var name := AssetName(AbiResolver.Detect(supported));
    var source := OpenAsset(assets, name);
    if ProvideIfMissing(fs, dir, bin, source).1.Success? {
      ProvidedIsExecutable(fs, dir, bin, source);
    }
    if bin in fs && fs[bin].File? {
      ProvideKeepsExisting(fs, dir, bin, source);
    } else if bin !in fs && name in assets && (dir !in fs || fs[dir].Dir?) {
      ProvideCopiesMissing(fs, dir, bin, assets[name]);
    }
  }

  /** The engine's argument vector: `run -c <config>`. */
  function RunArgs(bin: string, configPath: string): seq<string>
  {
    [bin, "run", "-c", configPath]
  }

  /** The engine is told to run, and reads its configuration from the given file. */
  lemma RunArgsRead(bin: string, configPath: string)
    ensures var argv := RunArgs(bin, configPath);
            argv[0] == bin && argv[1] == "run" && FlagValue(argv, "-c") == Some(configPath)
  {
    var argv := RunArgs(bin, configPath);
    assert FlagFrom(argv, "-c", 1) == FlagFrom(argv, "-c", 2);
  }

  /** `runXray(tunInterface, configFile)`: provides the binary first and, when that does not
      throw, the process to start in the binaries directory with standard error merged. The
      tunnel descriptor is not passed on. */
  function RunXrayOutcome(fs: Files, filesDir: string, supported: Option<seq<string>>, assets: map<string, string>, configPath: string): (Files, Result<ProcessSpec, IoError>)
  {
    var (fs1, bin) := EnsureXrayPresentOutcome(fs, filesDir, supported, assets);
    match bin
    case Failure(e) => (fs1, Failure(e))
    case Success(path) => (AddDir(fs1, BinariesDir(filesDir)), Success(ProcessSpec(RunArgs(path, configPath), BinariesDir(filesDir), true)))
  }

  /** Running leaves the store as providing does, and starts the provided binary. */
  lemma RunXrayStartsProvidedBinary(fs: Files, filesDir: string, supported: Option<seq<string>>, assets: map<string, string>, configPath: string)
    ensures var (r, p) := RunXrayOutcome(fs, filesDir, supported, assets, configPath);
            var (r1, bin) := EnsureXrayPresentOutcome(fs, filesDir, supported, assets);
            r == r1
            && (p.Success? <==> bin.Success?)
            && (p.Success? ==> p.value.argv == [BinaryFile(filesDir), "run", "-c", configPath]
                               && p.value.directory == BinariesDir(filesDir) && p.value.redirectErrorStream)
            && (p.Failure? ==> p.error == bin.error)
  {
    var (r1, bin) := EnsureXrayPresentOutcome(fs, filesDir, supported, assets);
    assert BinariesDir(filesDir) in r1;
  }

  /** `XrayManager(appContext)`: the files directory, the ABI list the platform reports, the
      packaged assets and the storage. */
  class XrayManager {
    const filesDir: string
    const supportedAbis: Option<seq<string>>
    const assets: map<string, string>
    const store: FileStore

    constructor (filesDir: string, supportedAbis: Option<seq<string>>, assets: map<string, string>, store: FileStore)
      ensures this.filesDir == filesDir && this.supportedAbis == supportedAbis
      ensures this.assets == assets && this.store == store
    {
      this.filesDir := filesDir;
      this.supportedAbis := supportedAbis;
      this.assets := assets;
      this.store := store;
    }

    method EnsureXrayPresent() returns (r: Result<string, IoError>)
      modifies store
      ensures (store.files, r) == EnsureXrayPresentOutcome(old(store.files), filesDir, supportedAbis, assets)
    {
      var name := AssetName(AbiResolver.Detect(supportedAbis));
      r := store.Provide(BinariesDir(filesDir), BinaryFile(filesDir), OpenAsset(assets, name));
    }

    method RunXray(configPath: string) returns (r: Result<ProcessSpec, IoError>)
      modifies store
      ensures (store.files, r) == RunXrayOutcome(old(store.files), filesDir, supportedAbis, assets, configPath)
    {
      var bin := EnsureXrayPresent();
      if bin.Failure? {
        return Failure(bin.error);
      }
      store.MkDirs(BinariesDir(filesDir));
      r := Success(ProcessSpec(RunArgs(bin.value, configPath), BinariesDir(filesDir), true));
    }
  }
}
