/** The `XrayManager` of the Netvor tree: instead of a packaged asset it downloads the engine's
    release archive for the device's processor family from GitHub, unpacks it into
    `filesDir/xray`, and runs the binary the same way as the app tree's manager. The HTTP
    transfer and the zip format are inputs here: a release is the archive's bytes together
    with the entries `ZipInputStream` reads from them. */
module XrayReleaseManager {
  import opened Wrappers
  import opened Text
  import opened FileSystem
  import opened Processes
  import AbiResolver
  import XrayAssetManager

  /** `binariesDir()` and `binaryFile()` are those of the app tree's manager. */
  function BinariesDir(filesDir: string): string
  {
    XrayAssetManager.BinariesDir(filesDir)
  }

  function BinaryFile(filesDir: string): string
  {
    XrayAssetManager.BinaryFile(filesDir)
  }

  /** `archiveFile()`: `filesDir/xray/xray.zip`. */
  function ArchiveFile(filesDir: string): string
  {
    Child(BinariesDir(filesDir), "xray.zip")
  }

  /** The archive name of a release: `Xray-<releaseSuffix>.zip`. */
  function ArchiveName(abi: AbiResolver.CpuAbi): string
  {
    "Xray-" + AbiResolver.ReleaseSuffix(abi) + ".zip"
  }

  /** `releaseUrl()`, for the build's repository and engine version. */
  function ReleaseUrl(repo: string, version: string, abi: AbiResolver.CpuAbi): string
  {
    "https://github.com/" + repo + "/releases/download/" + version + "/" + ArchiveName(abi)
  }

  /** The processor family a release URL asks for, read from its last path segment. */
  function AbiOfUrl(url: string): Option<AbiResolver.CpuAbi>
  {
    var name := SubstringAfterLast(url, '/');
    if |name| >= 9 && StartsWith(name, "Xray-") && EndsWith(name, ".zip")
    then AbiResolver.AbiOfSuffix(name[5..|name| - 4])
    else None
  }

  /** Whatever the repository and version, the URL's archive name tells the family back, so
      distinct families download distinct archives. */
  lemma ReleaseUrlNamesAbi(repo: string, version: string, abi: AbiResolver.CpuAbi)
    ensures AbiOfUrl(ReleaseUrl(repo, version, abi)) == Some(abi)
  {
    var name := ArchiveName(abi);
    ArchiveNameReadsBack(abi);
    var prefix := "https://github.com/" + repo + "/releases/download/" + version;
    assert ReleaseUrl(repo, version, abi) == prefix + ['/'] + name;
    SubstringAfterLastConcat(prefix, name, '/');
  }

  /** An archive name has no `/`, and its middle is the family's suffix. */
  lemma ArchiveNameReadsBack(abi: AbiResolver.CpuAbi)
    ensures var name := ArchiveName(abi);
            '/' !in name && |name| >= 9 && StartsWith(name, "Xray-") && EndsWith(name, ".zip")
            && AbiResolver.AbiOfSuffix(name[5..|name| - 4]) == Some(abi)
  {
    var suffix := AbiResolver.ReleaseSuffix(abi);
    var name := ArchiveName(abi);
    NoneOfConcat("Xray-", suffix, "/");
    NoneOfConcat("Xray-" + suffix, ".zip", "/");
    assert name[..5] == "Xray-" && name[|name| - 4..] == ".zip";
    assert name[5..|name| - 4] == suffix;
  }

  /** Distinct families get distinct URLs. */
  lemma ReleaseUrlInjective(repo: string, version: string, a: AbiResolver.CpuAbi, b: AbiResolver.CpuAbi)
    requires ReleaseUrl(repo, version, a) == ReleaseUrl(repo, version, b)
    ensures a == b
  {
    ReleaseUrlNamesAbi(repo, version, a);
    ReleaseUrlNamesAbi(repo, version, b);
  }

  /** One entry of the archive, as `ZipInputStream.nextEntry` returns it, with its data. */
  datatype ZipEntry = ZipEntry(name: string, data: string)

  /** `ZipEntry.isDirectory()`: the name ends with `/`. */
  predicate IsDirectory(e: ZipEntry)
  {
    EndsWith(e.name, "/")
  }

  /** A downloaded release: the bytes saved as `xray.zip` and the entries read back from them. */
  datatype Release = Release(bytes: string, entries: seq<ZipEntry>)

  /** The name, inside the binaries directory, that an entry is unpacked to: `xray` for any name
      ending in `xray`, and otherwise the name's last path segment. */
  function OutputName(name: string): (leaf: string)
    ensures '/' !in leaf
    ensures EndsWith(name, leaf)
    ensures EndsWith(name, "xray") ==> leaf == "xray"
    ensures !EndsWith(name, "xray") && '/' !in name ==> leaf == name
    ensures !EndsWith(name, "xray") && '/' in name ==> |leaf| < |name| && name[|name| - |leaf| - 1] == '/'
  {
    if EndsWith(name, "xray") then "xray" else SubstringAfterLast(name, '/')
  }

  /** The file an entry is written to: `binaryFile()`, or `File(binariesDir(), leaf)`. */
  function OutputFile(filesDir: string, name: string): string
  {
    Child(BinariesDir(filesDir), OutputName(name))
  }

  /** The entry loop of `downloadAndExtract` from the entry at index `k` on: each entry in
      archive order, directories skipped, each file entry written (through a fresh `mkdirs`)
      to its output file; a write that throws ends the loop, keeping what was already
      written. The whole archive is unpacked from index 0. */
  function Extract(fs: Files, filesDir: string, entries: seq<ZipEntry>, k: nat): (Files, Result<(), IoError>)
    decreases |entries| - k
  {
    if k >= |entries| then (fs, Success(()))
    else
      var e := entries[k];
      if IsDirectory(e) then Extract(fs, filesDir, entries, k + 1)
      else
        var dir := BinariesDir(filesDir);
        var fs1 := AddDir(fs, dir);
        match Store(fs1, dir, OutputFile(filesDir, e.name), e.data)
        case Failure(err) => (fs1, Failure(err))
        case Success(fs2) => Extract(fs2, filesDir, entries, k + 1)
  }

  /** One step of the entry loop at a file entry: its write, then the entries after it. */
  lemma ExtractFileStep(fs: Files, filesDir: string, entries: seq<ZipEntry>, k: nat)
    requires k < |entries| && !IsDirectory(entries[k])
    ensures var dir := BinariesDir(filesDir);
            var w := Store(AddDir(fs, dir), dir, OutputFile(filesDir, entries[k].name), entries[k].data);
            (w.Failure? ==> Extract(fs, filesDir, entries, k) == (AddDir(fs, dir), Failure(w.error)))
            && (w.Success? ==> Extract(fs, filesDir, entries, k) == Extract(w.value, filesDir, entries, k + 1))
  {
  }

  /** The file entries of an archive from index `k` on, in order. */
  function FileEntries(entries: seq<ZipEntry>, k: nat): (r: seq<ZipEntry>)
    ensures forall i :: 0 <= i < |r| ==> !IsDirectory(r[i])
    ensures |r| <= if k <= |entries| then |entries| - k else 0
    decreases |entries| - k
  {
    if k >= |entries| then []
    else if IsDirectory(entries[k]) then FileEntries(entries, k + 1)
    else [entries[k]] + FileEntries(entries, k + 1)
  }

  /** Writing a list of file entries one after another, each through a fresh `mkdirs`, up to
      the first write that throws. */
  function WriteAll(fs: Files, filesDir: string, files: seq<ZipEntry>): (Files, Result<(), IoError>)
    decreases |files|
  {
    if |files| == 0 then (fs, Success(()))
    else
      var dir := BinariesDir(filesDir);
      var fs1 := AddDir(fs, dir);
      match Store(fs1, dir, OutputFile(filesDir, files[0].name), files[0].data)
      case Failure(err) => (fs1, Failure(err))
      case Success(fs2) => WriteAll(fs2, filesDir, files[1..])
  }

  /** Directory entries have no effect at all: unpacking the archive is writing its file
      entries in order. */
  lemma {:induction false} DirectoriesSkipped(fs: Files, filesDir: string, entries: seq<ZipEntry>, k: nat)
    ensures Extract(fs, filesDir, entries, k) == WriteAll(fs, filesDir, FileEntries(entries, k))
    decreases |entries| - k
  {
    if k < |entries| {
      var e := entries[k];
      if IsDirectory(e) {
        DirectoriesSkipped(fs, filesDir, entries, k + 1);
      } else {
        var rest := FileEntries(entries, k + 1);
        var f := [e] + rest;
        assert FileEntries(entries, k) == f && f[0] == e && f[1..] == rest;
        var dir := BinariesDir(filesDir);
        var w := Store(AddDir(fs, dir), dir, OutputFile(filesDir, e.name), e.data);
        if w.Success? {
          DirectoriesSkipped(w.value, filesDir, entries, k + 1);
        }
      }
    }
  }

  /** The paths the file entries from index `k` on are written to. */
  function Targets(filesDir: string, entries: seq<ZipEntry>, k: nat): set<string>
    decreases |entries| - k
  {
    if k >= |entries| then {}
    else if IsDirectory(entries[k]) then Targets(filesDir, entries, k + 1)
    else {OutputFile(filesDir, entries[k].name)} + Targets(filesDir, entries, k + 1)
  }

  /** Unpacking changes nothing but the binaries directory and the output files of the file
      entries, whether it completes or throws. */
  lemma {:induction false} ExtractTouchesOnlyTargets(fs: Files, filesDir: string, entries: seq<ZipEntry>, k: nat, p: string)
    requires p != BinariesDir(filesDir) && p !in Targets(filesDir, entries, k)
    ensures var r := Extract(fs, filesDir, entries, k).0;
            (p in r <==> p in fs) && (p in fs ==> r[p] == fs[p])
    decreases |entries| - k
  {
    if k < |entries| {
      var e := entries[k];
      if IsDirectory(e) {
        ExtractTouchesOnlyTargets(fs, filesDir, entries, k + 1, p);
      } else {
        var dir := BinariesDir(filesDir);
        var w := Store(AddDir(fs, dir), dir, OutputFile(filesDir, e.name), e.data);
        if w.Success? {
          ExtractTouchesOnlyTargets(w.value, filesDir, entries, k + 1, p);
        }
      }
    }
  }

  /** The entry's output file holds the entry's data. */
  predicate LastWritten(r: Files, filesDir: string, e: ZipEntry)
  {
    var out := OutputFile(filesDir, e.name);
    out in r && r[out].File? && r[out].content == e.data
  }

  /** After a complete unpacking, each output file holds the data of the last file entry
      written to it. */
  lemma {:induction false} ExtractLastWins(fs: Files, filesDir: string, entries: seq<ZipEntry>, k: nat, i: nat)
    requires k <= i < |entries| && !IsDirectory(entries[i])
    requires OutputFile(filesDir, entries[i].name) !in Targets(filesDir, entries, i + 1)
    requires Extract(fs, filesDir, entries, k).1.Success?
    ensures LastWritten(Extract(fs, filesDir, entries, k).0, filesDir, entries[i])
    decreases |entries| - k
  {
    var dir := BinariesDir(filesDir);
    var e := entries[k];
    if IsDirectory(e) {
      ExtractLastWins(fs, filesDir, entries, k + 1, i);
    } else {
      var out := OutputFile(filesDir, e.name);
      var w := Store(AddDir(fs, dir), dir, out, e.data);
      assert w.Success?;
      if k == i {
        ExtractTouchesOnlyTargets(w.value, filesDir, entries, k + 1, out);
      } else {
        ExtractLastWins(w.value, filesDir, entries, k + 1, i);
      }
    }
  }

  /** `downloadAndExtract()` over the store `fs`. The release is fetched from its URL on
      `releases` (the server; an absent URL is a failed connection), saved as `xray.zip`, and
      its entries are unpacked. */
  function DownloadOutcome(fs: Files, filesDir: string, repo: string, version: string, supported: Option<seq<string>>, releases: map<string, Release>): (Files, Result<(), IoError>)
  {
    var url := ReleaseUrl(repo, version, AbiResolver.Detect(supported));
    if url !in releases then (fs, Failure(DownloadFailed))
    else
      var dir := BinariesDir(filesDir);
      var fs1 := AddDir(fs, dir);
      match Store(fs1, dir, ArchiveFile(filesDir), releases[url].bytes)
      case Failure(e) => (fs1, Failure(e))
      case Success(fs2) => Extract(AddDir(fs2, dir), filesDir, releases[url].entries, 0)
  }

  /** `ensureXrayPresent()` over the store `fs`: downloads only when the binary is missing, then
      marks the binary executable and returns it. */
  function EnsureXrayPresentOutcome(fs: Files, filesDir: string, repo: string, version: string, supported: Option<seq<string>>, releases: map<string, Release>): (Files, Result<string, IoError>)
  {
    var dir := BinariesDir(filesDir);
    var bin := BinaryFile(filesDir);
    var fs1 := AddDir(fs, dir);
    if bin in fs1 then (Chmod(fs1, bin), Success(bin))
    else
      match DownloadOutcome(fs1, filesDir, repo, version, supported, releases)
      case (fs2, Failure(e)) => (fs2, Failure(e))
      case (fs2, Success(_)) => (Chmod(fs2, bin), Success(bin))
  }

  /** A binary already in place is kept, with only its execute bit set: nothing is downloaded. */
  lemma PresentBinaryKept(fs: Files, filesDir: string, repo: string, version: string, supported: Option<seq<string>>, releases: map<string, Release>)
    requires BinaryFile(filesDir) in fs
    ensures var (r, out) := EnsureXrayPresentOutcome(fs, filesDir, repo, version, supported, releases);
            out == Success(BinaryFile(filesDir)) && r == Chmod(AddDir(fs, BinariesDir(filesDir)), BinaryFile(filesDir))
  {
  }

  /** When the binary is missing and this family's release is not on the server, the failed
      connection is reported and nothing is written. */
  lemma MissingReleaseFails(fs: Files, filesDir: string, repo: string, version: string, supported: Option<seq<string>>, releases: map<string, Release>)
    requires BinaryFile(filesDir) !in fs
    requires ReleaseUrl(repo, version, AbiResolver.Detect(supported)) !in releases
    ensures var (r, out) := EnsureXrayPresentOutcome(fs, filesDir, repo, version, supported, releases);
            out == Failure(DownloadFailed) && r == AddDir(fs, BinariesDir(filesDir))
  {
    assert BinaryFile(filesDir) != BinariesDir(filesDir);
  }

  /** The case above does happen: on an empty store, a release whose archive has no entries
      is saved and unpacked, and the binary is reported though no file is there. */
  lemma EmptyReleaseStillReturnsBinary(filesDir: string, repo: string, version: string, supported: Option<seq<string>>, bytes: string)
    ensures var url := ReleaseUrl(repo, version, AbiResolver.Detect(supported));
            var (r, out) := EnsureXrayPresentOutcome(map[], filesDir, repo, version, supported, map[url := Release(bytes, [])]);
            out == Success(BinaryFile(filesDir)) && BinaryFile(filesDir) !in r
  {
    var dir, bin, arc := BinariesDir(filesDir), BinaryFile(filesDir), ArchiveFile(filesDir);
    assert bin != dir && arc != dir && bin != arc;
    var fs1: Files := map[dir := Dir];
    assert AddDir(map[], dir) == fs1;
    assert CanWrite(fs1, dir, arc);
  }

  /** A name not ending in `xray` is unpacked to some other file than the binary. */
  lemma OutputNotBinary(filesDir: string, name: string)
    requires !EndsWith(name, "xray")
    ensures OutputFile(filesDir, name) != BinaryFile(filesDir)
  {
    var dir, leaf := BinariesDir(filesDir), OutputName(name);
    if leaf != "" && dir + "/" + leaf == dir + "/xray" {
      assert leaf == (dir + "/" + leaf)[|dir| + 1..];
    }
  }

  /** When no entry from index `k` on ends in `xray`, none of them is unpacked to the binary. */
  lemma {:induction false} BinaryNotTargeted(filesDir: string, entries: seq<ZipEntry>, k: nat)
    requires forall i :: k <= i < |entries| ==> !EndsWith(entries[i].name, "xray")
    ensures BinaryFile(filesDir) !in Targets(filesDir, entries, k)
    decreases |entries| - k
  {
    if k < |entries| {
      BinaryNotTargeted(filesDir, entries, k + 1);
      if !IsDirectory(entries[k]) {
        OutputNotBinary(filesDir, entries[k].name);
      }
    }
  }

  /** Whatever the store and the other files of the release, a missing binary and a release
      with no entry ending in `xray` leave no binary behind, yet a call that completes reports
      the binary's path all the same. */
  lemma NoXrayEntryStillReturnsBinary(fs: Files, filesDir: string, repo: string, version: string, supported: Option<seq<string>>, releases: map<string, Release>)
    requires BinaryFile(filesDir) !in fs
    requires var url := ReleaseUrl(repo, version, AbiResolver.Detect(supported));
             url in releases ==> forall i :: 0 <= i < |releases[url].entries| ==> !EndsWith(releases[url].entries[i].name, "xray")
    ensures var (r, out) := EnsureXrayPresentOutcome(fs, filesDir, repo, version, supported, releases);
            out.Success? ==> out == Success(BinaryFile(filesDir)) && BinaryFile(filesDir) !in r
  {
    var dir, bin, arc := BinariesDir(filesDir), BinaryFile(filesDir), ArchiveFile(filesDir);
    assert bin != arc;
    var url := ReleaseUrl(repo, version, AbiResolver.Detect(supported));
    var fs1 := AddDir(fs, dir);
    if url in releases {
      var w := Store(fs1, dir, arc, releases[url].bytes);
      if w.Success? {
        BinaryNotTargeted(filesDir, releases[url].entries, 0);
        ExtractTouchesOnlyTargets(AddDir(w.value, dir), filesDir, releases[url].entries, 0, bin);
      }
    }
  }

  /** A successful provisioning returns the binary's path, and the binary, when there, is
      executable. */
  lemma ProvidedIsExecutable(fs: Files, filesDir: string, repo: string, version: string, supported: Option<seq<string>>, releases: map<string, Release>)
    ensures var (r, out) := EnsureXrayPresentOutcome(fs, filesDir, repo, version, supported, releases);
            out.Success? ==> out.value == BinaryFile(filesDir)
                             && (BinaryFile(filesDir) in r && r[BinaryFile(filesDir)].File? ==> r[BinaryFile(filesDir)].executable)
  {
  }

  /** `runXray(tunInterface, configFile)`: the app tree's command line, after this tree's
      provisioning. */
  function RunXrayOutcome(fs: Files, filesDir: string, repo: string, version: string, supported: Option<seq<string>>, releases: map<string, Release>, configPath: string): (Files, Result<ProcessSpec, IoError>)
  {
    var (fs1, bin) := EnsureXrayPresentOutcome(fs, filesDir, repo, version, supported, releases);
    match bin
    case Failure(e) => (fs1, Failure(e))
    case Success(path) => (AddDir(fs1, BinariesDir(filesDir)), Success(ProcessSpec(XrayAssetManager.RunArgs(path, configPath), BinariesDir(filesDir), true)))
  }

  /** Running starts the provided binary with `run -c <config>` in the binaries directory. */
  lemma RunXrayStartsProvidedBinary(fs: Files, filesDir: string, repo: string, version: string, supported: Option<seq<string>>, releases: map<string, Release>, configPath: string)
    ensures var (r, p) := RunXrayOutcome(fs, filesDir, repo, version, supported, releases, configPath);
            var (r1, bin) := EnsureXrayPresentOutcome(fs, filesDir, repo, version, supported, releases);
            (p.Success? <==> bin.Success?)
            && (p.Success? ==> r == AddDir(r1, BinariesDir(filesDir))
                               && p.value.argv == [BinaryFile(filesDir), "run", "-c", configPath]
                               && p.value.directory == BinariesDir(filesDir) && p.value.redirectErrorStream)
            && (p.Failure? ==> r == r1 && p.error == bin.error)
  {
  }

  /** `XrayManager(appContext)` of the Netvor tree, with the build's `XRAY_REPO` and
      `XRAY_VERSION`. */
  class XrayManager {
    const filesDir: string
    const repo: string
    const version: string
    const supportedAbis: Option<seq<string>>
    const releases: map<string, Release>
    const store: FileStore

    constructor (filesDir: string, repo: string, version: string, supportedAbis: Option<seq<string>>, releases: map<string, Release>, store: FileStore)
      ensures this.filesDir == filesDir && this.repo == repo && this.version == version
      ensures this.supportedAbis == supportedAbis && this.releases == releases && this.store == store
    {
      this.filesDir := filesDir;
      this.repo := repo;
      this.version := version;
      this.supportedAbis := supportedAbis;
      this.releases := releases;
      this.store := store;
    }

    method DownloadAndExtract() returns (r: Result<(), IoError>)
      modifies store
      ensures (store.files, r) == DownloadOutcome(old(store.files), filesDir, repo, version, supportedAbis, releases)
    {
      var url := ReleaseUrl(repo, version, AbiResolver.Detect(supportedAbis));
      if url !in releases {
        return Failure(DownloadFailed);
      }
      var release := releases[url];
      var dir := BinariesDir(filesDir);
      store.MkDirs(dir);
      var w := store.Write(dir, ArchiveFile(filesDir), release.bytes);
      if w.Failure? {
        return Failure(w.error);
      }
      store.MkDirs(dir);
      r := ExtractEntries(release.entries);
    }

    /** The `ZipInputStream` loop of `downloadAndExtract()`. */
    method ExtractEntries(entries: seq<ZipEntry>) returns (r: Result<(), IoError>)
      modifies store
      ensures (store.files, r) == Extract(old(store.files), filesDir, entries, 0)
    {
      var i := 0;
      while i < |entries|
        invariant 0 <= i <= |entries|
        invariant Extract(store.files, filesDir, entries, i) == Extract(old(store.files), filesDir, entries, 0)
      {
        var failed := ExtractEntry(entries, i);
        if failed.Some? {
          return Failure(failed.value);
        }
        i := i + 1;
      }
      r := Success(());
    }

    /** One turn of the entry loop: a directory entry is passed over, a file entry is written
        to its output file; returns the error when the write throws. */
    method ExtractEntry(entries: seq<ZipEntry>, i: nat) returns (failed: Option<IoError>)
      requires i < |entries|
      modifies store
      ensures failed.None? ==> Extract(store.files, filesDir, entries, i + 1) == Extract(old(store.files), filesDir, entries, i)
      ensures failed.Some? ==> (store.files, Failure(failed.value)) == Extract(old(store.files), filesDir, entries, i)
    {
      var e := entries[i];
      failed := None;
      if !IsDirectory(e) {
        var dir := BinariesDir(filesDir);
        ExtractFileStep(store.files, filesDir, entries, i);
        store.MkDirs(dir);
        var wr := store.Write(dir, OutputFile(filesDir, e.name), e.data);
        if wr.Failure? {
          failed := Some(wr.error);
        }
      }
    }

    method EnsureXrayPresent() returns (r: Result<string, IoError>)
      modifies store
      ensures (store.files, r) == EnsureXrayPresentOutcome(old(store.files), filesDir, repo, version, supportedAbis, releases)
    {
      var bin := BinaryFile(filesDir);
      store.MkDirs(BinariesDir(filesDir));
      if !store.Exists(bin) {
        var d := DownloadAndExtract();
        if d.Failure? {
          return Failure(d.error);
        }
      }
      var _ := store.SetExecutable(bin);
      r := Success(bin);
    }

    method RunXray(configPath: string) returns (r: Result<ProcessSpec, IoError>)
      modifies store
      ensures (store.files, r) == RunXrayOutcome(old(store.files), filesDir, repo, version, supportedAbis, releases, configPath)
    {
      var bin := EnsureXrayPresent();
      if bin.Failure? {
        return Failure(bin.error);
      }
      store.MkDirs(BinariesDir(filesDir));
      r := Success(ProcessSpec(XrayAssetManager.RunArgs(bin.value, configPath), BinariesDir(filesDir), true));
    }
  }
}
