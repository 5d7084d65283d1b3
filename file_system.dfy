/** The part of the app's private storage the managers touch, as a map from absolute paths to
    nodes, with the `java.io.File` operations they call: `exists`, `mkdirs`, writing a file
    through a `FileOutputStream`, and `setExecutable(true)`. */
module FileSystem {
  import opened Wrappers

  /** A directory, or a file with its contents and its owner-execute bit. Binary contents are
      opaque strings here. */
  datatype Node = Dir | File(content: string, executable: bool)

  type Files = map<string, Node>

  /** Why an operation threw: a missing asset (`FileNotFoundException` from `assets.open`), a
      file that cannot be opened for writing, or a failed download. */
  datatype IoError = AssetMissing(name: string) | CannotWrite(path: string) | DownloadFailed

  /** `assets.open(name)` read to the end: the packaged asset's contents, or the
      `FileNotFoundException` for a name the package does not hold. */
  function OpenAsset(assets: map<string, string>, name: string): (r: Result<string, IoError>)
    ensures r.Success? <==> name in assets
    ensures r.Success? ==> r.value == assets[name]
    ensures r.Failure? ==> r.error == AssetMissing(name)
  {
    if name in assets then Success(assets[name]) else Failure(AssetMissing(name))
  }

  /** `File(dir, name).path`: an empty name resolves to the directory itself. */
  function Child(dir: string, name: string): string
  {
    if name == "" then dir else dir + "/" + name
  }

  /** `mkdirs()` on `dir`, whose parent directories Android has already created: it makes the
      directory when nothing is there and otherwise changes nothing (a plain file in the way
      just makes it return false). */
  function AddDir(fs: Files, dir: string): (r: Files)
    ensures dir in r && r[dir] == (if dir in fs then fs[dir] else Dir)
    ensures forall p :: p in fs ==> p in r && r[p] == fs[p]
    ensures forall p :: p in r && p != dir ==> p in fs
  {
    if dir in fs then fs else fs[dir := Dir]
  }

  /** Opening `path` in the directory `dir` for writing succeeds when `dir` is a directory and
      `path` is not. */
  predicate CanWrite(fs: Files, dir: string, path: string)
  {
    dir in fs && fs[dir].Dir? && !(path in fs && fs[path].Dir?)
  }

  /** Writing `content` to `path` through a `FileOutputStream`: the file is created, or
      truncated and rewritten; an existing file keeps its execute bit. */
  function Store(fs: Files, dir: string, path: string, content: string): (r: Result<Files, IoError>)
    ensures r.Success? <==> CanWrite(fs, dir, path)
    ensures r.Failure? ==> r.error == CannotWrite(path)
    ensures r.Success? ==> path in r.value && r.value[path].File? && r.value[path].content == content
    ensures r.Success? ==> forall p :: p != path ==> (p in r.value <==> p in fs) && (p in fs ==> r.value[p] == fs[p])
  {
    if !CanWrite(fs, dir, path) then Failure(CannotWrite(path))
    else Success(fs[path := File(content, path in fs && fs[path].executable)])
  }

  /** `setExecutable(true)`: sets the execute bit of a file; reports false when there is none. */
  function Chmod(fs: Files, path: string): (r: Files)
    ensures forall p :: p != path ==> (p in r <==> p in fs) && (p in fs ==> r[p] == fs[p])
    ensures path in r <==> path in fs
    ensures path in fs && fs[path].File? ==> r[path] == fs[path].(executable := true)
    ensures path in fs && fs[path].Dir? ==> r[path] == Dir
  {
    if path in fs && fs[path].File? then fs[path := fs[path].(executable := true)] else fs
  }

  /** The provisioning step both binary managers share: `mkdirs` on `dir`; when `path` does not
      exist, copy `source` to it (a missing source or an unwritable file throws); then mark it
      executable and return it.
      Returns the new store and the returned path or the thrown error. */
  function ProvideIfMissing(fs: Files, dir: string, path: string, source: Result<string, IoError>): (Files, Result<string, IoError>)
  {
    var fs1 := AddDir(fs, dir);
    if path in fs1 then (Chmod(fs1, path), Success(path))
    else
      match source
      case Failure(e) => (fs1, Failure(e))
      case Success(content) =>
        match Store(fs1, dir, path, content)
        case Failure(e) => (fs1, Failure(e))
        case Success(fs2) => (Chmod(fs2, path), Success(path))
  }

  /** `mkdirs` twice is `mkdirs` once. */
  lemma AddDirIdempotent(fs: Files, dir: string)
    ensures AddDir(AddDir(fs, dir), dir) == AddDir(fs, dir)
  {
  }

  /** An existing file is not copied over: its contents stay, it only becomes executable, and
      nothing else but the directory changes. */
  lemma ProvideKeepsExisting(fs: Files, dir: string, path: string, source: Result<string, IoError>)
    requires path in fs && fs[path].File?
    ensures var (r, out) := ProvideIfMissing(fs, dir, path, source);
            out == Success(path) && r[path] == File(fs[path].content, true)
            && forall p :: p != path && p != dir ==> (p in r <==> p in fs) && (p in fs ==> r[p] == fs[p])
  {
  }

  /** A missing file is copied from the source and made executable, provided the directory can
      be made and written. */
  lemma ProvideCopiesMissing(fs: Files, dir: string, path: string, content: string)
    requires path !in fs && path != dir
    requires dir !in fs || fs[dir].Dir?
    ensures var (r, out) := ProvideIfMissing(fs, dir, path, Success(content));
            out == Success(path) && r[path] == File(content, true)
            && forall p :: p != path && p != dir ==> (p in r <==> p in fs) && (p in fs ==> r[p] == fs[p])
  {
    var fs1 := AddDir(fs, dir);
    assert CanWrite(fs1, dir, path);
  }

  /** When the copy throws, nothing but the directory has changed and the error propagates. */
  lemma ProvideFailure(fs: Files, dir: string, path: string, source: Result<string, IoError>)
    requires ProvideIfMissing(fs, dir, path, source).1.Failure?
    ensures var (r, out) := ProvideIfMissing(fs, dir, path, source);
            r == AddDir(fs, dir) && path !in fs
            && (source.Failure? ==> out.error == source.error)
            && (source.Success? ==> out.error == CannotWrite(path))
  {
  }

  /** Provisioning twice leaves the store as provisioning once does, and gives the same
      outcome. */
  lemma ProvideIdempotent(fs: Files, dir: string, path: string, source: Result<string, IoError>)
    ensures var (r1, out1) := ProvideIfMissing(fs, dir, path, source);
            ProvideIfMissing(r1, dir, path, source) == (r1, out1)
  {
    var fs1 := AddDir(fs, dir);
    var (r1, out1) := ProvideIfMissing(fs, dir, path, source);
    AddDirIdempotent(fs, dir);
    if path in fs1 {
      assert AddDir(r1, dir) == r1;
      assert Chmod(r1, path) == r1;
    } else if source.Success? && CanWrite(fs1, dir, path) {
      var fs2 := Store(fs1, dir, path, source.value).value;
      assert r1 == Chmod(fs2, path);
      assert path != dir && AddDir(r1, dir) == r1;
      assert r1[path] == r1[path].(executable := true);
      assert Chmod(r1, path) == r1;
    }
  }

  /** After a successful provisioning the path exists, and when it is a file it is executable. */
  lemma ProvidedIsExecutable(fs: Files, dir: string, path: string, source: Result<string, IoError>)
    requires ProvideIfMissing(fs, dir, path, source).1.Success?
    ensures var (r, out) := ProvideIfMissing(fs, dir, path, source);
            out.value == path && path in r && (r[path].File? ==> r[path].executable)
  {
  }

  /** The store a manager works on: the app's private storage, shared by everything the
      service starts. */
  class FileStore {
    var files: Files

    constructor (initial: Files)
      ensures files == initial
    {
      files := initial;
    }

    predicate Exists(path: string)
      reads this
    {
      path in files
    }

    method MkDirs(dir: string)
      modifies this
      ensures files == AddDir(old(files), dir)
    {
      if dir !in files {
        files := files[dir := Dir];
      }
    }

    /** Opens `path` for writing and copies `content` into it, or throws. */
    method Write(dir: string, path: string, content: string) returns (r: Result<(), IoError>)
      modifies this
      ensures var w := Store(old(files), dir, path, content);
              (w.Success? ==> files == w.value && r == Success(()))
              && (w.Failure? ==> files == old(files) && r == Failure(w.error))
    {
      var w := Store(files, dir, path, content);
      if w.Success? {
        files := w.value;
        r := Success(());
      } else {
        r := Failure(w.error);
      }
    }

    method SetExecutable(path: string) returns (ok: bool)
      modifies this
      ensures files == Chmod(old(files), path)
      ensures ok <==> path in old(files) && old(files)[path].File?
    {
      ok := path in files && files[path].File?;
      if ok {
        files := files[path := files[path].(executable := true)];
      }
    }

    /** `ProvideIfMissing` step by step, `mkdirs` repeated as the managers repeat it (each
        `File` they build calls it again). */
    method Provide(dir: string, path: string, source: Result<string, IoError>) returns (r: Result<string, IoError>)
      modifies this
      ensures (files, r) == ProvideIfMissing(old(files), dir, path, source)
    {
      MkDirs(dir);
      if !Exists(path) {
        if source.Failure? {
          return Failure(source.error);
        }
        MkDirs(dir);
        AddDirIdempotent(old(files), dir);
        var w := Write(dir, path, source.value);
        if w.Failure? {
          return Failure(w.error);
        }
      }
      var _ := SetExecutable(path);
      r := Success(path);
    }
  }
}
