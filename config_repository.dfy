/** `ConfigRepository`: writes the default engine configuration to `filesDir/config/config.json`
    the first time it is asked for, and never touches an existing file. */
module ConfigRepository {
  import opened Wrappers
  import opened Text
  import opened FileSystem

  /** `configDir()`: `filesDir/config`. */
  function ConfigDir(filesDir: string): string
  {
    Child(filesDir, "config")
  }

  /** The file `writeDefaultConfigIfMissing` returns. */
  function ConfigFile(filesDir: string): (f: string)
    ensures f != ConfigDir(filesDir)
  {
    Child(ConfigDir(filesDir), "config.json")
  }

  /** The endpoint of the default SOCKS inbound. */
  const InboundListen := "127.0.0.1"
  const InboundPort := "10808"

  /** The pieces of the default text the rest of the app relies on. */
  const LogField := "\"loglevel\": \"warning\""
  const ListenField := "\"listen\":\"" + InboundListen + "\""
  const PortField := "\"port\":" + InboundPort
  const SocksField := "\"protocol\":\"socks\""
  const FreedomField := "\"protocol\": \"freedom\""
  const InboundEntry := "{" + ListenField + "," + PortField + "," + SocksField + ",\"settings\":{}}"
  const OutboundEntry := "{" + FreedomField + ", \"settings\": {}}"

  /** The lines of the default text once `trimIndent` has removed the common indentation of
      four tabs: the entries of the two arrays keep their one extra tab. */
  const DefaultConfigLines: seq<string> := [
    "{",
    "  \"log\": {" + LogField + "},",
    "  \"inbounds\": [",
    "\t" + InboundEntry,
    "  ],",
    "  \"outbounds\": [",
    "\t" + OutboundEntry,
    "  ]",
    "}"
  ]

  /** The default text: the lines joined by newlines, with no newline after the last. */
  const DefaultConfig: string := Join(DefaultConfigLines, '\n')

  /** `writeDefaultConfigIfMissing()` over the store `fs`: returns the new store and the
      returned path, or the exception `writeText` threw. */
  function WriteDefault(fs: Files, filesDir: string): (Files, Result<string, IoError>)
  {
    var dir := ConfigDir(filesDir);
    var f := ConfigFile(filesDir);
    var fs1 := AddDir(fs, dir);
    if f in fs1 then (fs1, Success(f))
    else
      match Store(fs1, dir, f, DefaultConfig)
      case Failure(e) => (fs1, Failure(e))
      case Success(fs2) => (fs2, Success(f))
  }

  /** An existing `config.json` is returned as it is, whatever it holds. */
  lemma ExistingConfigKept(fs: Files, filesDir: string)
    requires ConfigFile(filesDir) in fs
    ensures var (r, out) := WriteDefault(fs, filesDir);
            r == AddDir(fs, ConfigDir(filesDir)) && r[ConfigFile(filesDir)] == fs[ConfigFile(filesDir)]
            && out == Success(ConfigFile(filesDir))
  {
  }

  /** A missing `config.json` is created with the default text, and nothing else but the
      directory changes; the write only fails when the directory is taken by a file. */
  lemma MissingConfigWritten(fs: Files, filesDir: string)
    requires ConfigFile(filesDir) !in fs
    ensures var (r, out) := WriteDefault(fs, filesDir);
            var dir := ConfigDir(filesDir);
            (out.Success? <==> dir !in fs || fs[dir].Dir?)
            && (out.Success? ==> r[ConfigFile(filesDir)] == File(DefaultConfig, false))
            && (out.Failure? ==> r == fs && out.error == CannotWrite(ConfigFile(filesDir)))
            && forall p :: p != dir && p != ConfigFile(filesDir) ==> (p in r <==> p in fs) && (p in fs ==> r[p] == fs[p])
  {
    var dir := ConfigDir(filesDir);
    var fs1 := AddDir(fs, dir);
    assert CanWrite(fs1, dir, ConfigFile(filesDir)) <==> dir !in fs || fs[dir].Dir?;
  }

  /** The result names `filesDir/config/config.json` whether or not the file was written. */
  lemma ReturnsConfigFile(fs: Files, filesDir: string)
    ensures var out := WriteDefault(fs, filesDir).1;
            (out.Success? ==> out.value == ConfigFile(filesDir))
            && (out.Failure? ==> out.error == CannotWrite(ConfigFile(filesDir)))
  {
  }

  /** Asking twice leaves the store as asking once does, with the same answer. */
  lemma WriteDefaultIdempotent(fs: Files, filesDir: string)
    ensures var (r1, out1) := WriteDefault(fs, filesDir);
            WriteDefault(r1, filesDir) == (r1, out1)
  {
    var dir := ConfigDir(filesDir);
    var (r1, out1) := WriteDefault(fs, filesDir);
    AddDirIdempotent(fs, dir);
    assert dir in r1 && AddDir(r1, dir) == r1;
  }

  /** The default text splits back into its lines. */
  lemma DefaultConfigLinesBack()
    ensures Split(DefaultConfig, '\n') == DefaultConfigLines
  {
    var lines := DefaultConfigLines;
    forall i | 0 <= i < |lines| ensures '\n' !in lines[i] {
      LineHasNoNewline(i);
    }
    SplitJoin(lines, '\n');
  }

  lemma LineHasNoNewline(i: nat)
    requires i < |DefaultConfigLines|
    ensures '\n' !in DefaultConfigLines[i]
  {
    if i == 1 {
      NoneOfConcat("  \"log\": {", LogField, "\n");
      NoneOfConcat("  \"log\": {" + LogField, "},", "\n");
    } else if i == 3 {
      InboundEntryOneLine();
      NoneOfConcat("\t", InboundEntry, "\n");
    } else if i == 6 {
      NoneOfConcat("\t", OutboundEntry, "\n");
    }
  }

  lemma InboundEntryOneLine()
    ensures NoneOf(InboundEntry, "\n")
  {
    var a := "{" + ListenField;
    NoneOfConcat("{", ListenField, "\n");
    NoneOfConcat(a, ",", "\n");
    NoneOfConcat(a + ",", PortField, "\n");
    var b := a + "," + PortField;
    NoneOfConcat(b, ",", "\n");
    NoneOfConcat(b + ",", SocksField, "\n");
    NoneOfConcat(b + "," + SocksField, ",\"settings\":{}}", "\n");
  }

  /** The inbound is SOCKS, listening on `127.0.0.1` port 10808. */
  lemma DefaultInbound()
    ensures Contains(DefaultConfig, ListenField)
    ensures Contains(DefaultConfig, PortField)
    ensures Contains(DefaultConfig, SocksField)
  {
    ListenInEntry();
    PortInEntry();
    SocksInEntry();
    InboundLine(ListenField);
    InboundLine(PortField);
    InboundLine(SocksField);
  }

  lemma ListenInEntry()
    ensures Contains(InboundEntry, ListenField)
  {
    var t := ListenField;
    ContainsSelf(t);
    ContainsSuffix("{", t, t);
    AppendedStillContains("{" + t, t);
  }

  lemma PortInEntry()
    ensures Contains(InboundEntry, PortField)
  {
    var t := PortField;
    var a := "{" + ListenField + ",";
    ContainsSelf(t);
    ContainsSuffix(a, t, t);
    AfterPortStillContains(a + t, t);
  }

  lemma SocksInEntry()
    ensures Contains(InboundEntry, SocksField)
  {
    var t := SocksField;
    var a := "{" + ListenField + "," + PortField + ",";
    ContainsSelf(t);
    ContainsSuffix(a, t, t);
    ContainsPrefix(a + t, ",\"settings\":{}}", t);
  }

  /** The rest of the inbound entry after its listen field keeps an occurrence. */
  lemma AppendedStillContains(x: string, t: string)
    requires x == "{" + ListenField && Contains(x, t)
    ensures Contains(InboundEntry, t)
  {
    ContainsPrefix(x, ",", t);
    ContainsPrefix(x + ",", PortField, t);
    AfterPortStillContains(x + "," + PortField, t);
  }

  /** The rest of the inbound entry after its port field keeps an occurrence. */
  lemma AfterPortStillContains(x: string, t: string)
    requires x == "{" + ListenField + "," + PortField && Contains(x, t)
    ensures Contains(InboundEntry, t)
  {
    ContainsPrefix(x, ",", t);
    ContainsPrefix(x + ",", SocksField, t);
    ContainsPrefix(x + "," + SocksField, ",\"settings\":{}}", t);
  }

  /** What the inbound entry holds, the default text holds. */
  lemma InboundLine(t: string)
    requires Contains(InboundEntry, t)
    ensures Contains(DefaultConfig, t)
  {
    ContainsSuffix("\t", InboundEntry, t);
    JoinContains(DefaultConfigLines, '\n', 3, t);
  }

  /** The log level is `warning` and the outbound is `freedom`. */
  lemma DefaultLogAndOutbound()
    ensures Contains(DefaultConfig, LogField)
    ensures Contains(DefaultConfig, FreedomField)
  {
    ContainsSelf(LogField);
    ContainsSuffix("  \"log\": {", LogField, LogField);
    ContainsPrefix("  \"log\": {" + LogField, "},", LogField);
    JoinContains(DefaultConfigLines, '\n', 1, LogField);
    ContainsSelf(FreedomField);
    ContainsSuffix("{", FreedomField, FreedomField);
    ContainsPrefix("{" + FreedomField, ", \"settings\": {}}", FreedomField);
    ContainsSuffix("\t", OutboundEntry, FreedomField);
    JoinContains(DefaultConfigLines, '\n', 6, FreedomField);
  }

  /** `ConfigRepository` bound to the app's storage. */
  class ConfigRepository {
    const filesDir: string
    const store: FileStore

    constructor (filesDir: string, store: FileStore)
      ensures this.filesDir == filesDir && this.store == store
    {
      this.filesDir := filesDir;
      this.store := store;
    }

    method WriteDefaultConfigIfMissing() returns (r: Result<string, IoError>)
      modifies store
      ensures (store.files, r) == WriteDefault(old(store.files), filesDir)
    {
      var dir := ConfigDir(filesDir);
      var f := ConfigFile(filesDir);
      store.MkDirs(dir);
      if !store.Exists(f) {
        var w := store.Write(dir, f, DefaultConfig);
        if w.Failure? {
          return Failure(w.error);
        }
      }
      r := Success(f);
    }
  }
}
