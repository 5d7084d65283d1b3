# Netvor core in Dafny

Netvor is an Android VPN client. It imports a VLESS share-link, writes a default Xray
configuration, provisions two native binaries (the Xray engine and the tun2socks relay),
builds a virtual network interface and starts both processes on it. While a session runs, the
service publishes a connection status and a log stream on a process-wide bus, and samples the
traffic counters. This project models that core as Dafny modules and proves properties of it:

- `VlessLinkParser` parses a `vless://` share-link into a `VlessConfig`.
  - `UrlDecoder` models the percent-decoding the parser relies on (`URLDecoder.decode`, and
    `java.net.URI`'s decoding of the user information).
  - `VlessLinkFormat` is a share-link writer that serves as the parser's partner: a link
    written for a record parses back to that record.
- `Bus` is `AppBus`: a latest-value status cell, plus a replay cache of the 100 most recent
  log lines.
- `ConfigRepository` writes the default `config.json`, and does so only when the file is
  missing.
- `AbiResolver` picks the processor family (`CpuAbi.detect`) and gives each family its
  release suffix.
- `XrayAssetManager` models the app tree's `XrayManager`; it copies the engine from the
  packaged assets.
- `XrayReleaseManager` models the second tree's `XrayManager`. It builds the release URL,
  takes the downloaded archive as an input, and unpacks its entries to output files.
- `Tun2SocksManager` chooses the relay asset, provisions the relay and builds its command
  line.
- `NetvorVpnService` models the service as a class. It holds the interface handle, both
  process handles and the traffic baselines. Its methods are proved against specification
  functions of the whole state: the handles, the bus status, the private storage, and a trace
  of the operating-system calls made.
- `HomeTabs` covers three screen helpers: the uptime text, the logs tab's 2000-line list,
  and the import tab's enable rule and saved flag.
- Helper modules:
  - `Wrappers`: `Option` and `Result`;
  - `Text`: the Kotlin string functions the core calls;
  - `JvmInt`: `Int`/`Long` wrap-around and truncating `/` and `%`;
  - `Windows`: bounded windows over a stream;
  - `FileSystem`: the app's private storage as a map from paths to nodes, with a
    `FileStore` class whose methods change it;
  - `Processes`: process specifications and flag lookup.

Platform results are inputs to the model:

- the ABI list the platform reports;
- the packaged assets;
- the releases on the download server, with the entries each archive holds;
- what `establish()` does;
- whether a process starts;
- the traffic counters and the clock.

The model does not perform any of those calls; the ones that act on the device (establish,
start, destroy, close, stopSelf) are recorded as effects.

Behaviour of the code worth knowing:

- The parser accepts an empty user information (`vless://@host`).
- The parser accepts any port up to `Integer.MAX_VALUE`.
- The parser gives no defaults for the network type or the path.
- The `host` parameter is returned as one string, not as a list.
- The parser ignores the fragment.
- "Missing host" can never be the reported reason, because `java.net.URI` reports no user
  information whenever it reports no host (`VlessLinkParser.Parse`).
- A host that is neither an IPv4 address nor a host name of well-formed labels (`-abc`,
  `abc-`, `a..b`, `1.2.3`) makes `java.net.URI` fall back to a registry-based authority, so
  such a link fails with "Missing UUID" (`VlessLinkParser.InvalidHostFails`).
- When `establish()` returns null, the start sequence still publishes the connected status
  (`NetvorVpnService.RefusedInterfaceStillConnected`).
- `onDestroy` leaves the relay process running (`NetvorVpnService.DestroyKeepsTun2socks`).

## Model

| member | source | states |
|---|---|---|
| VlessLinkParser.Parse | app/src/main/java/com/netvor/parser/VlessLinkParser.kt:21-49 | A parsed link starts with `vless://`, its host is an IPv4 address or a host name of well-formed labels, and its port is in 1..`Integer.MAX_VALUE`; "Missing host" is never the failure |
| VlessLinkParser.FromUri | app/src/main/java/com/netvor/parser/VlessLinkParser.kt:23-48 | After `URI(link)`: a result needs the scheme `vless`, a user information and a host (the address); the port is the URI's when positive, else 443; "Missing host" only when there is user information and no host |
| VlessLinkParser.ParseUri | app/src/main/java/com/netvor/parser/VlessLinkParser.kt:22 | `URI(link)` fails only with a syntax error; a parsed host is valid; no host means no user information; user information implies the link starts with `scheme://` |
| VlessLinkParser.ParseAbsolute | app/src/main/java/com/netvor/parser/VlessLinkParser.kt:22 | `scheme:rest` keeps the scheme, and only a hierarchical part starting with `//` can carry user information |
| VlessLinkParser.ParseHierarchical | app/src/main/java/com/netvor/parser/VlessLinkParser.kt:22 | The hierarchical part yields the raw query of the text, a valid host when there is one, and user information only under `//` |
| VlessLinkParser.ParseAuthority | app/src/main/java/com/netvor/parser/VlessLinkParser.kt:24-26 | A server-based authority has an IPv4 address or a well-formed host name as its host, a port in -1..`Integer.MAX_VALUE`, and the text before the first `@` as its user information |
| VlessLinkParser.ParseHostPort | app/src/main/java/com/netvor/parser/VlessLinkParser.kt:25-26 | `host[:port]` keeps the user information it was given, and yields an IPv4 address or a well-formed host name and a bounded port |
| VlessLinkParser.ServerOf | app/src/main/java/com/netvor/parser/VlessLinkParser.kt:25-26 | A host and a port text make a server authority only when the host is an IPv4 address or a well-formed host name and the port is bounded |
| VlessLinkParser.RawQuery | app/src/main/java/com/netvor/parser/VlessLinkParser.kt:27 | The raw query is a proper part of the text |
| VlessLinkParser.SchemePrefix | app/src/main/java/com/netvor/parser/VlessLinkParser.kt:22-23 | A link whose part after `scheme:` starts with `//` starts with `scheme://` |
| VlessLinkParser.AbsoluteLink | app/src/main/java/com/netvor/parser/VlessLinkParser.kt:22-23 | A link `scheme:rest` with a valid scheme is split right after the scheme |
| VlessLinkParser.WrongSchemeFails | app/src/main/java/com/netvor/parser/VlessLinkParser.kt:23 | Any other valid scheme, `VLESS` included, fails with "Invalid scheme" unless `URI` refuses the link first |
| VlessLinkParser.HierarchicalAuthority | app/src/main/java/com/netvor/parser/VlessLinkParser.kt:22-26 | `//authority` followed by a path, query or fragment is read through the authority parser: a registry authority gives no user information and no host, and a server authority gives its decoded user information, host and port |
| VlessLinkParser.NoUserInfoFails | app/src/main/java/com/netvor/parser/VlessLinkParser.kt:24 | A link whose authority has no `@` fails |
| VlessLinkParser.EmptyHostFails | app/src/main/java/com/netvor/parser/VlessLinkParser.kt:24-25 | A link whose host is empty fails with "Missing UUID", or earlier as a malformed URI |
| VlessLinkParser.EmptyHostAuthority | app/src/main/java/com/netvor/parser/VlessLinkParser.kt:25 | An authority with an empty host is not server-based |
| VlessLinkParser.RegistryLinkFails | app/src/main/java/com/netvor/parser/VlessLinkParser.kt:24 | A link whose authority is registry-based fails with "Missing UUID", or earlier as a malformed URI |
| VlessLinkParser.InvalidHostAuthority | app/src/main/java/com/netvor/parser/VlessLinkParser.kt:25 | An authority whose host is neither an IPv4 address nor a host name is registry-based, with or without a port |
| VlessLinkParser.InvalidHostPort | app/src/main/java/com/netvor/parser/VlessLinkParser.kt:25 | `host[:port]` with such a host is not server-based |
| VlessLinkParser.InvalidHostFails | app/src/main/java/com/netvor/parser/VlessLinkParser.kt:24-25 | A link whose host is neither an IPv4 address nor a host name fails with "Missing UUID", or earlier as a malformed URI |
| VlessLinkParser.HostTextChars | app/src/main/java/com/netvor/parser/VlessLinkParser.kt:25 | Host characters include none of `@`, `:`, `/`, `?`, `#` and `%` |
| VlessLinkParser.LeadingDashRefused | app/src/main/java/com/netvor/parser/VlessLinkParser.kt:25 | A host starting with `-` is refused |
| VlessLinkParser.DashStartedPiece | app/src/main/java/com/netvor/parser/VlessLinkParser.kt:25 | A piece that is empty or starts with `-` is neither a label nor an IPv4 byte |
| VlessLinkParser.TrailingDashRefused | app/src/main/java/com/netvor/parser/VlessLinkParser.kt:25 | A host ending with `-` is refused |
| VlessLinkParser.DashEndedPiece | app/src/main/java/com/netvor/parser/VlessLinkParser.kt:25 | A piece that is empty or ends with `-` is neither a label nor an IPv4 byte |
| VlessLinkParser.DoubleDotSplit | app/src/main/java/com/netvor/parser/VlessLinkParser.kt:25 | Two dots in a row leave an empty piece right after the pieces before them |
| VlessLinkParser.TrailingDotSplit | app/src/main/java/com/netvor/parser/VlessLinkParser.kt:25 | A final dot leaves an empty last piece |
| VlessLinkParser.EmptyLabelRefused | app/src/main/java/com/netvor/parser/VlessLinkParser.kt:25 | A host with two dots in a row is refused, wherever they stand |
| VlessLinkParser.EmptyLabelOfDoubleDot | app/src/main/java/com/netvor/parser/VlessLinkParser.kt:25 | Two dots in a row leave an empty label, also when a trailing dot is dropped |
| VlessLinkParser.NumericLastLabelRefused | app/src/main/java/com/netvor/parser/VlessLinkParser.kt:25 | A dotted host whose last label starts with a digit is accepted only as an IPv4 address |
| VlessLinkParser.LastLabel | app/src/main/java/com/netvor/parser/VlessLinkParser.kt:25 | The dot-free text after the last dot of a host is its last label, and there are at least two |
| VlessLinkParser.LabelAccepted | app/src/main/java/com/netvor/parser/VlessLinkParser.kt:25 | A single well-formed label is an accepted host |
| VlessLinkParser.LabelText | app/src/main/java/com/netvor/parser/VlessLinkParser.kt:25 | A label has host characters and no dot |
| VlessLinkParser.LabelsAppend | app/src/main/java/com/netvor/parser/VlessLinkParser.kt:25 | Well-formed labels stay well-formed when one more is appended |
| VlessLinkParser.AppendLabelAccepted | app/src/main/java/com/netvor/parser/VlessLinkParser.kt:25 | An accepted host name takes one more label starting with a letter |
| VlessLinkParser.AppendLabelName | app/src/main/java/com/netvor/parser/VlessLinkParser.kt:25 | The labels of the longer name are the old labels plus the new one |
| VlessLinkParser.HostTextDot | app/src/main/java/com/netvor/parser/VlessLinkParser.kt:25 | Host text joined by a dot is host text |
| VlessLinkParser.TrailingDotAccepted | app/src/main/java/com/netvor/parser/VlessLinkParser.kt:25 | An accepted host name may end with one dot |
| VlessLinkParser.TrailingDotLabels | app/src/main/java/com/netvor/parser/VlessLinkParser.kt:25 | One trailing dot does not change the labels of a name |
| VlessLinkParser.ByteText | app/src/main/java/com/netvor/parser/VlessLinkParser.kt:25 | An IPv4 byte has host characters and no dot |
| VlessLinkParser.AddressAccepted | app/src/main/java/com/netvor/parser/VlessLinkParser.kt:25 | Four byte values joined by dots are an accepted host |
| VlessLinkParser.AddressParts | app/src/main/java/com/netvor/parser/VlessLinkParser.kt:25 | Four dot-free parts joined by dots split back into those parts |
| VlessLinkParser.SchemeIsValid | app/src/main/java/com/netvor/parser/VlessLinkParser.kt:22 | `vless` is a scheme `java.net.URI` accepts |
| VlessLinkParser.DecodeQuery | app/src/main/java/com/netvor/parser/VlessLinkParser.kt:62 | `decode` fails only with an illegal-escape error |
| VlessLinkParser.QueryPairs | app/src/main/java/com/netvor/parser/VlessLinkParser.kt:53-58 | The `mapNotNull` over the pieces fails only with an illegal escape |
| VlessLinkParser.QueryPairsSplitAtFirstEquals | app/src/main/java/com/netvor/parser/VlessLinkParser.kt:54-58 | A piece is split at its first `=`: the key is the decoded text before it, and the value is the decoded rest, later `=` included |
| VlessLinkParser.QueryPairsDropsKeyless | app/src/main/java/com/netvor/parser/VlessLinkParser.kt:54-55 | A piece without `=`, or with `=` first, contributes nothing |
| VlessLinkParser.QueryPairsConcat | app/src/main/java/com/netvor/parser/VlessLinkParser.kt:53-58 | The pieces are read in order, and the first malformed escape decides the failure |
| VlessLinkParser.ToMap | app/src/main/java/com/netvor/parser/VlessLinkParser.kt:59 | The map holds exactly the keys that occur, each with the value of its last occurrence |
| VlessLinkParser.LastWinsCons | app/src/main/java/com/netvor/parser/VlessLinkParser.kt:59 | Adding a pair in front keeps the last-wins property when that pair is kept only if its key is new |
| VlessLinkParser.KeysCons | app/src/main/java/com/netvor/parser/VlessLinkParser.kt:59 | The keys of the map after one step are the keys of the pairs |
| VlessLinkParser.ValuesCons | app/src/main/java/com/netvor/parser/VlessLinkParser.kt:59 | After one step, each key maps to its last value |
| VlessLinkParser.ParseQuery | app/src/main/java/com/netvor/parser/VlessLinkParser.kt:51-60 | The empty query is the empty map; otherwise the result succeeds exactly when the pieces decode, and it is the last-wins map of the decoded pairs |
| VlessLinkParser.FilterNonBlank | app/src/main/java/com/netvor/parser/VlessLinkParser.kt:33-34 | Every kept piece is non-blank, the kept pieces are a subsequence of the input, and nothing is dropped when no piece is blank |
| VlessLinkParser.FilterNonBlankMembers | app/src/main/java/com/netvor/parser/VlessLinkParser.kt:33-34 | A piece is kept exactly when it is one of the input pieces and is not blank |
| VlessLinkParser.CommaListItems | app/src/main/java/com/netvor/parser/VlessLinkParser.kt:33-34 | A comma list holds exactly the non-blank, comma-free items of the value, in their order |
| VlessLinkParser.DecodePath | app/src/main/java/com/netvor/parser/VlessLinkParser.kt:32 | The second decoding of the path fails only with an illegal escape |
| VlessLinkParser.BuildConfig | app/src/main/java/com/netvor/parser/VlessLinkParser.kt:28-48 | The record carries the given host, port and UUID; only the path's decoding can fail |
| VlessLinkParser.UnrecognisedKeysIgnored | app/src/main/java/com/netvor/parser/VlessLinkParser.kt:27-47 | The record depends only on the eight recognised keys |
| UrlDecoder.HexValue | app/src/main/java/com/netvor/parser/VlessLinkParser.kt:62 | A hexadecimal digit has a value below 16 |
| UrlDecoder.EscapeValue | app/src/main/java/com/netvor/parser/VlessLinkParser.kt:62 | The two characters after `%` give a byte, which for two hexadecimal digits is their value |
| UrlDecoder.Decode | app/src/main/java/com/netvor/parser/VlessLinkParser.kt:62 | Decoding never lengthens the text |
| UrlDecoder.NoPercentWellFormed | app/src/main/java/com/netvor/parser/VlessLinkParser.kt:62 | Text without `%` has no malformed escape |
| UrlDecoder.WellFormedConcat | app/src/main/java/com/netvor/parser/VlessLinkParser.kt:62 | Well-formed texts joined stay well-formed |
| UrlDecoder.WellFormedDecodes | app/src/main/java/com/netvor/parser/VlessLinkParser.kt:62 | A component `URI` accepted always decodes |
| UrlDecoder.DecodePlain | app/src/main/java/com/netvor/parser/VlessLinkParser.kt:62 | Text without `%`, and without `+` when `+` means space, decodes to itself |
| UrlDecoder.HexDigit | app/src/main/java/com/netvor/parser/VlessLinkParser.kt:62 | The digit written for a value reads back as that value |
| UrlDecoder.EscapeOutputNotDelimiter | app/src/main/java/com/netvor/parser/VlessLinkParser.kt:53-54 | A character the escaper writes is no share-link delimiter |
| UrlDecoder.EscapeCharAvoidsDelimiters | app/src/main/java/com/netvor/parser/VlessLinkParser.kt:53-54 | An escaped character holds no delimiter and is well-formed |
| UrlDecoder.EscapeAvoidsDelimiters | app/src/main/java/com/netvor/parser/VlessLinkParser.kt:53-54 | Escaped text holds no delimiter and is well-formed |
| UrlDecoder.DecodeEscape | app/src/main/java/com/netvor/parser/VlessLinkParser.kt:62 | Decoding undoes escaping, whether or not `+` means space |
| UrlDecoder.DecodeEscapeChar | app/src/main/java/com/netvor/parser/VlessLinkParser.kt:62 | One escaped character decodes back to itself in front of any rest |
| VlessLinkFormat.ParseFormatLink | app/src/main/java/com/netvor/parser/VlessLinkParser.kt:21-49 | Round trip: a link written for a record with a valid host, an in-range port and clean lists parses back to exactly that record |
| VlessLinkFormat.FormatLink | app/src/main/java/com/netvor/parser/VlessLinkParser.kt:23 | A written link starts with `vless://` |
| VlessLinkFormat.ParseUriOfFormat | app/src/main/java/com/netvor/parser/VlessLinkParser.kt:22-27 | `URI` splits a written link into its scheme, escaped user information, host, port and query |
| VlessLinkFormat.RawQueryOfFormat | app/src/main/java/com/netvor/parser/VlessLinkParser.kt:27 | The raw query of a written link is its query text |
| VlessLinkFormat.LinkWellFormed | app/src/main/java/com/netvor/parser/VlessLinkParser.kt:22 | A written link has no malformed escape |
| VlessLinkFormat.QueryChars | app/src/main/java/com/netvor/parser/VlessLinkParser.kt:27 | The query suffix is empty or starts with `?`, holds no `#` and is well-formed |
| VlessLinkFormat.AuthorityChars | app/src/main/java/com/netvor/parser/VlessLinkParser.kt:24-26 | A written authority is non-empty, well-formed and free of `/`, `?` and `#` |
| VlessLinkFormat.AuthorityOfFormat | app/src/main/java/com/netvor/parser/VlessLinkParser.kt:24-26 | A written authority reads back as its user information, host and port |
| VlessLinkParser.AuthoritySplit | app/src/main/java/com/netvor/parser/VlessLinkParser.kt:24 | The user information is the text before the first `@` |
| VlessLinkFormat.HostPortOfFormat | app/src/main/java/com/netvor/parser/VlessLinkParser.kt:25-26 | `host[:port]` reads back as the host and the written port |
| VlessLinkFormat.HostChars | app/src/main/java/com/netvor/parser/VlessLinkParser.kt:25 | An accepted host holds none of the authority's delimiters |
| VlessLinkFormat.PortChars | app/src/main/java/com/netvor/parser/VlessLinkParser.kt:26 | The port suffix holds none of the authority's delimiters |
| VlessLinkFormat.QueryOfFields | app/src/main/java/com/netvor/parser/VlessLinkParser.kt:51-60 | The written query parses to the map of its fields |
| VlessLinkFormat.BuildFromFields | app/src/main/java/com/netvor/parser/VlessLinkParser.kt:28-48 | That map builds back the original record |
| VlessLinkFormat.PlainLookups | app/src/main/java/com/netvor/parser/VlessLinkParser.kt:28-35 | `type`, `security`, `headerType`, `host` and `fp` are looked up as written, absent when absent |
| VlessLinkFormat.EncodedLookups | app/src/main/java/com/netvor/parser/VlessLinkParser.kt:32-34 | `path`, `sni` and `alpn` are looked up in their escaped or joined form |
| VlessLinkFormat.CommaListJoin | app/src/main/java/com/netvor/parser/VlessLinkParser.kt:33-34 | A clean list joined by commas splits and filters back to itself, and absent stays absent |
| VlessLinkFormat.QueryFieldsDistinct | app/src/main/java/com/netvor/parser/VlessLinkParser.kt:28-35 | The eight keys are distinct |
| VlessLinkFormat.QueryFieldsKeys | app/src/main/java/com/netvor/parser/VlessLinkParser.kt:28-35 | The eight keys can be written unescaped |
| VlessLinkFormat.LookupPresent | app/src/main/java/com/netvor/parser/VlessLinkParser.kt:59 | With distinct keys, each key maps to its field's value, and is absent when the field is |
| VlessLinkFormat.PresentMap | app/src/main/java/com/netvor/parser/VlessLinkParser.kt:59 | The map of the pairs, built one field at a time |
| VlessLinkFormat.DistinctTail | app/src/main/java/com/netvor/parser/VlessLinkParser.kt:59 | Distinct keys stay distinct in the tail |
| VlessLinkFormat.AbsentKey | app/src/main/java/com/netvor/parser/VlessLinkParser.kt:59 | A key no field has appears in no pair |
| VlessLinkFormat.PiecesDecode | app/src/main/java/com/netvor/parser/VlessLinkParser.kt:53-58 | The written pieces decode to the fields' pairs, in order |
| VlessLinkFormat.PiecesAreGood | app/src/main/java/com/netvor/parser/VlessLinkParser.kt:53-54 | Each written piece is non-empty, free of `&` and `#`, and well-formed |
| VlessLinkFormat.PieceIsGood | app/src/main/java/com/netvor/parser/VlessLinkParser.kt:53-54 | `key=escaped value` is a good piece |
| VlessLinkFormat.JoinIsGood | app/src/main/java/com/netvor/parser/VlessLinkParser.kt:53 | Good pieces joined by `&` are well-formed and free of `#` |
| VlessLinkFormat.NotIn | app/src/main/java/com/netvor/parser/VlessLinkParser.kt:54 | A text free of a set of characters is free of each of them |
| Text.IndexOf | app/src/main/java/com/netvor/parser/VlessLinkParser.kt:54 | `indexOf(c)` is the first index of `c`, or -1 exactly when `c` is absent |
| Text.IndexOfAfter | app/src/main/java/com/netvor/parser/VlessLinkParser.kt:54 | The index of `c` in `a + b` when `a` lacks it |
| Text.IndexOfFirst | app/src/main/java/com/netvor/parser/VlessLinkParser.kt:54 | A character `a` lacks is found right after `a` |
| Text.Split | app/src/main/java/com/netvor/parser/VlessLinkParser.kt:53 | `split(sep)` gives at least one separator-free piece, and the pieces join back to the text |
| Text.SplitJoin | app/src/main/java/com/netvor/parser/VlessLinkParser.kt:53 | Splitting undoes joining of separator-free parts |
| Text.SplitCons | app/src/main/java/com/netvor/parser/VlessLinkParser.kt:53 | A first piece without the separator is split off at the first separator |
| Text.SplitWhole | app/src/main/java/com/netvor/parser/VlessLinkParser.kt:53 | A text without the separator splits into itself |
| Text.JoinAppend | app/src/main/java/com/netvor/parser/VlessLinkParser.kt:53 | Joining two lists of parts puts one separator between their joins |
| Text.SplitAround | app/src/main/java/com/netvor/parser/VlessLinkParser.kt:53 | A separator splits the text into the pieces before it and the pieces after it |
| Text.FreeOfAppend | app/src/main/java/com/netvor/parser/VlessLinkParser.kt:53 | Parts free of a character stay free of it when two lists are appended |
| Text.SplitFirstPrefix | app/src/main/java/com/netvor/parser/VlessLinkParser.kt:53 | The first piece is a prefix of the text |
| Text.SplitLastPiece | app/src/main/java/com/netvor/parser/VlessLinkParser.kt:53 | The last piece is the text after the last separator |
| Text.SplitThree | app/src/main/java/com/netvor/ui/HomeTabs.kt:132 | Three separator-free fields joined split back into them |
| Text.JoinContains | app/src/main/java/com/netvor/config/ConfigRepository.kt:13-25 | Text in one part occurs in the joined text |
| Text.FirstOf | app/src/main/java/com/netvor/parser/VlessLinkParser.kt:22 | The first index of a stop character, or the length when there is none |
| Text.FirstOfIs | app/src/main/java/com/netvor/parser/VlessLinkParser.kt:22 | The first stop character determines `FirstOf` |
| Text.NoneOfConcat | app/src/main/java/com/netvor/parser/VlessLinkParser.kt:22 | Texts free of some characters stay free of them when joined |
| Text.LastIndexOf | Netvor/app/src/main/java/com/netvor/xray/XrayManager.kt:56 | The last index of `c`, or -1; no later `c` |
| Text.SubstringAfterLast | Netvor/app/src/main/java/com/netvor/xray/XrayManager.kt:56 | `substringAfterLast(c)` is a `c`-free suffix: all of the text without a `c`, else the text after the last `c` |
| Text.SubstringAfterLastConcat | Netvor/app/src/main/java/com/netvor/xray/XrayManager.kt:56 | The text after the last separator is the part after it |
| Text.Contains | app/src/main/java/com/netvor/config/ConfigRepository.kt:13-25 | `contains` holds exactly when the text occurs at some index |
| Text.OccursInTail | Netvor/app/src/main/java/com/netvor/xray/AbiResolver.kt:15-17 | An occurrence away from index 0 is one in the tail |
| Text.ContainsMiddle | app/src/main/java/com/netvor/config/ConfigRepository.kt:13-25 | A text contains its middle part |
| Text.ContainsSelf | app/src/main/java/com/netvor/config/ConfigRepository.kt:13-25 | A text contains itself |
| Text.ContainsPrefix | app/src/main/java/com/netvor/config/ConfigRepository.kt:13-25 | Appending keeps an occurrence |
| Text.ContainsSuffix | app/src/main/java/com/netvor/config/ConfigRepository.kt:13-25 | Prepending keeps an occurrence |
| Text.Lower | Netvor/app/src/main/java/com/netvor/xray/AbiResolver.kt:15-17 | Lower-casing keeps the length and lowers each ASCII letter, leaving every other character as it is |
| Text.DigitChar | app/src/main/java/com/netvor/ui/HomeTabs.kt:132 | The character written for a digit has that digit's value |
| Text.NatToString | app/src/main/java/com/netvor/ui/HomeTabs.kt:132 | A number is written as digits, without a leading zero |
| Text.DigitsValueNatToString | app/src/main/java/com/netvor/ui/HomeTabs.kt:132 | A written number reads back as that number |
| Text.DigitsValueLeadingZero | app/src/main/java/com/netvor/ui/HomeTabs.kt:132 | A leading zero does not change the value |
| JvmInt.ToLong | app/src/main/java/com/netvor/vpn/NetvorVpnService.kt:105-106 | `Long` wrap-around: the only `Long` congruent to the value modulo 2^64 |
| JvmInt.ToInt | app/src/main/java/com/netvor/ui/HomeTabs.kt:128 | `toInt()`: the only `Int` congruent to the value modulo 2^32 |
| JvmInt.Quot | app/src/main/java/com/netvor/ui/HomeTabs.kt:128-131 | Kotlin's `/` rounds toward zero |
| JvmInt.Rem | app/src/main/java/com/netvor/ui/HomeTabs.kt:130-131 | Kotlin's `%` puts the value back together with `/` and takes the dividend's sign |
| JvmInt.AtLeast | app/src/main/java/com/netvor/vpn/NetvorVpnService.kt:76-77 | `coerceAtLeast`: the value or the bound, never below either |
| JvmInt.QuotRemNegate | app/src/main/java/com/netvor/ui/HomeTabs.kt:129-131 | `/` and `%` of a negative number are those of its opposite, negated |
| Bus.AppBus.constructor | app/src/main/java/com/netvor/bus/AppBus.kt:10-24 | The initial status is (false, 0, 0, 0) and the replay cache is empty |
| Bus.AppBus.UpdateStatus | app/src/main/java/com/netvor/bus/AppBus.kt:27-29 | The status becomes exactly the argument, and the log cache is unchanged |
| Bus.AppBus.EmitLog | app/src/main/java/com/netvor/bus/AppBus.kt:10-15 | The line is taken or dropped, nothing is thrown, the status is unchanged, and the cache stays the last 100 accepted lines in order |
| Windows.LastN | app/src/main/java/com/netvor/bus/AppBus.kt:10 | The window is the last `n` elements, or all of them when fewer |
| Windows.Push | app/src/main/java/com/netvor/ui/HomeTabs.kt:64 | Appending to a full window drops the oldest element; the newest is last |
| Windows.PushLastN | app/src/main/java/com/netvor/ui/HomeTabs.kt:64 | Pushing onto the window of a stream gives the window of the longer stream |
| Windows.FillIsLastN | app/src/main/java/com/netvor/bus/AppBus.kt:10 | Pushing a stream one element at a time keeps exactly its last `cap` elements, in order |
| Windows.InitLast | app/src/main/java/com/netvor/bus/AppBus.kt:10 | A non-empty sequence is its front followed by its last element |
| ConfigRepository.ConfigFile | app/src/main/java/com/netvor/config/ConfigRepository.kt:8-11 | `config.json` is not the config directory itself |
| ConfigRepository.ExistingConfigKept | app/src/main/java/com/netvor/config/ConfigRepository.kt:12 | An existing `config.json` is never rewritten and is returned |
| ConfigRepository.MissingConfigWritten | app/src/main/java/com/netvor/config/ConfigRepository.kt:13-25 | A missing `config.json` gets the default text when its directory can be made, and a write error leaves the store unchanged; nothing else changes |
| ConfigRepository.ReturnsConfigFile | app/src/main/java/com/netvor/config/ConfigRepository.kt:8-27 | The result is `filesDir/config/config.json` whether or not it was written |
| ConfigRepository.WriteDefaultIdempotent | app/src/main/java/com/netvor/config/ConfigRepository.kt:10-28 | Calling twice leaves the store and the answer of calling once |
| ConfigRepository.DefaultConfigLinesBack | app/src/main/java/com/netvor/config/ConfigRepository.kt:14-24 | The default text splits back into its trimmed lines |
| ConfigRepository.LineHasNoNewline | app/src/main/java/com/netvor/config/ConfigRepository.kt:14-24 | No line of the default text holds a newline |
| ConfigRepository.InboundEntryOneLine | app/src/main/java/com/netvor/config/ConfigRepository.kt:18 | The inbound entry is one line |
| ConfigRepository.DefaultInbound | app/src/main/java/com/netvor/config/ConfigRepository.kt:18 | The default inbound listens on `127.0.0.1`, port 10808, with protocol socks |
| ConfigRepository.ListenInEntry | app/src/main/java/com/netvor/config/ConfigRepository.kt:18 | The inbound entry holds the listen field |
| ConfigRepository.PortInEntry | app/src/main/java/com/netvor/config/ConfigRepository.kt:18 | The inbound entry holds the port field |
| ConfigRepository.SocksInEntry | app/src/main/java/com/netvor/config/ConfigRepository.kt:18 | The inbound entry holds the socks protocol field |
| ConfigRepository.AppendedStillContains | app/src/main/java/com/netvor/config/ConfigRepository.kt:18 | What the entry's start holds, the entry holds |
| ConfigRepository.AfterPortStillContains | app/src/main/java/com/netvor/config/ConfigRepository.kt:18 | What the entry up to its port holds, the entry holds |
| ConfigRepository.InboundLine | app/src/main/java/com/netvor/config/ConfigRepository.kt:18 | What the inbound entry holds, the default text holds |
| ConfigRepository.DefaultLogAndOutbound | app/src/main/java/com/netvor/config/ConfigRepository.kt:16-21 | The log level is `warning` and the outbound protocol is `freedom` |
| ConfigRepository.ConfigRepository.constructor | app/src/main/java/com/netvor/config/ConfigRepository.kt:6 | The repository is bound to the files directory and the store |
| ConfigRepository.ConfigRepository.WriteDefaultConfigIfMissing | app/src/main/java/com/netvor/config/ConfigRepository.kt:10-28 | The new store and the result are those of the write-if-missing specification |
| FileSystem.OpenAsset | app/src/main/java/com/netvor/xray/XrayManager.kt:33 | `assets.open` gives the asset's contents exactly when it is packaged, else the missing-asset error |
| FileSystem.AddDir | app/src/main/java/com/netvor/xray/XrayManager.kt:13 | `mkdirs` adds the directory when nothing is there and changes nothing else |
| FileSystem.Store | app/src/main/java/com/netvor/xray/XrayManager.kt:34 | A write succeeds exactly when the directory is one and the path is not; it sets the contents and changes nothing else |
| FileSystem.Chmod | app/src/main/java/com/netvor/xray/XrayManager.kt:22 | `setExecutable(true)` sets the bit of a file and changes nothing else |
| FileSystem.AddDirIdempotent | app/src/main/java/com/netvor/xray/XrayManager.kt:13 | `mkdirs` twice is `mkdirs` once |
| FileSystem.ProvideKeepsExisting | app/src/main/java/com/netvor/xray/XrayManager.kt:19 | An existing binary keeps its contents and only becomes executable |
| FileSystem.ProvideCopiesMissing | app/src/main/java/com/netvor/xray/XrayManager.kt:19-22 | A missing binary is copied from its source and made executable |
| FileSystem.ProvideFailure | app/src/main/java/com/netvor/xray/XrayManager.kt:26-36 | A failed copy changes only the directory and propagates its error |
| FileSystem.ProvideIdempotent | app/src/main/java/com/netvor/xray/XrayManager.kt:17-24 | Provisioning twice is provisioning once |
| FileSystem.ProvidedIsExecutable | app/src/main/java/com/netvor/xray/XrayManager.kt:22-23 | After a successful provisioning the path exists and, as a file, is executable |
| FileSystem.FileStore.constructor | app/src/main/java/com/netvor/xray/XrayManager.kt:13 | The store starts with the given files |
| FileSystem.FileStore.MkDirs | app/src/main/java/com/netvor/xray/XrayManager.kt:13 | The store becomes that of `mkdirs` |
| FileSystem.FileStore.Write | app/src/main/java/com/netvor/xray/XrayManager.kt:34 | The store changes as the write specifies, or not at all when the write throws |
| FileSystem.FileStore.SetExecutable | app/src/main/java/com/netvor/xray/XrayManager.kt:22 | The store becomes that of `setExecutable`, which reports whether there was a file |
| FileSystem.FileStore.Provide | app/src/main/java/com/netvor/xray/XrayManager.kt:17-36 | The store and the result are those of provision-if-missing |
| AbiResolver.AbiOfSuffix | Netvor/app/src/main/java/com/netvor/xray/AbiResolver.kt:5-9 | A suffix names the family whose release suffix it is, and nothing else |
| AbiResolver.SuffixesDistinct | Netvor/app/src/main/java/com/netvor/xray/AbiResolver.kt:6-9 | The four release suffixes are pairwise distinct |
| AbiResolver.AnyEntry | Netvor/app/src/main/java/com/netvor/xray/AbiResolver.kt:15-17 | `any` holds exactly when some entry contains one of the needles |
| AbiResolver.OrEmpty | Netvor/app/src/main/java/com/netvor/xray/AbiResolver.kt:13 | An absent list is the empty list |
| AbiResolver.ClassifyCases | Netvor/app/src/main/java/com/netvor/xray/AbiResolver.kt:14-19 | Each family is chosen exactly when its test passes and no earlier test does |
| AbiResolver.Arm64Anywhere | Netvor/app/src/main/java/com/netvor/xray/AbiResolver.kt:15 | An entry containing `arm64` or `aarch64` in any case gives ARM64, wherever it sits |
| AbiResolver.SameEntriesSameResult | Netvor/app/src/main/java/com/netvor/xray/AbiResolver.kt:15-17 | The result depends only on which entries are present |
| AbiResolver.SameEntriesHas | Netvor/app/src/main/java/com/netvor/xray/AbiResolver.kt:15-17 | More entries keep a matching entry |
| AbiResolver.NoEntriesIsX86 | Netvor/app/src/main/java/com/netvor/xray/AbiResolver.kt:13-18 | An empty or absent list gives X86 |
| XrayAssetManager.BinaryFile | app/src/main/java/com/netvor/xray/XrayManager.kt:13-15 | The binary `filesDir/xray/xray` is not its directory |
| XrayAssetManager.AbiOfAsset | app/src/main/java/com/netvor/xray/XrayManager.kt:27-32 | An asset name names the family it is chosen for, and nothing else |
| XrayAssetManager.AssetNamesDistinct | app/src/main/java/com/netvor/xray/XrayManager.kt:27-32 | Each family has its own asset |
| XrayAssetManager.EnsureXrayPresentCases | app/src/main/java/com/netvor/xray/XrayManager.kt:17-36 | The asset is copied only when the binary is missing; a success returns the executable binary; a missing asset throws |
| XrayAssetManager.RunArgsRead | app/src/main/java/com/netvor/xray/XrayManager.kt:40 | The engine is told to `run` with `-c` naming the config file |
| XrayAssetManager.RunXrayStartsProvidedBinary | app/src/main/java/com/netvor/xray/XrayManager.kt:38-44 | Running provisions first, then starts `[bin, run, -c, config]` in the binaries directory with merged error stream |
| XrayAssetManager.XrayManager.constructor | app/src/main/java/com/netvor/xray/XrayManager.kt:11 | The manager is bound to the context and the store |
| XrayAssetManager.XrayManager.EnsureXrayPresent | app/src/main/java/com/netvor/xray/XrayManager.kt:17-24 | The store and the result are those of `ensureXrayPresent` |
| XrayAssetManager.XrayManager.RunXray | app/src/main/java/com/netvor/xray/XrayManager.kt:38-44 | The store and the process are those of `runXray` |
| XrayReleaseManager.ReleaseUrlNamesAbi | Netvor/app/src/main/java/com/netvor/xray/XrayManager.kt:22-28 | The URL's archive name tells its family back, whatever the repository and version |
| XrayReleaseManager.ArchiveNameReadsBack | Netvor/app/src/main/java/com/netvor/xray/XrayManager.kt:27 | The archive name is `Xray-<suffix>.zip` without `/`, and its middle is the family's suffix |
| XrayReleaseManager.ReleaseUrlInjective | Netvor/app/src/main/java/com/netvor/xray/XrayManager.kt:22-28 | Distinct families get distinct URLs |
| XrayReleaseManager.OutputName | Netvor/app/src/main/java/com/netvor/xray/XrayManager.kt:56 | A name ending in `xray` goes to `xray`; otherwise to its text after the last `/`, or the whole name without `/` |
| XrayReleaseManager.ExtractFileStep | Netvor/app/src/main/java/com/netvor/xray/XrayManager.kt:55-59 | A file entry is written after a `mkdirs`, and a failed write ends the loop with its error |
| XrayReleaseManager.FileEntries | Netvor/app/src/main/java/com/netvor/xray/XrayManager.kt:55 | The file entries hold no directory, and are no more than the entries |
| XrayReleaseManager.DirectoriesSkipped | Netvor/app/src/main/java/com/netvor/xray/XrayManager.kt:52-62 | Unpacking is writing the file entries one after another, in archive order: directory entries have no effect |
| XrayReleaseManager.ExtractTouchesOnlyTargets | Netvor/app/src/main/java/com/netvor/xray/XrayManager.kt:52-62 | Unpacking changes only the binaries directory and the output files of the file entries |
| XrayReleaseManager.ExtractLastWins | Netvor/app/src/main/java/com/netvor/xray/XrayManager.kt:52-62 | After a complete unpacking, an output file holds the data of the last file entry written to it |
| XrayReleaseManager.PresentBinaryKept | Netvor/app/src/main/java/com/netvor/xray/XrayManager.kt:30-37 | A binary in place is kept and made executable; nothing is downloaded |
| XrayReleaseManager.MissingReleaseFails | Netvor/app/src/main/java/com/netvor/xray/XrayManager.kt:32-50 | A missing binary without a release on the server throws, after only the directory is made |
| XrayReleaseManager.OutputNotBinary | Netvor/app/src/main/java/com/netvor/xray/XrayManager.kt:56 | An entry whose name does not end in `xray` is written to a file other than the binary |
| XrayReleaseManager.BinaryNotTargeted | Netvor/app/src/main/java/com/netvor/xray/XrayManager.kt:51-63 | A release with no entry ending in `xray` writes nothing to the binary |
| XrayReleaseManager.NoXrayEntryStillReturnsBinary | Netvor/app/src/main/java/com/netvor/xray/XrayManager.kt:30-63 | For any store without the binary and any release with no entry ending in `xray`, a call that completes reports the binary's path, and no binary exists |
| XrayReleaseManager.EmptyReleaseStillReturnsBinary | Netvor/app/src/main/java/com/netvor/xray/XrayManager.kt:30-37 | On an empty store, an archive with no entries completes and reports the binary, which does not exist |
| XrayReleaseManager.ProvidedIsExecutable | Netvor/app/src/main/java/com/netvor/xray/XrayManager.kt:35-36 | A success returns the binary, executable when it is there |
| XrayReleaseManager.RunXrayStartsProvidedBinary | Netvor/app/src/main/java/com/netvor/xray/XrayManager.kt:66-74 | Running provisions first, then starts `[bin, run, -c, config]` in the binaries directory with merged error stream |
| XrayReleaseManager.XrayManager.constructor | Netvor/app/src/main/java/com/netvor/xray/XrayManager.kt:14 | The manager is bound to the context, the build's repository and version, and the store |
| XrayReleaseManager.XrayManager.DownloadAndExtract | Netvor/app/src/main/java/com/netvor/xray/XrayManager.kt:39-64 | The store and the result are those of the download-and-unpack specification |
| XrayReleaseManager.XrayManager.ExtractEntries | Netvor/app/src/main/java/com/netvor/xray/XrayManager.kt:51-63 | The entry loop leaves the store and the result of the unpacking specification |
| XrayReleaseManager.XrayManager.ExtractEntry | Netvor/app/src/main/java/com/netvor/xray/XrayManager.kt:54-61 | One loop turn: a directory entry is skipped, a file entry is written, and a failed write returns its error as the specification does |
| XrayReleaseManager.XrayManager.EnsureXrayPresent | Netvor/app/src/main/java/com/netvor/xray/XrayManager.kt:30-37 | The store and the result are those of `ensureXrayPresent` |
| XrayReleaseManager.XrayManager.RunXray | Netvor/app/src/main/java/com/netvor/xray/XrayManager.kt:66-74 | The store and the process are those of `runXray` |
| Tun2SocksManager.BinFile | app/src/main/java/com/netvor/tun/Tun2SocksManager.kt:14-15 | The binary `codeCacheDir/tun2socks/tun2socks` is not its directory |
| Tun2SocksManager.AssetNameCases | app/src/main/java/com/netvor/tun/Tun2SocksManager.kt:24-32 | Each asset is chosen exactly when its case-sensitive test passes and no earlier test does |
| Tun2SocksManager.NoEntriesIsX86 | app/src/main/java/com/netvor/tun/Tun2SocksManager.kt:25-30 | An empty or absent list gives `tun2socks-x86` |
| Tun2SocksManager.CaseMatters | app/src/main/java/com/netvor/tun/Tun2SocksManager.kt:27 | `ARM64` makes the device ARM64 for the engine but gives the relay's x86 asset |
| Tun2SocksManager.UpperArm64Matches | Netvor/app/src/main/java/com/netvor/xray/AbiResolver.kt:15-17 | `ARM64` matches the ARM64 needles when case is ignored |
| Tun2SocksManager.UpperArm64Misses | app/src/main/java/com/netvor/tun/Tun2SocksManager.kt:27 | `ARM64` matches none of the needles when case counts |
| Tun2SocksManager.EnsurePresentCases | app/src/main/java/com/netvor/tun/Tun2SocksManager.kt:17-38 | The asset is copied only when the binary is missing, and the binary is made executable; a missing asset throws |
| Tun2SocksManager.RunArgsRead | app/src/main/java/com/netvor/tun/Tun2SocksManager.kt:43-49 | Eight arguments: the binary, then the descriptor, an MTU of 1500 and the SOCKS endpoint after their flags, and UDP relaying on |
| Tun2SocksManager.RunStartsProvidedBinary | app/src/main/java/com/netvor/tun/Tun2SocksManager.kt:40-53 | Running provisions first, then starts the binary in its directory with merged error stream |
| Tun2SocksManager.Tun2SocksManager.constructor | app/src/main/java/com/netvor/tun/Tun2SocksManager.kt:12 | The manager is bound to the context and the store |
| Tun2SocksManager.Tun2SocksManager.EnsurePresent | app/src/main/java/com/netvor/tun/Tun2SocksManager.kt:17-22 | The store and the result are those of `ensurePresent` |
| Tun2SocksManager.Tun2SocksManager.Run | app/src/main/java/com/netvor/tun/Tun2SocksManager.kt:40-53 | The store and the process are those of `run` |
| Processes.FlagFrom | app/src/main/java/com/netvor/tun/Tun2SocksManager.kt:43-49 | A flag's value is the argument after its first occurrence, present exactly when the flag occurs with an argument after it |
| Processes.NumberIsNotFlag | app/src/main/java/com/netvor/tun/Tun2SocksManager.kt:45 | A written number is never read as a flag |
| NetvorVpnService.StopReleasesEverything | app/src/main/java/com/netvor/vpn/NetvorVpnService.kt:123-137 | After a stop the three handles are null and the status is (false, 0, 0, 0); every handle held is destroyed or closed; the service stops itself last |
| NetvorVpnService.StopIdempotent | app/src/main/java/com/netvor/vpn/NetvorVpnService.kt:123-137 | A second stop releases nothing more |
| NetvorVpnService.SetupTunCases | app/src/main/java/com/netvor/vpn/NetvorVpnService.kt:112-121 | With an interface, nothing happens; otherwise `establish()` sets it, leaves it null, or throws; nothing else changes |
| NetvorVpnService.SetupTunIdempotent | app/src/main/java/com/netvor/vpn/NetvorVpnService.kt:113 | Once an interface is held, a second setup keeps it without building another |
| NetvorVpnService.XrayStepFrame | app/src/main/java/com/netvor/vpn/NetvorVpnService.kt:71 | The xray step changes only the storage, the xray handle and the trace, and starts `run -c` on the config |
| NetvorVpnService.Tun2socksStepFrame | app/src/main/java/com/netvor/vpn/NetvorVpnService.kt:73-74 | The relay step changes only the storage, the relay handle and the trace, and points the relay at the descriptor and `127.0.0.1:10808` |
| NetvorVpnService.LaunchFrame | app/src/main/java/com/netvor/vpn/NetvorVpnService.kt:70-75 | The launch block changes only the storage, the process handles and the trace, and does nothing without an interface |
| NetvorVpnService.LaunchStarts | app/src/main/java/com/netvor/vpn/NetvorVpnService.kt:70-75 | A completed launch starts exactly xray and then the relay, with their command lines |
| NetvorVpnService.ProvisionReturnsConfig | app/src/main/java/com/netvor/vpn/NetvorVpnService.kt:67-68 | Provisioning returns the config file, and fails exactly when the config write or the engine provisioning throws |
| NetvorVpnService.StartFrame | app/src/main/java/com/netvor/vpn/NetvorVpnService.kt:66-80 | A start that throws keeps the baselines, time and status; one that completes sets the clamped baselines, the start time and (true, start, 0, 0) |
| NetvorVpnService.ActionDispatch | app/src/main/java/com/netvor/vpn/NetvorVpnService.kt:59-65 | The stop action stops; any other or absent action runs the start sequence |
| NetvorVpnService.StartEndsConnectedOrStopped | app/src/main/java/com/netvor/vpn/NetvorVpnService.kt:66-84 | A start command ends connected with non-negative baselines, or, on any failure, in the stopped state |
| NetvorVpnService.NoInterfaceNoLaunch | app/src/main/java/com/netvor/vpn/NetvorVpnService.kt:70 | Without an interface no process is launched |
| NetvorVpnService.RefusedInterfaceStillConnected | app/src/main/java/com/netvor/vpn/NetvorVpnService.kt:69-79 | When `establish()` returns null the start still publishes a connected status, with no handle held |
| NetvorVpnService.LaunchOrder | app/src/main/java/com/netvor/vpn/NetvorVpnService.kt:67-75 | With an interface, xray is started on the default config before the relay, which gets the descriptor and `127.0.0.1:10808` |
| NetvorVpnService.SocksEndpointsAgree | app/src/main/java/com/netvor/vpn/NetvorVpnService.kt:74 | The relay's endpoint is the default config's SOCKS inbound and the relay's own default |
| NetvorVpnService.Delta | app/src/main/java/com/netvor/vpn/NetvorVpnService.kt:103-106 | A traffic delta is never negative, and is 0 or the `Long` difference of the clamped counter and the baseline |
| NetvorVpnService.DeltaExact | app/src/main/java/com/netvor/vpn/NetvorVpnService.kt:103-106 | For `Long` counters and a clamped baseline, the delta is the true difference, or 0 below the baseline |
| NetvorVpnService.DeltaMonotone | app/src/main/java/com/netvor/vpn/NetvorVpnService.kt:103-106 | A larger counter never gives a smaller delta |
| NetvorVpnService.SampleKeepsSession | app/src/main/java/com/netvor/vpn/NetvorVpnService.kt:103-107 | A sample only rewrites the status: connected, at the session's start time, with non-negative counts |
| NetvorVpnService.SampleAtStartIsZero | app/src/main/java/com/netvor/vpn/NetvorVpnService.kt:103-107 | Sampled with the counters the start read, a fresh session shows no traffic |
| NetvorVpnService.CommandsKeepBaselines | app/src/main/java/com/netvor/vpn/NetvorVpnService.kt:76-77 | The baselines stay within 0..`Long.MAX_VALUE` through every command |
| NetvorVpnService.DestroyKeepsTun2socks | app/src/main/java/com/netvor/vpn/NetvorVpnService.kt:162-168 | `onDestroy` closes and clears the interface and xray and publishes (false, 0, 0, 0); the relay handle is untouched and not destroyed |
| NetvorVpnService.DestroyAfterStartLeavesTun2socks | app/src/main/java/com/netvor/vpn/NetvorVpnService.kt:162-168 | After a launched start, `onDestroy` leaves the relay running where `stopVpn` destroys it |
| NetvorVpnService.NetvorVpnService.constructor | app/src/main/java/com/netvor/vpn/NetvorVpnService.kt:31-56 | No handles, zero baselines, empty trace, and managers on the service's context |
| NetvorVpnService.NetvorVpnService.StopVpn | app/src/main/java/com/netvor/vpn/NetvorVpnService.kt:123-138 | The new state is the stop specification of the old |
| NetvorVpnService.NetvorVpnService.SetupTun | app/src/main/java/com/netvor/vpn/NetvorVpnService.kt:112-121 | The new state and whether it threw follow the setup specification |
| NetvorVpnService.NetvorVpnService.StartSession | app/src/main/java/com/netvor/vpn/NetvorVpnService.kt:66-80 | The new state and whether it threw follow the start specification |
| NetvorVpnService.NetvorVpnService.Connect | app/src/main/java/com/netvor/vpn/NetvorVpnService.kt:76-79 | The byte baselines are the clamped counters, the start time is the clock, and the bus shows connected with zero rates |
| NetvorVpnService.NetvorVpnService.Provision | app/src/main/java/com/netvor/vpn/NetvorVpnService.kt:67-68 | The store and the config path follow the provisioning specification |
| NetvorVpnService.NetvorVpnService.LaunchProcesses | app/src/main/java/com/netvor/vpn/NetvorVpnService.kt:70-75 | The new state follows the launch specification |
| NetvorVpnService.NetvorVpnService.StartXray | app/src/main/java/com/netvor/vpn/NetvorVpnService.kt:71 | The new state follows the xray step |
| NetvorVpnService.NetvorVpnService.StartTun2socks | app/src/main/java/com/netvor/vpn/NetvorVpnService.kt:73-74 | The new state follows the relay step |
| NetvorVpnService.NetvorVpnService.OnStartCommand | app/src/main/java/com/netvor/vpn/NetvorVpnService.kt:58-89 | The new state follows the command specification, and the result is `START_NOT_STICKY` on both paths |
| NetvorVpnService.NetvorVpnService.SampleStats | app/src/main/java/com/netvor/vpn/NetvorVpnService.kt:103-107 | The new state follows one sample |
| NetvorVpnService.NetvorVpnService.OnDestroy | app/src/main/java/com/netvor/vpn/NetvorVpnService.kt:162-170 | The new state follows the destroy specification |
| HomeTabs.ElapsedSeconds | app/src/main/java/com/netvor/ui/HomeTabs.kt:128 | The elapsed seconds are an `Int` |
| HomeTabs.ElapsedExact | app/src/main/java/com/netvor/ui/HomeTabs.kt:128 | For a positive start and a later clock less than 2^31 seconds on, the true whole seconds elapsed |
| HomeTabs.Pad2 | app/src/main/java/com/netvor/ui/HomeTabs.kt:132 | `%02d` writes at least two characters, and exactly two for 0..99 |
| HomeTabs.PadDigits | app/src/main/java/com/netvor/ui/HomeTabs.kt:132 | A padded natural number reads back as that number |
| HomeTabs.UptimeText | app/src/main/java/com/netvor/ui/HomeTabs.kt:126-133 | The text is `0s` exactly when no start time is published, else at least `hh:mm:ss` long |
| HomeTabs.ClockText | app/src/main/java/com/netvor/ui/HomeTabs.kt:132 | The clock text is at least eight characters |
| HomeTabs.ClockParts | app/src/main/java/com/netvor/ui/HomeTabs.kt:129-131 | `h*3600 + m*60 + s` is the seconds; for non-negative seconds minutes and seconds are in 0..59; negative seconds give non-positive fields |
| HomeTabs.ClockOfNatural | app/src/main/java/com/netvor/ui/HomeTabs.kt:129-131 | For non-negative seconds the fields put the seconds back together, with minutes and seconds in 0..59 |
| HomeTabs.ClockOfNegative | app/src/main/java/com/netvor/ui/HomeTabs.kt:129-131 | Negative seconds give its opposite's fields, negated |
| HomeTabs.DivModUnique | app/src/main/java/com/netvor/ui/HomeTabs.kt:129-131 | Quotient and remainder are unique |
| HomeTabs.UptimeReadsBack | app/src/main/java/com/netvor/ui/HomeTabs.kt:126-133 | Reading the uptime text back gives the elapsed seconds, whenever those are not negative |
| HomeTabs.ClockTextReadsBack | app/src/main/java/com/netvor/ui/HomeTabs.kt:132 | Padded natural fields read back as their total seconds |
| HomeTabs.ReadClockFields | app/src/main/java/com/netvor/ui/HomeTabs.kt:132 | Three digit fields joined by `:` read back as hours, minutes and seconds |
| HomeTabs.ReadFieldsOf | app/src/main/java/com/netvor/ui/HomeTabs.kt:132 | Three digit fields read as hours, minutes and seconds |
| HomeTabs.LogsTab.constructor | app/src/main/java/com/netvor/ui/HomeTabs.kt:62 | The list starts empty |
| HomeTabs.LogsTab.Collect | app/src/main/java/com/netvor/ui/HomeTabs.kt:64 | After each line the list is the last 2000 lines received, in arrival order, ending with the newest |
| HomeTabs.ImportTab.constructor | app/src/main/java/com/netvor/ui/HomeTabs.kt:75-76 | The field is empty and the outcome null |
| HomeTabs.ImportTab.OnValueChange | app/src/main/java/com/netvor/ui/HomeTabs.kt:78 | Editing sets the text and resets the outcome to null |
| HomeTabs.ImportTab.OnImportClick | app/src/main/java/com/netvor/ui/HomeTabs.kt:79 | An enabled press, for text starting with `vless://`, records the import's outcome; a disabled one changes nothing |
| HomeTabs.ParsableLinksEnabled | app/src/main/java/com/netvor/ui/HomeTabs.kt:79 | Every link the parser accepts enables the button |
| HomeTabs.EnabledLinkMayFail | app/src/main/java/com/netvor/ui/HomeTabs.kt:79 | The bare prefix `vless://` enables the button and still fails to parse |

## Left out

- The UTF-8 decoding of multi-byte sequences, by `URLDecoder` (`UrlDecoder.Decode`,
  `VlessLinkParser.DecodeQuery`, `VlessLinkParser.DecodePath`) and by `URI.getUserInfo()`
  (`VlessLinkParser.DecodeUserInfo`), is not modelled. Each `%XY` escape becomes the
  character with that code, so escapes of non-ASCII text decode byte by byte.
- UrlDecoder.HexValue: reads only the ASCII hexadecimal digits. `Character.digit(c, 16)`
  also accepts other Unicode digits, such as the fullwidth `０`, which can reach the second
  decoding of `path` through `%25`; the model refuses those escapes as illegal.
- `java.net.URI` is modelled only as far as these links need it: the scheme, the
  server-based authority (or its registry-based fallback), the raw query and the rejection
  of malformed escapes.
  - IPv6 literals, the full character classes of each component, and opaque-URI details
    are left out.
  - Hosts are IPv4 addresses or host names as section 3.2.2 of RFC 2396 and `java.net.URI`
    define them (`VlessLinkParser.ValidHost`).
- Coroutines, `serviceScope`, `readXrayLogs` and `collectLatest` are left out. So are
  `tryEmit`'s behaviour with slow subscribers and any interleaving of the service's tasks.
  A log line is either taken or dropped, decided by an input.
- `updateStatsLoop` is modelled as one sample (`SampleStats`). Its endless repetition, its
  one-second delay, and the fact that it outlives `stopVpn` are not modelled.
- `humanBytes` is left out, because it computes with floating point.
- HomeTabs.Pad2, HomeTabs.ClockText and HomeTabs.UptimeText: the digits are those of a locale that writes Latin digits.
  `"%02d:%02d:%02d".format` uses the default locale, and under the Persian locale the
  interface is written for it writes Persian digits (`۰۱:۰۲:۰۳`); `HomeTabs.UptimeReadsBack`
  is about the Latin-digit text.
- Text.Lower and AbiResolver.Classify: ABI strings are taken to be ASCII. Kotlin's
  `contains(…, ignoreCase = true)` also folds non-ASCII letters (`ı` and `İ` match `i`), so
  an entry such as `armeabı` matches `armeabi` in the app but not in the model.
- The Compose layout, the theme, and both `MainActivity` files are left out. `saveVlessLink`,
  which `MainActivity` calls, is not defined in the shown `ConfigRepository`, so it has no
  model.
- The app tree calls `CpuAbi.detect` from a file that is not part of this model. The
  engine's asset choice uses the `CpuAbi.detect` of the second tree.
- The model does not perform these platform operations:
  - `VpnService.Builder` and `establish`, `TrafficStats`, `System.currentTimeMillis`;
  - `ProcessBuilder.start`, `Process.destroy`, `ParcelFileDescriptor.close`;
  - notifications, `startForeground` and `stopForeground`.

  Their results are inputs, and the calls that act on the device are effects in a trace.
  The `try`/`catch` blocks around `destroy` and `close` in `stopVpn` have no effect in the
  model.
- `onDestroy`: a `close()` that throws is not modelled. The model assumes it returns.
- `Os.chmod` and its `setExecutable` fallback are both modelled as setting the owner-execute
  bit.
- The HTTP download and ZIP decoding are inputs. A release is its bytes plus the entries the
  archive yields. Download timeouts, partial transfers and malformed archives are not
  modelled, except for an absent release, which throws.
- Paths are plain strings joined with `/`. Absolute-path resolution and normalisation
  (`..`, repeated `/`) are not modelled.
- Binary contents are opaque strings, and only the owner-execute permission bit is modelled.
