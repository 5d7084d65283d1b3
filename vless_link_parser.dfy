/** `VlessLinkParser.parse`: a `vless://` share-link to a `VlessConfig` record.

    The link is first split as `java.net.URI` splits a hierarchical URI with a server-based
    authority (section 3.2.2 of RFC 2396): scheme, user information, host, port and raw query.
    The raw query is then read as `&`-separated `key=value` pairs, each side percent-decoded
    (section 2.1 of RFC 3986, with `+` read as a space), and eight keys fill the record. */
module VlessLinkParser {
  import opened Wrappers
  import opened Text
  import opened UrlDecoder
  import opened JvmInt

  const Scheme := "vless"
  const DefaultPort := 443

  datatype VlessConfig = VlessConfig(
    address: string,
    port: int,
    uuid: string,
    network: Option<string>,
    security: Option<string>,
    headerType: Option<string>,
    hostHeader: Option<string>,
    path: Option<string>,
    sniList: Option<seq<string>>,
    alpnList: Option<seq<string>>,
    fingerprint: Option<string>)

  /** Why a link is refused: `URISyntaxException` from `URI(link)`, the three checks of `parse`,
      and the decoder's `IllegalArgumentException`. */
  datatype ParseError = UriSyntax | InvalidScheme | MissingUuid | MissingHost | IllegalEscape(cause: DecodeError)

  // ------------------------------------------------------------------------------------------
  // The split of `java.net.URI`
  // ------------------------------------------------------------------------------------------

  /** What `parse` reads of a `java.net.URI`: `scheme`, `userInfo` (decoded), `host`, `port`
      (-1 when absent) and `rawQuery`. */
  datatype Uri = Uri(scheme: Option<string>, userInfo: Option<string>, host: Option<string>, port: int, rawQuery: Option<string>)

  predicate IsAlpha(c: char) { 'a' <= c <= 'z' || 'A' <= c <= 'Z' }

  predicate ValidScheme(s: string)
  {
    |s| > 0 && IsAlpha(s[0])
    && forall i :: 0 <= i < |s| ==> IsAlpha(s[i]) || IsDigit(s[i]) || s[i] in "+-."
  }

  predicate AlphaNum(c: char) { IsAlpha(c) || IsDigit(c) }

  predicate HostChar(c: char) { AlphaNum(c) || c == '-' || c == '.' }

  /** The characters a host name or an IPv4 address is written with. */
  predicate HostText(h: string)
  {
    |h| > 0 && forall i :: 0 <= i < |h| ==> HostChar(h[i])
  }

  /** A part of an IPv4 address: decimal digits whose value fits a byte. */
  predicate IsIPv4Byte(p: string)
  {
    |p| > 0 && AllDigits(p) && DigitsValue(p) <= 255
  }

  /** Four byte values separated by dots, the whole host. */
  predicate IsIPv4Address(h: string)
  {
    var parts := Split(h, '.');
    |parts| == 4 && forall i :: 0 <= i < 4 ==> IsIPv4Byte(parts[i])
  }

  /** A domain label: a letter or digit, then letters, digits and `-`, ending with a letter or
      digit. */
  predicate ValidLabel(l: string)
  {
    |l| > 0 && AlphaNum(l[0]) && AlphaNum(l[|l| - 1])
    && forall i :: 0 <= i < |l| ==> AlphaNum(l[i]) || l[i] == '-'
  }

  /** The dot-separated labels of a host name, after dropping one trailing dot. */
  function Labels(h: string): seq<string>
  {
    Split(if |h| > 0 && h[|h| - 1] == '.' then h[..|h| - 1] else h, '.')
  }

  /** A host name as `java.net.URI` scans it: labels separated by single dots, an optional
      trailing dot, and a last label that starts with a letter when there are several. */
  predicate IsHostname(h: string)
  {
    var labels := Labels(h);
    (forall i :: 0 <= i < |labels| ==> ValidLabel(labels[i]))
    && (|labels| > 1 ==> IsAlpha(labels[|labels| - 1][0]))
  }

  /** The host of a server-based authority (section 3.2.2 of RFC 2396): an IPv4 address, or
      failing that a host name. */
  predicate ValidHost(h: string)
  {
    HostText(h) && (IsIPv4Address(h) || IsHostname(h))
  }

  /** A server-based authority, or the registry-based fallback that `java.net.URI` takes when
      the text does not parse as `[userinfo@]host[:port]` (then user info and host are null). */
  datatype Authority = Server(userInfo: Option<string>, host: string, port: int) | Registry

  function ParseAuthority(auth: string): (a: Authority)
    ensures a.Server? ==> ValidHost(a.host) && -1 <= a.port <= IntMax
    ensures a.Server? ==> a.userInfo == if '@' in auth then Some(auth[..IndexOf(auth, '@')]) else None
  {
    var at := IndexOf(auth, '@');
    if at < 0 then ParseHostPort(None, auth)
    else
      var a := ParseHostPort(Some(auth[..at]), auth[at + 1..]);
      a
  }

  /** `host[:port]`: the host runs up to the first `:`; an empty port means -1. */
  function ParseHostPort(userInfo: Option<string>, hostPort: string): (a: Authority)
    ensures a.Server? ==> ValidHost(a.host) && -1 <= a.port <= IntMax && a.userInfo == userInfo
  {
    var colon := IndexOf(hostPort, ':');
    if colon < 0 then
      if ValidHost(hostPort) then Server(userInfo, hostPort, -1) else Registry
    else
      ServerOf(userInfo, hostPort[..colon], hostPort[colon + 1..])
  }

  function ServerOf(userInfo: Option<string>, host: string, portText: string): (a: Authority)
    ensures a.Server? ==> ValidHost(a.host) && -1 <= a.port <= IntMax && a.userInfo == userInfo
  {
    if !ValidHost(host) || !AllDigits(portText) then Registry
    else if portText == "" then Server(userInfo, host, -1)
    else if DigitsValue(portText) > IntMax then Registry  // java.net.URI wants the port to fit an int
    else Server(userInfo, host, DigitsValue(portText))
  }

  /** `getUserInfo()` decodes escapes, leaving `+` as it is. */
  function DecodeUserInfo(ui: Option<string>): Result<Option<string>, ParseError>
  {
    match ui
    case None => Success(None)
    case Some(u) =>
      match Decode(u, false)
      case Success(d) => Success(Some(d))
      case Failure(_) => Failure(UriSyntax)
  }

  /** The raw query: the text after the first `?` and before the fragment, if there is a `?`. */
  function RawQuery(t: string): (q: Option<string>)
    ensures q.Some? ==> |q.value| < |t|
  {
    var body := t[..FirstOf(t, "#")];
    var i := IndexOf(body, '?');
    if i >= 0 then Some(body[i + 1..]) else None
  }

  /** The hierarchical part `[//authority][path][?query][#fragment]`. */
  function ParseHierarchical(scheme: Option<string>, t: string): (r: Result<Uri, ParseError>)
    ensures r.Success? ==> r.value.scheme == scheme && r.value.port <= IntMax
    ensures r.Success? && r.value.host.None? ==> r.value.userInfo.None?
    ensures r.Success? && r.value.host.Some? ==> ValidHost(r.value.host.value)
    ensures r.Success? && r.value.userInfo.Some? ==> StartsWith(t, "//")
    ensures r.Success? ==> r.value.rawQuery == RawQuery(t)
    ensures r.Failure? ==> r.error == UriSyntax
  {
    var rawQuery := RawQuery(t);
    if StartsWith(t, "//") then
      var rest := t[2..];
      var end := FirstOf(rest, "/?#");
      if end == 0 then
        if |rest| == 0 then Failure(UriSyntax)
        else Success(Uri(scheme, None, None, -1, rawQuery))
      else
        match ParseAuthority(rest[..end])
        case Registry => Success(Uri(scheme, None, None, -1, rawQuery))
        case Server(ui, host, port) =>
          match DecodeUserInfo(ui)
          case Failure(e) => Failure(e)
          case Success(decoded) => Success(Uri(scheme, decoded, Some(host), port, rawQuery))
    else
      Success(Uri(scheme, None, None, -1, rawQuery))
  }

  /** `URI(link)`: a malformed escape anywhere, an empty or ill-formed scheme, or an empty
      scheme-specific part is a `URISyntaxException`. A scheme is the text before a `:` that
      comes before any of `/`, `?` and `#`; after `scheme:` anything but `/` is an opaque part. */
  function ParseUri(link: string): (r: Result<Uri, ParseError>)
    ensures r.Success? ==> r.value.port <= IntMax
    ensures r.Success? && r.value.host.None? ==> r.value.userInfo.None?
    ensures r.Success? && r.value.host.Some? ==> ValidHost(r.value.host.value)
    ensures r.Success? && r.value.scheme.Some? && r.value.userInfo.Some? ==> StartsWith(link, r.value.scheme.value + "://")
    ensures r.Failure? ==> r.error == UriSyntax
  {
    if !WellFormed(link) then Failure(UriSyntax)
    else
      var k := FirstOf(link, ":/?#");
      if k < |link| && link[k] == ':' then
        var r := ParseAbsolute(link[..k], link[k + 1..]);
        if r.Success? && r.value.userInfo.Some? then
          SchemePrefix(link, k);
          r
        else r
      else
        ParseHierarchical(None, link)
  }

  /** `scheme:` followed by a hierarchical part (starting with `/`) or an opaque part. */
  function ParseAbsolute(scheme: string, ssp: string): (r: Result<Uri, ParseError>)
    ensures r.Success? ==> r.value.scheme == Some(scheme) && r.value.port <= IntMax
    ensures r.Success? && r.value.host.None? ==> r.value.userInfo.None?
    ensures r.Success? && r.value.host.Some? ==> ValidHost(r.value.host.value)
    ensures r.Success? && r.value.userInfo.Some? ==> StartsWith(ssp, "//")
    ensures r.Failure? ==> r.error == UriSyntax
  {
    if !ValidScheme(scheme) then Failure(UriSyntax)
    else if |ssp| > 0 && ssp[0] == '/' then ParseHierarchical(Some(scheme), ssp)
    else if |ssp| == 0 || ssp[0] == '#' then Failure(UriSyntax)
    else Success(Uri(Some(scheme), None, None, -1, None))
  }

  lemma SchemePrefix(link: string, k: nat)
    requires k < |link| && link[k] == ':' && StartsWith(link[k + 1..], "//")
    ensures StartsWith(link, link[..k] + "://")
  {
    assert link[..k + 3] == link[..k] + [link[k]] + link[k + 1..][..2];
  }

  // ------------------------------------------------------------------------------------------
  // parseQuery
  // ------------------------------------------------------------------------------------------

  function DecodeQuery(s: string): (r: Result<string, ParseError>)
    ensures r.Failure? ==> r.error.IllegalEscape?
  {
    match Decode(s, true)
    case Success(d) => Success(d)
    case Failure(e) => Failure(IllegalEscape(e))
  }

  /** The `mapNotNull` of `parseQuery`: a piece without `=`, or with `=` first, is dropped;
      otherwise its key and value, split at the first `=`, are decoded. */
  function QueryPairs(parts: seq<string>): (r: Result<seq<(string, string)>, ParseError>)
    ensures r.Failure? ==> r.error.IllegalEscape?
  {
    if |parts| == 0 then Success([])
    else
      var part := parts[0];
      var idx := IndexOf(part, '=');
      if idx <= 0 then QueryPairs(parts[1..])
      else
        var k :- DecodeQuery(part[..idx]);
        var v :- DecodeQuery(part[idx + 1..]);
        var rest :- QueryPairs(parts[1..]);
        Success([(k, v)] + rest)
  }

  /** `m` is what Kotlin's `toMap()` builds from `pairs`: every key that occurs, with the
      value of its last occurrence. */
  ghost predicate LastWins(pairs: seq<(string, string)>, m: map<string, string>)
  {
    && (forall k :: k in m <==> exists i :: 0 <= i < |pairs| && pairs[i].0 == k)
    && (forall i :: 0 <= i < |pairs| && (forall j :: i < j < |pairs| ==> pairs[j].0 != pairs[i].0) ==>
          pairs[i].0 in m && m[pairs[i].0] == pairs[i].1)
  }

  /** Kotlin's `toMap()`: later pairs overwrite earlier ones. */
  function ToMap(pairs: seq<(string, string)>): (m: map<string, string>)
    ensures LastWins(pairs, m)
  {
    if |pairs| == 0 then map[]
    else
      var m := ToMap(pairs[1..]);
      LastWinsCons(pairs, m);
      if pairs[0].0 in m then m else m[pairs[0].0 := pairs[0].1]
  }

  /** One step of `ToMap`: the first pair is kept only when no later pair has its key. */
  lemma LastWinsCons(pairs: seq<(string, string)>, m: map<string, string>)
    requires |pairs| > 0 && LastWins(pairs[1..], m)
    ensures LastWins(pairs, if pairs[0].0 in m then m else m[pairs[0].0 := pairs[0].1])
  {
    KeysCons(pairs, m);
    ValuesCons(pairs, m);
  }

  lemma KeysCons(pairs: seq<(string, string)>, m: map<string, string>)
    requires |pairs| > 0 && LastWins(pairs[1..], m)
    ensures var m' := if pairs[0].0 in m then m else m[pairs[0].0 := pairs[0].1];
            forall k :: k in m' <==> exists i :: 0 <= i < |pairs| && pairs[i].0 == k
  {
    var rest := pairs[1..];
    var m' := if pairs[0].0 in m then m else m[pairs[0].0 := pairs[0].1];
    forall k ensures k in m' <==> exists i :: 0 <= i < |pairs| && pairs[i].0 == k {
      if k in m' && k != pairs[0].0 {
        var i :| 0 <= i < |rest| && rest[i].0 == k;
        assert pairs[i + 1].0 == k;
      }
      if k !in m' {
        forall i | 0 <= i < |pairs| ensures pairs[i].0 != k {
          if i > 0 { assert rest[i - 1] == pairs[i]; }
        }
      }
    }
  }

  lemma ValuesCons(pairs: seq<(string, string)>, m: map<string, string>)
    requires |pairs| > 0 && LastWins(pairs[1..], m)
    ensures var m' := if pairs[0].0 in m then m else m[pairs[0].0 := pairs[0].1];
            forall i :: 0 <= i < |pairs| && (forall j :: i < j < |pairs| ==> pairs[j].0 != pairs[i].0) ==>
              pairs[i].0 in m' && m'[pairs[i].0] == pairs[i].1
  {
    var rest := pairs[1..];
    var m' := if pairs[0].0 in m then m else m[pairs[0].0 := pairs[0].1];
    forall i | 0 <= i < |pairs| && (forall j :: i < j < |pairs| ==> pairs[j].0 != pairs[i].0)
      ensures pairs[i].0 in m' && m'[pairs[i].0] == pairs[i].1
    {
      if i == 0 {
        assert pairs[0].0 !in m by {
          forall j | 0 <= j < |rest| ensures rest[j].0 != pairs[0].0 {
            assert rest[j] == pairs[j + 1];
          }
        }
      } else {
        assert rest[i - 1] == pairs[i];
        forall j | i - 1 < j < |rest| ensures rest[j].0 != rest[i - 1].0 {
          assert rest[j] == pairs[j + 1];
        }
      }
    }
  }

  /** `parseQuery(q)`: the empty query is the empty map; otherwise the map holds every decoded
      key of the `&`-separated pieces, with the value of its last occurrence. */
  function ParseQuery(q: string): (r: Result<map<string, string>, ParseError>)
    ensures r.Failure? ==> r.error.IllegalEscape?
    ensures q == "" ==> r == Success(map[])
    ensures q != "" ==> (r.Success? <==> QueryPairs(Split(q, '&')).Success?)
    ensures q != "" && r.Success? ==> LastWins(QueryPairs(Split(q, '&')).value, r.value)
  {
    if q == "" then Success(map[])
    else
      var pairs :- QueryPairs(Split(q, '&'));
      Success(ToMap(pairs))
  }

  // ------------------------------------------------------------------------------------------
  // parse
  // ------------------------------------------------------------------------------------------

  function Lookup(params: map<string, string>, key: string): Option<string>
  {
    if key in params then Some(params[key]) else None
  }

  /** The keys `parse` reads. */
  const RecognisedKeys := {"type", "security", "headerType", "host", "path", "sni", "alpn", "fp"}

  /** `pieces.filter { it.isNotBlank() }`: the non-blank pieces, in their order. */
  function FilterNonBlank(pieces: seq<string>): (r: seq<string>)
    ensures forall i :: 0 <= i < |r| ==> !IsBlank(r[i])
    ensures IsSubsequence(r, pieces)
    ensures (forall i :: 0 <= i < |pieces| ==> !IsBlank(pieces[i])) ==> r == pieces
  {
    if |pieces| == 0 then []
    else
      var rest := FilterNonBlank(pieces[1..]);
      assert forall i :: 1 <= i < |pieces| ==> pieces[1..][i - 1] == pieces[i];
      if IsBlank(pieces[0]) then rest
      else
        var r := [pieces[0]] + rest;
        assert [pieces[0]] + pieces[1..] == pieces;
        assert r[0] == pieces[0] && r[1..] == rest;
        assert forall i :: 1 <= i < |r| ==> r[i] == rest[i - 1];
        r
  }

  /** The filter keeps a piece exactly when it is not blank. */
  lemma {:induction false} FilterNonBlankMembers(pieces: seq<string>, x: string)
    ensures x in FilterNonBlank(pieces) <==> x in pieces && !IsBlank(x)
  {
    if |pieces| > 0 {
      FilterNonBlankMembers(pieces[1..], x);
      assert [pieces[0]] + pieces[1..] == pieces;
    }
  }

  /** `a` is `b` with some elements left out, the rest in their order. */
  predicate IsSubsequence(a: seq<string>, b: seq<string>)
  {
    if |a| == 0 then true
    else if |b| == 0 then false
    else if a[0] == b[0] then IsSubsequence(a[1..], b[1..])
    else IsSubsequence(a, b[1..])
  }

  /** `?.split(',')?.filter { it.isNotBlank() }` of lines 33-34. */
  function CommaList(v: Option<string>): Option<seq<string>>
  {
    match v
    case None => None
    case Some(s) => Some(FilterNonBlank(Split(s, ',')))
  }

  /** `params["path"]?.let { decode(it) }`: the path is decoded a second time. */
  function DecodePath(v: Option<string>): (r: Result<Option<string>, ParseError>)
    ensures r.Failure? ==> r.error.IllegalEscape?
  {
    match v
    case None => Success(None)
    case Some(s) =>
      var d :- DecodeQuery(s);
      Success(Some(d))
  }

  /** Lines 28-48: the record built from the decoded query parameters. */
  function BuildConfig(host: string, port: int, uuid: string, params: map<string, string>): (r: Result<VlessConfig, ParseError>)
    ensures r.Failure? ==> r.error.IllegalEscape?
    ensures r.Success? ==> r.value.address == host && r.value.port == port && r.value.uuid == uuid
  {
    var path :- DecodePath(Lookup(params, "path"));
    Success(VlessConfig(
      address := host,
      port := port,
      uuid := uuid,
      network := Lookup(params, "type"),
      security := Lookup(params, "security"),
      headerType := Lookup(params, "headerType"),
      hostHeader := Lookup(params, "host"),
      path := path,
      sniList := CommaList(Lookup(params, "sni")),
      alpnList := CommaList(Lookup(params, "alpn")),
      fingerprint := Lookup(params, "fp")))
  }

  /** `VlessLinkParser.parse`: a config or the reason the link is refused. A parsed config
      always has a valid host and a port between 1 and `Integer.MAX_VALUE`, only links that
      start with `vless://` parse, and "Missing host" is never the reason: `java.net.URI`
      reports no user information whenever it reports no host. */
  function Parse(link: string): (r: Result<VlessConfig, ParseError>)
    ensures r.Success? ==> 0 < r.value.port <= IntMax && ValidHost(r.value.address)
    ensures r.Success? ==> StartsWith(link, "vless://")
    ensures r != Failure(MissingHost)
  {
    match ParseUri(link)
    case Failure(e) => Failure(e)
    case Success(uri) =>
      var r := FromUri(uri);
      assert Scheme + "://" == "vless://";
      r
  }

  /** Lines 23-48, once `URI(link)` has succeeded. */
  function FromUri(uri: Uri): (r: Result<VlessConfig, ParseError>)
    ensures r.Success? ==> uri.scheme == Some(Scheme) && uri.userInfo.Some? && uri.host == Some(r.value.address)
    ensures r.Success? ==> r.value.port == (if uri.port > 0 then uri.port else DefaultPort)
    ensures r == Failure(MissingHost) ==> uri.userInfo.Some? && uri.host.None?
  {
    if uri.scheme != Some(Scheme) then Failure(InvalidScheme)
    else if uri.userInfo.None? then Failure(MissingUuid)
    else if uri.host.None? then Failure(MissingHost)
    else
      var port := if uri.port > 0 then uri.port else DefaultPort;
      var params :- ParseQuery(if uri.rawQuery.Some? then uri.rawQuery.value else "");
      BuildConfig(uri.host.value, port, uri.userInfo.value, params)
  }

  // ------------------------------------------------------------------------------------------
  // Properties of parse
  // ------------------------------------------------------------------------------------------

  /** A piece of the query is split at its first `=`: the value keeps any later `=`, and
      the key and the value are decoded independently of each other. */
  lemma QueryPairsSplitAtFirstEquals(key: string, value: string, rest: seq<string>)
    requires key != "" && '=' !in key
    ensures QueryPairs([key + "=" + value] + rest)
            == (var k :- DecodeQuery(key); var v :- DecodeQuery(value); var r :- QueryPairs(rest); Success([(k, v)] + r))
  {
    var part := key + "=" + value;
    assert part == key + ("=" + value);
    IndexOfAfter(key, "=" + value, '=');
    assert part[..|key|] == key;
    assert part[|key| + 1..] == value;
    assert ([part] + rest)[0] == part && ([part] + rest)[1..] == rest;
  }

  /** A piece without `=`, or whose first character is `=`, contributes nothing. */
  lemma QueryPairsDropsKeyless(part: string, rest: seq<string>)
    requires '=' !in part || part[0] == '='
    ensures QueryPairs([part] + rest) == QueryPairs(rest)
  {
    assert ([part] + rest)[1..] == rest;
  }

  /** The pieces are read in order, and the first malformed escape decides the failure. */
  lemma {:induction false} QueryPairsConcat(a: seq<string>, b: seq<string>)
    ensures QueryPairs(a + b) == (var x :- QueryPairs(a); var y :- QueryPairs(b); Success(x + y))
    decreases |a|
  {
    if |a| == 0 {
      assert a + b == b;
      var y := QueryPairs(b);
      if y.Success? {
        assert [] + y.value == y.value;
      }
    } else {
      assert (a + b)[0] == a[0];
      assert (a + b)[1..] == a[1..] + b;
      QueryPairsConcat(a[1..], b);
      var idx := IndexOf(a[0], '=');
      if idx > 0 {
        var k := DecodeQuery(a[0][..idx]);
        var v := DecodeQuery(a[0][idx + 1..]);
        if k.Success? && v.Success? {
          var x := QueryPairs(a[1..]);
          var y := QueryPairs(b);
          if x.Success? && y.Success? {
            assert [(k.value, v.value)] + (x.value + y.value) == ([(k.value, v.value)] + x.value) + y.value;
          }
        }
      }
    }
  }

  /** `vless` is a scheme `java.net.URI` accepts. */
  lemma SchemeIsValid()
    ensures ValidScheme(Scheme)
  {
  }

  /** A link `scheme:rest` is split after its scheme. */
  lemma AbsoluteLink(scheme: string, t: string)
    requires ValidScheme(scheme) && WellFormed(scheme + ":" + t)
    ensures ParseUri(scheme + ":" + t) == ParseAbsolute(scheme, t)
  {
    var link := scheme + ":" + t;
    forall i | 0 <= i < |scheme| ensures link[i] !in ":/?#" {
      assert link[i] == scheme[i];
    }
    FirstOfIs(link, ":/?#", |scheme|);
    assert link[..|scheme|] == scheme;
    assert link[|scheme| + 1..] == t;
  }

  /** A link with any other valid scheme (`VLESS` included: the comparison is exact) is refused
      with "Invalid scheme", unless `java.net.URI` refuses it first. */
  lemma WrongSchemeFails(scheme: string, t: string)
    requires ValidScheme(scheme) && scheme != Scheme
    ensures Parse(scheme + ":" + t) == Failure(InvalidScheme) || Parse(scheme + ":" + t) == Failure(UriSyntax)
  {
    if WellFormed(scheme + ":" + t) {
      AbsoluteLink(scheme, t);
    }
  }

  /** `//authority` followed by a path, a query, a fragment or nothing: the authority is
      read by `ParseAuthority`, and an empty one yields no user information. */
  lemma HierarchicalAuthority(scheme: Option<string>, auth: string, tail: string)
    requires NoneOf(auth, "/?#")
    requires tail == "" || tail[0] in "/?#"
    ensures var r := ParseHierarchical(scheme, "//" + auth + tail);
            if auth == "" then r.Failure? || r.value.userInfo.None?
            else match ParseAuthority(auth)
              case Registry => r.Success? && r.value.userInfo.None? && r.value.host.None?
              case Server(ui, host, port) =>
                match DecodeUserInfo(ui)
                case Failure(e) => r == Failure(e)
                case Success(d) => r.Success? && r.value.userInfo == d && r.value.host == Some(host) && r.value.port == port
  {
    var t := "//" + auth + tail;
    assert StartsWith(t, "//");
    assert t[2..] == auth + tail;
    forall i | 0 <= i < |auth| ensures (auth + tail)[i] !in "/?#" {
      assert (auth + tail)[i] == auth[i];
    }
    FirstOfIs(auth + tail, "/?#", |auth|);
    assert (auth + tail)[..|auth|] == auth;
  }

  /** A link whose authority has no `@` fails with "Missing uuid", or earlier. */
  lemma NoUserInfoFails(auth: string, tail: string)
    requires '@' !in auth && NoneOf(auth, "/?#")
    requires tail == "" || tail[0] in "/?#"
    ensures Parse("vless://" + auth + tail).Failure?
  {
    var t := "//" + auth + tail;
    var link := Scheme + ":" + t;
    assert "vless://" + auth + tail == link;
    if WellFormed(link) {
      AbsoluteLink(Scheme, t);
      assert ParseUri(link) == ParseHierarchical(Some(Scheme), t);
      HierarchicalAuthority(Some(Scheme), auth, tail);
      var r := ParseHierarchical(Some(Scheme), t);
      assert r.Success? ==> r.value.userInfo.None?;
    }
  }

  /** A link whose host is empty (the `@` is followed at once by `:`, a path, a query or
      nothing) fails. `java.net.URI` then drops the whole authority, so the failure is
      reported as "Missing uuid". */
  lemma EmptyHostFails(userInfo: string, portText: string, tail: string)
    requires '@' !in userInfo && NoneOf(userInfo, "/?#")
    requires NoneOf(portText, "/?#")
    requires portText == "" || portText[0] == ':'
    requires tail == "" || tail[0] in "/?#"
    ensures var r := Parse("vless://" + userInfo + "@" + portText + tail);
            r == Failure(MissingUuid) || r == Failure(UriSyntax)
  {
    var auth := userInfo + "@" + portText;
    assert "vless://" + userInfo + "@" + portText + tail == "vless://" + auth + tail;
    NoneOfConcat(userInfo + "@", portText, "/?#");
    EmptyHostAuthority(userInfo, portText);
    RegistryLinkFails(auth, tail);
  }

  /** A link whose authority `java.net.URI` reads as registry-based fails with "Missing
      uuid", or earlier as a malformed URI. */
  lemma RegistryLinkFails(auth: string, tail: string)
    requires auth != "" && NoneOf(auth, "/?#") && ParseAuthority(auth) == Registry
    requires tail == "" || tail[0] in "/?#"
    ensures var r := Parse("vless://" + auth + tail);
            r == Failure(MissingUuid) || r == Failure(UriSyntax)
  {
    var t := "//" + auth + tail;
    var link := Scheme + ":" + t;
    assert "vless://" + auth + tail == link;
    if WellFormed(link) {
      SchemeIsValid();
      AbsoluteLink(Scheme, t);
      assert ParseUri(link) == ParseHierarchical(Some(Scheme), t);
      HierarchicalAuthority(Some(Scheme), auth, tail);
      var r := ParseHierarchical(Some(Scheme), t);
      assert r.Success? && r.value.userInfo.None? && r.value.scheme == Some(Scheme);
    }
  }

  /** An authority whose host is empty is not server-based. */
  lemma EmptyHostAuthority(userInfo: string, portText: string)
    requires '@' !in userInfo
    requires portText == "" || portText[0] == ':'
    ensures ParseAuthority(userInfo + "@" + portText) == Registry
  {
    var auth := userInfo + "@" + portText;
    assert auth == userInfo + ("@" + portText);
    IndexOfAfter(userInfo, "@" + portText, '@');
    assert auth[|userInfo| + 1..] == portText;
  }

  /** The user information is the text before the first `@`. */
  lemma AuthoritySplit(e: string, hp: string)
    requires '@' !in e
    ensures ParseAuthority(e + ['@'] + hp) == ParseHostPort(Some(e), hp)
  {
    IndexOfFirst(e, '@', hp);
  }

  /** Host text holds none of the characters that end or escape a part of the authority. */
  lemma HostTextChars(h: string)
    requires HostText(h)
    ensures '@' !in h && ':' !in h && '/' !in h && '?' !in h && '#' !in h && '%' !in h
  {
  }

  /** A host that `java.net.URI` does not accept as a host name or an IPv4 address makes the
      authority registry-based, whatever the port. */
  lemma InvalidHostAuthority(userInfo: string, host: string, portText: string)
    requires '@' !in userInfo && ':' !in host && !ValidHost(host)
    requires portText == "" || portText[0] == ':'
    ensures ParseAuthority(userInfo + "@" + host + portText) == Registry
  {
    assert userInfo + "@" + host + portText == userInfo + ['@'] + (host + portText);
    AuthoritySplit(userInfo, host + portText);
    InvalidHostPort(Some(userInfo), host, portText);
  }

  lemma InvalidHostPort(userInfo: Option<string>, host: string, portText: string)
    requires ':' !in host && !ValidHost(host)
    requires portText == "" || portText[0] == ':'
    ensures ParseHostPort(userInfo, host + portText) == Registry
  {
    var hp := host + portText;
    if portText != "" {
      assert hp == host + [':'] + portText[1..];
      IndexOfFirst(host, ':', portText[1..]);
      assert ParseHostPort(userInfo, hp) == ServerOf(userInfo, host, portText[1..]);
    } else {
      assert hp == host;
    }
  }

  /** A link whose host is neither a host name nor an IPv4 address fails: `java.net.URI` then
      reads the authority as registry-based, with no user information, so the reason is
      "Missing uuid" (or the URI is malformed). */
  lemma InvalidHostFails(userInfo: string, host: string, portText: string, tail: string)
    requires '@' !in userInfo && NoneOf(userInfo, "/?#")
    requires ':' !in host && NoneOf(host, "/?#") && !ValidHost(host)
    requires NoneOf(portText, "/?#") && (portText == "" || portText[0] == ':')
    requires tail == "" || tail[0] in "/?#"
    ensures var r := Parse("vless://" + userInfo + "@" + host + portText + tail);
            r == Failure(MissingUuid) || r == Failure(UriSyntax)
  {
    var auth := userInfo + "@" + host + portText;
    assert "vless://" + userInfo + "@" + host + portText + tail == "vless://" + auth + tail;
    NoneOfConcat(userInfo + "@", host, "/?#");
    NoneOfConcat(userInfo + "@" + host, portText, "/?#");
    InvalidHostAuthority(userInfo, host, portText);
    RegistryLinkFails(auth, tail);
  }

  /** A host that starts with `-` is refused: its first label, or its first IPv4 part,
      would start with it. */
  lemma LeadingDashRefused(h: string)
    requires |h| > 0 && h[0] == '-'
    ensures !ValidHost(h)
  {
    assert !IsIPv4Address(h) by {
      var p := Split(h, '.')[0];
      SplitFirstPrefix(h, '.');
      assert |p| == 0 || p[0] == h[0];
      DashStartedPiece(p);
    }
    assert !IsHostname(h) by {
      var body := if h[|h| - 1] == '.' then h[..|h| - 1] else h;
      var p := Split(body, '.')[0];
      SplitFirstPrefix(body, '.');
      assert |p| == 0 || p[0] == body[0] == h[0];
      DashStartedPiece(p);
    }
  }

  /** A piece that is empty or starts with `-` is neither a label nor a byte value. */
  lemma DashStartedPiece(p: string)
    requires |p| == 0 || p[0] == '-'
    ensures !ValidLabel(p) && !IsIPv4Byte(p)
  {
  }

  /** A host that ends with `-` is refused: its last label, or its last IPv4 part, would end
      with it. */
  lemma TrailingDashRefused(h: string)
    requires |h| > 0 && h[|h| - 1] == '-'
    ensures !ValidHost(h)
  {
    var parts := Split(h, '.');
    var p := SubstringAfterLast(h, '.');
    SplitLastPiece(h, '.');
    assert |p| == 0 || p[|p| - 1] == '-' by {
      if |p| > 0 {
        assert EndsWith(h, p);
        assert p[|p| - 1] == h[|h| - 1];
      }
    }
    DashEndedPiece(p);
    assert Labels(h) == parts;
  }

  /** A piece that is empty or ends with `-` is neither a label nor a byte value. */
  lemma DashEndedPiece(p: string)
    requires |p| == 0 || p[|p| - 1] == '-'
    ensures !ValidLabel(p) && !IsIPv4Byte(p)
  {
  }

  /** Two dots in a row leave an empty piece between them. */
  lemma DoubleDotSplit(x: string, y: string)
    ensures var parts := Split(x + ".." + y, '.');
            |Split(x, '.')| < |parts| && parts[|Split(x, '.')|] == ""
  {
    assert x + ".." + y == x + ['.'] + ([] + ['.'] + y);
    SplitAround(x, [] + ['.'] + y, '.');
    SplitCons([], '.', y);
  }

  /** A dot at the end leaves an empty last piece. */
  lemma TrailingDotSplit(x: string)
    ensures var parts := Split(x + ".", '.');
            |Split(x, '.')| < |parts| && parts[|Split(x, '.')|] == ""
  {
    assert x + "." == x + ['.'] + [];
    SplitAround(x, [], '.');
    SplitWhole([], '.');
  }

  /** Two dots in a row leave an empty label (or an empty IPv4 part), so the host is
      refused. */
  lemma EmptyLabelRefused(a: string, b: string)
    ensures !ValidHost(a + ".." + b)
  {
    var h := a + ".." + b;
    DoubleDotSplit(a, b);
    assert !IsIPv4Address(h) by {
      var parts := Split(h, '.');
      if |parts| == 4 {
        assert !IsIPv4Byte(parts[|Split(a, '.')|]);
      }
    }
    assert !IsHostname(h) by {
      EmptyLabelOfDoubleDot(a, b);
    }
  }

  lemma EmptyLabelOfDoubleDot(a: string, b: string)
    ensures var labels := Labels(a + ".." + b);
            |Split(a, '.')| < |labels| && labels[|Split(a, '.')|] == ""
  {
    var h := a + ".." + b;
    if b == "" {
      assert h == (a + ".") + ".";
      assert h[|h| - 1] == '.' && h[..|h| - 1] == a + ".";
      assert Labels(h) == Split(a + ".", '.');
      TrailingDotSplit(a);
    } else if b[|b| - 1] == '.' {
      var b' := b[..|b| - 1];
      assert h == (a + ".." + b') + ".";
      assert h[|h| - 1] == '.' && h[..|h| - 1] == a + ".." + b';
      assert Labels(h) == Split(a + ".." + b', '.');
      DoubleDotSplit(a, b');
    } else {
      assert h[|h| - 1] == b[|b| - 1];
      assert Labels(h) == Split(h, '.');
      DoubleDotSplit(a, b);
    }
  }

  /** A dotted name whose last label starts with a digit is accepted only as an IPv4
      address. */
  lemma NumericLastLabelRefused(a: string, l: string)
    requires |l| > 0 && IsDigit(l[0]) && '.' !in l
    requires !IsIPv4Address(a + "." + l)
    ensures !ValidHost(a + "." + l)
  {
    LastLabel(a, l);
  }

  /** The label after the last dot is the last label. */
  lemma LastLabel(a: string, l: string)
    requires |l| > 0 && '.' !in l
    ensures var labels := Labels(a + "." + l); |labels| > 1 && labels[|labels| - 1] == l
  {
    var h := a + "." + l;
    assert h == a + ['.'] + l;
    assert h[|h| - 1] == l[|l| - 1];
    SplitAround(a, l, '.');
    SplitWhole(l, '.');
    assert Labels(h) == Split(a, '.') + [l];
  }

  /** One label is a host name. */
  lemma LabelAccepted(l: string)
    requires ValidLabel(l)
    ensures ValidHost(l)
  {
    assert l[|l| - 1] != '.';
    assert '.' !in l by {
      forall i | 0 <= i < |l| ensures l[i] != '.' { }
    }
    SplitWhole(l, '.');
  }

  /** A host name takes one more label after a dot, when that label starts with a letter. */
  lemma AppendLabelAccepted(h: string, l: string)
    requires ValidHost(h) && IsHostname(h) && h[|h| - 1] != '.'
    requires ValidLabel(l) && IsAlpha(l[0])
    ensures ValidHost(h + "." + l)
  {
    var n := h + "." + l;
    LabelText(l);
    HostTextDot(h, l);
    AppendLabelName(h, l);
  }

  lemma AppendLabelName(h: string, l: string)
    requires |h| > 0 && IsHostname(h) && h[|h| - 1] != '.'
    requires ValidLabel(l) && IsAlpha(l[0]) && '.' !in l
    ensures IsHostname(h + "." + l)
  {
    var n := h + "." + l;
    assert n == h + ['.'] + l;
    assert n[|n| - 1] == l[|l| - 1];
    SplitAround(h, l, '.');
    SplitWhole(l, '.');
    assert Labels(h) == Split(h, '.');
    assert Labels(n) == Labels(h) + [l];
    LabelsAppend(Labels(h), l);
  }

  /** A label has host characters and no dot. */
  lemma LabelText(l: string)
    requires ValidLabel(l)
    ensures HostText(l) && '.' !in l
  {
    assert forall i :: 0 <= i < |l| ==> l[i] != '.';
  }

  lemma LabelsAppend(labels: seq<string>, l: string)
    requires forall i :: 0 <= i < |labels| ==> ValidLabel(labels[i])
    requires ValidLabel(l)
    ensures forall i :: 0 <= i < |labels + [l]| ==> ValidLabel((labels + [l])[i])
  {
  }

  /** Host text joined by a dot is host text. */
  lemma HostTextDot(x: string, y: string)
    requires HostText(x) && HostText(y)
    ensures HostText(x + "." + y)
  {
    var n := x + "." + y;
    forall i | 0 <= i < |n| ensures HostChar(n[i]) {
      if i < |x| { assert n[i] == x[i]; }
      else if i > |x| { assert n[i] == y[i - |x| - 1]; }
    }
  }

  /** A host name may end with one dot. */
  lemma TrailingDotAccepted(h: string)
    requires ValidHost(h) && IsHostname(h) && h[|h| - 1] != '.'
    ensures ValidHost(h + ".")
  {
    TrailingDotLabels(h);
    var n := h + ".";
    forall i | 0 <= i < |n| ensures HostChar(n[i]) {
      if i < |h| { assert n[i] == h[i]; }
    }
  }

  /** Dropping the trailing dot gives back the labels of the name without it. */
  lemma TrailingDotLabels(h: string)
    requires |h| > 0 && h[|h| - 1] != '.'
    ensures Labels(h + ".") == Labels(h)
  {
    var n := h + ".";
    assert n[..|n| - 1] == h;
  }

  /** A byte value has host characters and no dot. */
  lemma ByteText(p: string)
    requires IsIPv4Byte(p)
    ensures HostText(p) && '.' !in p
  {
    assert forall i :: 0 <= i < |p| ==> IsDigit(p[i]);
  }

  /** Four byte values joined by dots are an IPv4 address. */
  lemma AddressAccepted(a: string, b: string, c: string, d: string)
    requires IsIPv4Byte(a) && IsIPv4Byte(b) && IsIPv4Byte(c) && IsIPv4Byte(d)
    ensures ValidHost(a + "." + b + "." + c + "." + d)
  {
    var h := a + "." + b + "." + c + "." + d;
    ByteText(a);
    ByteText(b);
    ByteText(c);
    ByteText(d);
    assert HostText(h) by {
      HostTextDot(a, b);
      HostTextDot(a + "." + b, c);
      HostTextDot(a + "." + b + "." + c, d);
    }
    assert IsIPv4Address(h) by {
      AddressParts(a, b, c, d);
      var parts := [a, b, c, d];
      assert forall i :: 0 <= i < 4 ==> IsIPv4Byte(parts[i]);
    }
  }

  lemma AddressParts(a: string, b: string, c: string, d: string)
    requires '.' !in a && '.' !in b && '.' !in c && '.' !in d
    ensures Split(a + "." + b + "." + c + "." + d, '.') == [a, b, c, d]
  {
    var abc := a + "." + b + "." + c;
    assert abc == a + ['.'] + b + ['.'] + c;
    assert abc + "." + d == abc + ['.'] + d;
    SplitThree(a, b, c, '.');
    SplitAround(abc, d, '.');
    SplitWhole(d, '.');
  }

  /** The record depends only on the eight recognised keys: any other parameter is ignored. */
  lemma UnrecognisedKeysIgnored(host: string, port: int, uuid: string, params: map<string, string>)
    ensures BuildConfig(host, port, uuid, params)
            == BuildConfig(host, port, uuid, map k | k in params && k in RecognisedKeys :: params[k])
  {
  }

  /** The comma lists keep exactly the non-blank items, in their order. */
  lemma CommaListItems(s: string)
    ensures var l := CommaList(Some(s)).value;
            (forall i :: 0 <= i < |l| ==> !IsBlank(l[i]) && ',' !in l[i])
            && IsSubsequence(l, Split(s, ','))
            && (forall i :: 0 <= i < |Split(s, ',')| && !IsBlank(Split(s, ',')[i]) ==> Split(s, ',')[i] in l)
  {
    var parts := Split(s, ',');
    var l := FilterNonBlank(parts);
    forall i | 0 <= i < |l| ensures ',' !in l[i] {
      FilterNonBlankMembers(parts, l[i]);
    }
    forall i | 0 <= i < |parts| && !IsBlank(parts[i]) ensures parts[i] in l {
      FilterNonBlankMembers(parts, parts[i]);
    }
  }
}
