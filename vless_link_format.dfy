/** A share-link writer for `VlessConfig` records, the partner of `VlessLinkParser.Parse`:
    every record that a link can carry is read back unchanged from the link written for it. */
module VlessLinkFormat {
  import opened Wrappers
  import opened Text
  import opened UrlDecoder
  import opened VlessLinkParser
  import opened JvmInt

  /** A query parameter of a link: its key and, when present, its value as the query holds it
      after one round of decoding. */
  type Field = (string, Option<string>)

  function EscapeOpt(v: Option<string>): Option<string>
  {
    match v
    case None => None
    case Some(s) => Some(Escape(s))
  }

  function JoinOpt(l: Option<seq<string>>): Option<string>
  {
    match l
    case None => None
    case Some(items) => Some(Join(items, ','))
  }

  /** The eight parameters, in the order `parse` reads them. The path is escaped once here
      and once more by `Pieces`, because `parse` decodes it twice. */
  function QueryFields(c: VlessConfig): seq<Field>
  {
    [("type", c.network), ("security", c.security), ("headerType", c.headerType), ("host", c.hostHeader),
     ("path", EscapeOpt(c.path)), ("sni", JoinOpt(c.sniList)), ("alpn", JoinOpt(c.alpnList)),
     ("fp", c.fingerprint)]
  }

  /** The pairs the query decodes to. */
  function Present(fields: seq<Field>): seq<(string, string)>
  {
    if |fields| == 0 then []
    else (if fields[0].1.Some? then [(fields[0].0, fields[0].1.value)] else []) + Present(fields[1..])
  }

  /** The `key=value` pieces of the query. */
  function Pieces(fields: seq<Field>): seq<string>
  {
    if |fields| == 0 then []
    else (if fields[0].1.Some? then [fields[0].0 + "=" + Escape(fields[0].1.value)] else []) + Pieces(fields[1..])
  }

  function PortSuffix(explicitPort: Option<nat>): string
  {
    match explicitPort
    case None => ""
    case Some(p) => ":" + NatToString(p)
  }

  function QuerySuffix(pieces: seq<string>): string
  {
    if |pieces| == 0 then "" else "?" + Join(pieces, '&')
  }

  /** `uuid@address[:port]`, the user information escaped. */
  function FormatAuthority(c: VlessConfig, explicitPort: Option<nat>): string
  {
    Escape(c.uuid) + "@" + c.address + PortSuffix(explicitPort)
  }

  /** `vless://uuid@address[:port][?query]`, with the port written only when `explicitPort`
      is given (a written port of 0 reads back as the default 443). */
  function FormatLink(c: VlessConfig, explicitPort: Option<nat>): (link: string)
    ensures StartsWith(link, "vless://")
  {
    Scheme + ":" + ("//" + FormatAuthority(c, explicitPort) + QuerySuffix(Pieces(QueryFields(c))))
  }

  /** A comma list the parser can return: no blank item and no item holding a comma. */
  predicate ListOk(l: Option<seq<string>>)
  {
    l.Some? ==> forall i :: 0 <= i < |l.value| ==> !IsBlank(l.value[i]) && ',' !in l.value[i]
  }

  function PortNumber(explicitPort: Option<nat>): int
  {
    if explicitPort.Some? then explicitPort.value else -1
  }

  /** The records a link can carry: a host `java.net.URI` accepts, a port that is the written
      one (or 443 when none, or 0, is written), and comma lists the parser can return. */
  predicate Formattable(c: VlessConfig, explicitPort: Option<nat>)
  {
    ValidHost(c.address) && ListOk(c.sniList) && ListOk(c.alpnList)
    && PortNumber(explicitPort) <= IntMax
    && c.port == (if PortNumber(explicitPort) > 0 then PortNumber(explicitPort) else DefaultPort)
  }

  // ------------------------------------------------------------------------------------------
  // The query
  // ------------------------------------------------------------------------------------------

  /** The characters a key must avoid to be read back as written. */
  const KeyStops := "=&#%+"

  predicate KeysOk(fields: seq<Field>)
  {
    forall i :: 0 <= i < |fields| ==> fields[i].0 != "" && NoneOf(fields[i].0, KeyStops)
  }

  predicate DistinctKeys(fields: seq<Field>)
  {
    forall i, j :: 0 <= i < j < |fields| ==> fields[i].0 != fields[j].0
  }

  lemma NotIn(s: string, cs: string, c: char)
    requires NoneOf(s, cs) && c in cs
    ensures c !in s
  {
  }

  /** A piece is non-empty, holds no `&` and no `#`, and is well-formed. */
  predicate GoodPiece(p: string)
  {
    p != "" && '&' !in p && '#' !in p && WellFormed(p)
  }

  lemma PieceIsGood(key: string, v: string)
    requires key != "" && NoneOf(key, KeyStops)
    ensures GoodPiece(key + "=" + Escape(v))
  {
    NotIn(key, KeyStops, '&');
    NotIn(key, KeyStops, '#');
    NotIn(key, KeyStops, '%');
    EscapeAvoidsDelimiters(v);
    NotIn(Escape(v), Delimiters, '&');
    NotIn(Escape(v), Delimiters, '#');
    NoPercentWellFormed(key + "=");
    WellFormedConcat(key + "=", Escape(v));
  }

  lemma {:induction false} PiecesAreGood(fields: seq<Field>)
    requires KeysOk(fields)
    ensures forall i :: 0 <= i < |Pieces(fields)| ==> GoodPiece(Pieces(fields)[i])
    ensures |Pieces(fields)| == |Present(fields)|
    decreases |fields|
  {
    if |fields| > 0 {
      PiecesAreGood(fields[1..]);
      if fields[0].1.Some? {
        PieceIsGood(fields[0].0, fields[0].1.value);
      }
    }
  }

  /** The joined query holds no `#` and is well-formed. */
  lemma {:induction false} JoinIsGood(parts: seq<string>)
    requires forall i :: 0 <= i < |parts| ==> GoodPiece(parts[i])
    ensures '#' !in Join(parts, '&') && WellFormed(Join(parts, '&'))
    ensures |parts| > 0 ==> Join(parts, '&') != ""
    decreases |parts|
  {
    if |parts| > 1 {
      JoinIsGood(parts[1..]);
      NoPercentWellFormed("&");
      WellFormedConcat(parts[0], "&");
      WellFormedConcat(parts[0] + "&", Join(parts[1..], '&'));
    } else if |parts| == 0 {
      NoPercentWellFormed("");
    }
  }

  /** The pieces decode to the pairs, in order. */
  lemma {:induction false} PiecesDecode(fields: seq<Field>)
    requires KeysOk(fields)
    ensures QueryPairs(Pieces(fields)) == Success(Present(fields))
    decreases |fields|
  {
    if |fields| > 0 {
      PiecesDecode(fields[1..]);
      var key := fields[0].0;
      if fields[0].1.Some? {
        var v := fields[0].1.value;
        NotIn(key, KeyStops, '=');
        NotIn(key, KeyStops, '%');
        NotIn(key, KeyStops, '+');
        QueryPairsSplitAtFirstEquals(key, Escape(v), Pieces(fields[1..]));
        DecodePlain(key, true);
        DecodeEscape(v, true);
      } else {
        assert Pieces(fields) == Pieces(fields[1..]);
        assert Present(fields) == Present(fields[1..]);
      }
    }
  }

  /** A key that no field has appears in no pair. */
  lemma {:induction false} AbsentKey(fields: seq<Field>, k: string)
    requires forall i :: 0 <= i < |fields| ==> fields[i].0 != k
    ensures forall j :: 0 <= j < |Present(fields)| ==> Present(fields)[j].0 != k
    decreases |fields|
  {
    if |fields| > 0 {
      AbsentKey(fields[1..], k);
      var head := if fields[0].1.Some? then [(fields[0].0, fields[0].1.value)] else [];
      assert Present(fields) == head + Present(fields[1..]);
      forall j | 0 <= j < |Present(fields)| ensures Present(fields)[j].0 != k {
        if j >= |head| {
          assert Present(fields)[j] == Present(fields[1..])[j - |head|];
        }
      }
    }
  }

  /** Distinct keys stay distinct in the tail, and the first key is not among them. */
  lemma DistinctTail(fields: seq<Field>)
    requires DistinctKeys(fields) && |fields| > 0
    ensures DistinctKeys(fields[1..])
    ensures forall j :: 0 <= j < |fields[1..]| ==> fields[1..][j].0 != fields[0].0
  {
    var rest := fields[1..];
    forall a, b | 0 <= a < b < |rest| ensures rest[a].0 != rest[b].0 {
      assert rest[a] == fields[a + 1] && rest[b] == fields[b + 1];
    }
    forall j | 0 <= j < |rest| ensures rest[j].0 != fields[0].0 {
      assert rest[j] == fields[j + 1];
    }
  }

  /** The map of the pairs, one field at a time: a present first field whose key comes back
      nowhere later adds its key. */
  lemma PresentMap(fields: seq<Field>)
    requires |fields| > 0
    requires forall j :: 0 <= j < |fields[1..]| ==> fields[1..][j].0 != fields[0].0
    ensures var m := ToMap(Present(fields[1..]));
            ToMap(Present(fields)) == if fields[0].1.Some? then m[fields[0].0 := fields[0].1.value] else m
  {
    var rest := fields[1..];
    var k0 := fields[0].0;
    AbsentKey(rest, k0);
    var m := ToMap(Present(rest));
    assert k0 !in m;
    if fields[0].1.Some? {
      var pairs := [(k0, fields[0].1.value)] + Present(rest);
      assert Present(fields) == pairs;
      assert pairs[0] == (k0, fields[0].1.value) && pairs[1..] == Present(rest);
    } else {
      assert Present(fields) == Present(rest);
    }
  }

  /** With distinct keys, each key maps to its field's value, and is absent when that field is. */
  lemma {:induction false} LookupPresent(fields: seq<Field>, i: nat)
    requires DistinctKeys(fields) && i < |fields|
    ensures Lookup(ToMap(Present(fields)), fields[i].0) == fields[i].1
    decreases |fields|
  {
    DistinctTail(fields);
    PresentMap(fields);
    if i > 0 {
      LookupPresent(fields[1..], i - 1);
      assert fields[1..][i - 1] == fields[i];
    } else {
      AbsentKey(fields[1..], fields[0].0);
    }
  }

  /** The eight keys are distinct. */
  lemma QueryFieldsDistinct(c: VlessConfig)
    ensures DistinctKeys(QueryFields(c))
  {
  }

  /** The eight keys can be written as they are. */
  lemma QueryFieldsKeys(c: VlessConfig)
    ensures KeysOk(QueryFields(c))
  {
  }

  /** A comma list reads back as written. */
  lemma CommaListJoin(l: Option<seq<string>>)
    requires ListOk(l)
    ensures CommaList(JoinOpt(l)) == l
  {
    if l.Some? {
      if |l.value| == 0 {
        assert Split("", ',') == [""];
      } else {
        SplitJoin(l.value, ',');
      }
    }
  }

  /** The map of a formatted link's query holds the first four parameters as written. */
  lemma PlainLookups(c: VlessConfig)
    ensures var m := ToMap(Present(QueryFields(c)));
            Lookup(m, "type") == c.network && Lookup(m, "security") == c.security
            && Lookup(m, "headerType") == c.headerType && Lookup(m, "host") == c.hostHeader
  {
    QueryFieldsDistinct(c);
    LookupPresent(QueryFields(c), 0);
    LookupPresent(QueryFields(c), 1);
    LookupPresent(QueryFields(c), 2);
    LookupPresent(QueryFields(c), 3);
  }

  /** The map of a formatted link's query holds the last four parameters in their escaped or
      joined form. */
  lemma EncodedLookups(c: VlessConfig)
    ensures var m := ToMap(Present(QueryFields(c)));
            Lookup(m, "path") == EscapeOpt(c.path) && Lookup(m, "sni") == JoinOpt(c.sniList)
            && Lookup(m, "alpn") == JoinOpt(c.alpnList) && Lookup(m, "fp") == c.fingerprint
  {
    QueryFieldsDistinct(c);
    LookupPresent(QueryFields(c), 4);
    LookupPresent(QueryFields(c), 5);
    LookupPresent(QueryFields(c), 6);
    LookupPresent(QueryFields(c), 7);
  }

  /** The query of a formatted link yields the record it was written from. */
  lemma BuildFromFields(c: VlessConfig)
    requires ListOk(c.sniList) && ListOk(c.alpnList)
    ensures BuildConfig(c.address, c.port, c.uuid, ToMap(Present(QueryFields(c)))) == Success(c)
  {
    var m := ToMap(Present(QueryFields(c)));
    PlainLookups(c);
    EncodedLookups(c);
    if c.path.Some? {
      DecodeEscape(c.path.value, true);
    }
    assert DecodePath(Lookup(m, "path")) == Success(c.path);
    CommaListJoin(c.sniList);
    CommaListJoin(c.alpnList);
  }

  /** The raw query of a formatted link parses to the map of its fields. */
  lemma QueryOfFields(c: VlessConfig)
    ensures var pieces := Pieces(QueryFields(c));
            ParseQuery(if |pieces| == 0 then "" else Join(pieces, '&')) == Success(ToMap(Present(QueryFields(c))))
  {
    var fields := QueryFields(c);
    var pieces := Pieces(fields);
    QueryFieldsKeys(c);
    PiecesAreGood(fields);
    if |pieces| == 0 {
      assert Present(fields) == [];
    } else {
      JoinIsGood(pieces);
      SplitJoin(pieces, '&');
      PiecesDecode(fields);
    }
  }

  // ------------------------------------------------------------------------------------------
  // The link
  // ------------------------------------------------------------------------------------------

  lemma HostChars(h: string)
    requires ValidHost(h)
    ensures '@' !in h && ':' !in h && '/' !in h && '?' !in h && '#' !in h && '%' !in h
  {
    HostTextChars(h);
  }

  lemma PortChars(explicitPort: Option<nat>)
    ensures '@' !in PortSuffix(explicitPort) && '/' !in PortSuffix(explicitPort)
    ensures '?' !in PortSuffix(explicitPort) && '#' !in PortSuffix(explicitPort) && '%' !in PortSuffix(explicitPort)
  {
  }

  /** `host[:port]` of a formatted link is read as the host and the written port. */
  lemma HostPortOfFormat(userInfo: Option<string>, h: string, explicitPort: Option<nat>)
    requires ValidHost(h) && PortNumber(explicitPort) <= IntMax
    ensures ParseHostPort(userInfo, h + PortSuffix(explicitPort)) == Server(userInfo, h, PortNumber(explicitPort))
  {
    HostChars(h);
    if explicitPort.Some? {
      var n := explicitPort.value;
      var d := NatToString(n);
      assert PortSuffix(explicitPort) == [':'] + d;
      assert h + PortSuffix(explicitPort) == h + [':'] + d;
      IndexOfFirst(h, ':', d);
      DigitsValueNatToString(n);
      assert ServerOf(userInfo, h, d) == Server(userInfo, h, n);
    } else {
      assert h + PortSuffix(explicitPort) == h;
    }
  }

  /** The authority of a formatted link is read as its user information, host and port. */
  lemma AuthorityOfFormat(c: VlessConfig, explicitPort: Option<nat>)
    requires Formattable(c, explicitPort)
    ensures ParseAuthority(FormatAuthority(c, explicitPort))
            == Server(Some(Escape(c.uuid)), c.address, PortNumber(explicitPort))
  {
    var e := Escape(c.uuid);
    var hp := c.address + PortSuffix(explicitPort);
    EscapeAvoidsDelimiters(c.uuid);
    NotIn(e, Delimiters, '@');
    assert FormatAuthority(c, explicitPort) == e + ['@'] + hp;
    AuthoritySplit(e, hp);
    HostPortOfFormat(Some(e), c.address, explicitPort);
  }

  /** The authority of a formatted link is non-empty, well-formed, and holds none of the
      characters that end an authority. */
  lemma AuthorityChars(c: VlessConfig, explicitPort: Option<nat>)
    requires HostText(c.address)
    ensures var a := FormatAuthority(c, explicitPort);
            a != "" && NoneOf(a, "/?#") && WellFormed(a)
  {
    var e := Escape(c.uuid);
    var h := c.address;
    var p := PortSuffix(explicitPort);
    var a := FormatAuthority(c, explicitPort);
    EscapeAvoidsDelimiters(c.uuid);
    HostTextChars(h);
    PortChars(explicitPort);
    NotIn(e, Delimiters, '/');
    NotIn(e, Delimiters, '?');
    NotIn(e, Delimiters, '#');
    forall i | 0 <= i < |a| ensures a[i] !in "/?#" {
      assert a[i] in a;
    }
    NoPercentWellFormed("@");
    NoPercentWellFormed(h);
    NoPercentWellFormed(p);
    WellFormedConcat(e, "@");
    WellFormedConcat(e + "@", h);
    WellFormedConcat(e + "@" + h, p);
  }

  /** The query suffix of a formatted link is empty or starts with `?`, holds no `#`, and is
      well-formed. */
  lemma QueryChars(c: VlessConfig)
    ensures var q := QuerySuffix(Pieces(QueryFields(c)));
            '#' !in q && (q == "" || q[0] == '?') && WellFormed(q)
  {
    var pieces := Pieces(QueryFields(c));
    QueryFieldsKeys(c);
    PiecesAreGood(QueryFields(c));
    JoinIsGood(pieces);
    NoPercentWellFormed("?");
    WellFormedConcat("?", Join(pieces, '&'));
  }

  lemma LinkWellFormed(a: string, q: string)
    requires WellFormed(a) && WellFormed(q)
    ensures WellFormed(Scheme + ":" + ("//" + a + q))
  {
    NoPercentWellFormed("//");
    WellFormedConcat("//", a);
    WellFormedConcat("//" + a, q);
    NoPercentWellFormed("vless:");
    assert Scheme + ":" == "vless:";
    WellFormedConcat("vless:", "//" + a + q);
  }

  /** The raw query of a formatted link. */
  lemma RawQueryOfFormat(a: string, q: string)
    requires NoneOf(a, "/?#") && '#' !in q && (q == "" || q[0] == '?')
    ensures RawQuery("//" + a + q) == if q == "" then None else Some(q[1..])
  {
    var t := "//" + a + q;
    assert t[..FirstOf(t, "#")] == t;
    assert '?' !in "//" + a by {
      forall i | 0 <= i < |"//" + a| ensures ("//" + a)[i] != '?' {
        if i >= 2 { assert ("//" + a)[i] == a[i - 2]; }
      }
    }
    IndexOfAfter("//" + a, q, '?');
    if q != "" {
      assert t[|"//" + a| + 1..] == q[1..];
    }
  }

  /** `java.net.URI` splits a formatted link into the parts it was written from. */
  lemma ParseUriOfFormat(c: VlessConfig, explicitPort: Option<nat>)
    requires Formattable(c, explicitPort)
    ensures var pieces := Pieces(QueryFields(c));
            ParseUri(FormatLink(c, explicitPort))
            == Success(Uri(Some(Scheme), Some(c.uuid), Some(c.address), PortNumber(explicitPort),
                           if |pieces| == 0 then None else Some(Join(pieces, '&'))))
  {
    var a := FormatAuthority(c, explicitPort);
    var q := QuerySuffix(Pieces(QueryFields(c)));
    var t := "//" + a + q;
    AuthorityChars(c, explicitPort);
    QueryChars(c);
    LinkWellFormed(a, q);
    SchemeIsValid();
    AbsoluteLink(Scheme, t);
    assert ParseUri(Scheme + ":" + t) == ParseHierarchical(Some(Scheme), t);
    HierarchicalAuthority(Some(Scheme), a, q);
    AuthorityOfFormat(c, explicitPort);
    DecodeEscape(c.uuid, false);
    RawQueryOfFormat(a, q);
  }

  /** The round trip: a link written for a record parses back to that record. */
  lemma ParseFormatLink(c: VlessConfig, explicitPort: Option<nat>)
    requires Formattable(c, explicitPort)
    ensures Parse(FormatLink(c, explicitPort)) == Success(c)
  {
    ParseUriOfFormat(c, explicitPort);
    QueryOfFields(c);
    BuildFromFields(c);
  }
}
