/** The gateway's header pipeline. A header map is a multimap from lower-case names to the values
    received, in order. A request loses its hop-by-hop headers (section 6.1 of RFC 7230) and gains
    the forwarding headers. */
module GatewayHeaders {
  import opened Text
  import opened GatewayRoutes

  type Fields = map<string, seq<string>>

  const HOP_NAMES := [
    "connection", "proxy-connection", "keep-alive", "proxy-authenticate", "proxy-authorization",
    "te", "trailer", "transfer-encoding", "upgrade"
  ]

  /** `to_str` and `from_str` succeed. */
  predicate Readable(v: string) {
    forall i | 0 <= i < |v| :: ' ' <= v[i] <= '~' || v[i] == '\t'
  }

  predicate IsNameChar(c: char) {
    'a' <= c <= 'z' || IsDigit(c) || c in "!#$%&'*+-.^_`|~"
  }

  /** `HeaderName::from_bytes` succeeds on a lower-cased token. */
  predicate IsHeaderName(n: string) {
    0 < |n| < 0x1_0000 && forall i | 0 <= i < |n| :: IsNameChar(n[i])
  }

  predicate WellFormed(f: Fields) {
    forall n | n in f :: IsHeaderName(n) && f[n] != []
  }

  function Values(f: Fields, n: string): seq<string> {
    if n in f then f[n] else []
  }

  // ---------- the Connection header ----------

  function Token(part: string): string {
    Lower(Trim(part))
  }

  function Tokens(parts: seq<string>): seq<string> {
    seq(|parts|, i requires 0 <= i < |parts| => Token(parts[i]))
  }

  predicate ValueLists(v: string, t: string) {
    Readable(v) && t in Tokens(Split(v, ','))
  }

  /** Some readable value lists the token `t`. */
  predicate Lists(values: seq<string>, t: string) {
    exists v | v in values :: ValueLists(v, t)
  }

  /** Tokens that do not name a header to drop. */
  predicate IsOption(t: string) {
    t == "" || t == "close" || t == "keep-alive"
  }

  predicate IsUpgrade(f: Fields) {
    "upgrade" in f && Lists(Values(f, "connection"), "upgrade")
  }

  // ---------- printed Connection values ----------

  /** One part between commas: a token with blanks around it. */
  datatype Part = Part(left: string, core: string, right: string)

  predicate IsPart(p: Part) {
    AllSpace(p.left) && AllSpace(p.right) && IsTrimmed(p.core) && ',' !in p.core
  }

  function PrintPart(p: Part): string {
    p.left + (p.core + p.right)
  }

  function Print(parts: seq<Part>): string
    requires parts != []
  {
    if |parts| == 1 then PrintPart(parts[0]) else PrintPart(parts[0]) + ("," + Print(parts[1..]))
  }

  lemma PartHasNoComma(p: Part)
    requires IsPart(p)
    ensures ',' !in PrintPart(p)
  {
    assert forall i | 0 <= i < |p.left| :: IsSpace(p.left[i]);
    assert forall i | 0 <= i < |p.right| :: IsSpace(p.right[i]);
  }

  lemma PartToken(p: Part, t: string)
    requires IsPart(p)
    ensures Token(PrintPart(p)) == t <==> IsSmall(p.core, t)
  {
    TrimIs(p.left, p.core, p.right);
    LowerIsSmall(p.core, t);
  }

  predicate Spells(parts: seq<Part>, t: string) {
    exists i | 0 <= i < |parts| :: IsSmall(parts[i].core, t)
  }

  lemma {:induction false} PrintedTokens(parts: seq<Part>, t: string)
    requires parts != [] && forall i | 0 <= i < |parts| :: IsPart(parts[i])
    ensures t in Tokens(Split(Print(parts), ',')) <==> Spells(parts, t)
  {
    var first, rest := PrintPart(parts[0]), parts[1..];
    PartHasNoComma(parts[0]);
    PartToken(parts[0], t);
    if |parts| == 1 {
      SplitOne(first, ',');
      TokensCons(first, [], t);
      assert [first] + [] == [first];
    } else {
      SplitMore(first, ',', Print(rest));
      PrintedTokens(rest, t);
      TokensCons(first, Split(Print(rest), ','), t);
      SpellsCons(parts, t);
    }
  }

  lemma TokensCons(first: string, more: seq<string>, t: string)
    ensures t in Tokens([first] + more) <==> Token(first) == t || t in Tokens(more)
  {
    assert Tokens([first] + more) == [Token(first)] + Tokens(more);
  }

  lemma SpellsCons(parts: seq<Part>, t: string)
    requires parts != []
    ensures Spells(parts, t) <==> IsSmall(parts[0].core, t) || Spells(parts[1..], t)
  {
    var rest := parts[1..];
    assert forall i | 0 <= i < |rest| :: rest[i] == parts[i + 1];
    if Spells(rest, t) {
      var i :| 0 <= i < |rest| && IsSmall(rest[i].core, t);
      assert IsSmall(parts[i + 1].core, t);
    }
  }

  /** Visible ASCII characters, spaces and tabs only. */
  predicate IsPrintable(v: string) {
    forall c | c in v :: c == '\t' || 32 <= c as int < 127
  }

  lemma ReadableIsPrintable(v: string)
    ensures Readable(v) <==> IsPrintable(v)
  {
    if IsPrintable(v) { assert forall i | 0 <= i < |v| :: v[i] in v; }
  }

  /** Listing on printed values: a token is listed exactly when some readable value spells it, in
      any case and with any blanks, between commas. */
  lemma ListsSpelled(values: seq<seq<Part>>, t: string)
    requires forall k | 0 <= k < |values| :: values[k] != [] && forall i | 0 <= i < |values[k]| :: IsPart(values[k][i])
    ensures var printed := seq(|values|, k requires 0 <= k < |values| => Print(values[k]));
            Lists(printed, t) <==> exists k | 0 <= k < |values| :: IsPrintable(Print(values[k])) && Spells(values[k], t)
  {
    var printed := seq(|values|, k requires 0 <= k < |values| => Print(values[k]));
    forall k | 0 <= k < |values|
      ensures ValueLists(printed[k], t) <==> IsPrintable(Print(values[k])) && Spells(values[k], t)
    {
      PrintedTokens(values[k], t);
      ReadableIsPrintable(Print(values[k]));
    }
    if k :| 0 <= k < |values| && IsPrintable(Print(values[k])) && Spells(values[k], t) {
      assert printed[k] in printed;
    }
  }

  // ---------- what sanitizing drops ----------

  predicate Kept(n: string, keepUpgrade: bool) {
    keepUpgrade && (n == "upgrade" || n == "connection")
  }

  predicate Drops(f: Fields, keepUpgrade: bool, n: string) {
    || (n in HOP_NAMES && !Kept(n, keepUpgrade))
    || (Lists(Values(f, "connection"), n) && !IsOption(n) && !(keepUpgrade && n == "upgrade"))
  }

  function Sanitized(f: Fields, keepUpgrade: bool): Fields {
    map n | n in f && !Drops(f, keepUpgrade, n) :: f[n]
  }

  function Without(f: Fields, names: set<string>): Fields {
    map n | n in f && n !in names :: f[n]
  }

  /** A response without hop-by-hop headers and `server`. */
  function Cleaned(f: Fields): Fields {
    Without(f, (set n | n in HOP_NAMES) + {"server"})
  }

  function Hops(names: seq<string>, keepUpgrade: bool): set<string> {
    set n | n in names && !Kept(n, keepUpgrade)
  }

  function Named(listed: seq<string>, keepUpgrade: bool): set<string> {
    set t | t in listed && !(keepUpgrade && t == "upgrade") && IsHeaderName(t)
  }

  /** Words of small letters, digits and dashes are header names. */
  lemma WordsAreNames(n: string)
    requires 0 < |n| < 0x1_0000 && forall i | 0 <= i < |n| :: 'a' <= n[i] <= 'z' || IsDigit(n[i]) || n[i] == '-'
    ensures IsHeaderName(n)
  {
    var others := "!#$%&'*+-.^_`|~";
    assert others[8] == '-';
    assert '-' in others;
  }

  lemma DropsAreRemoved(f: Fields, listed: seq<string>, keepUpgrade: bool)
    requires WellFormed(f)
    requires forall t :: t in listed <==> Lists(Values(f, "connection"), t) && !IsOption(t)
    ensures Without(Without(f, Hops(HOP_NAMES, keepUpgrade)), Named(listed, keepUpgrade)) == Sanitized(f, keepUpgrade)
  {
    forall n | n in f
      ensures Drops(f, keepUpgrade, n) <==> n in Hops(HOP_NAMES, keepUpgrade) || n in Named(listed, keepUpgrade)
    {
      assert IsHeaderName(n);
    }
  }

  // ---------- the header map ----------

  class HeaderMap {
    var fields: Fields

    constructor (initial: Fields)
      requires WellFormed(initial)
      ensures fields == initial
    {
      fields := initial;
    }

    method Remove(n: string)
      modifies this
      ensures fields == Without(old(fields), {n})
    {
      fields := map m | m in fields && m != n :: fields[m];
    }

    method Insert(n: string, v: string)
      modifies this
      ensures fields == old(fields)[n := [v]]
    {
      fields := fields[n := [v]];
    }

    /** `connection_tokens`. */
    method ConnectionTokens() returns (out: seq<string>)
      ensures forall t :: t in out <==> Lists(Values(fields, "connection"), t) && !IsOption(t)
    {
      out := [];
      var values := Values(fields, "connection");
      for i := 0 to |values|
        invariant forall t :: t in out <==> Lists(values[..i], t) && !IsOption(t)
      {
        ghost var before := out;
        if Readable(values[i]) {
          var parts := Split(values[i], ',');
          for j := 0 to |parts|
            invariant forall t :: t in out <==> t in before || (t in Tokens(parts[..j]) && !IsOption(t))
          {
            var tok := Token(parts[j]);
            assert Tokens(parts[..j + 1]) == Tokens(parts[..j]) + [tok];
            if tok != "" && tok != "close" && tok != "keep-alive" {
              out := out + [tok];
            }
          }
          assert parts[..|parts|] == parts;
        }
        ListsStep(values, i);
      }
      assert values[..|values|] == values;
    }

    /** `strip_hop`. */
    method StripHop(keepUpgrade: bool)
      modifies this
      ensures fields == Without(old(fields), Hops(HOP_NAMES, keepUpgrade))
    {
      for i := 0 to |HOP_NAMES|
        invariant fields == Without(old(fields), Hops(HOP_NAMES[..i], keepUpgrade))
      {
        var name := HOP_NAMES[i];
        assert HOP_NAMES[..i + 1] == HOP_NAMES[..i] + [name];
        if !Kept(name, keepUpgrade) {
          Remove(name);
        }
      }
      assert HOP_NAMES[..|HOP_NAMES|] == HOP_NAMES;
    }

    /** `sanitize`. */
    method Sanitize(keepUpgrade: bool)
      requires WellFormed(fields)
      modifies this
      ensures fields == Sanitized(old(fields), keepUpgrade)
    {
      ghost var was := fields;
      var listed := ConnectionTokens();
      StripHop(keepUpgrade);
      ghost var stripped := fields;
      for i := 0 to |listed|
        invariant fields == Without(stripped, Named(listed[..i], keepUpgrade))
      {
        var tok := listed[i];
        assert listed[..i + 1] == listed[..i] + [tok];
        if keepUpgrade && tok == "upgrade" {
          continue;
        }
        if IsHeaderName(tok) {
          Remove(tok);
        }
      }
      assert listed[..|listed|] == listed;
      DropsAreRemoved(was, listed, keepUpgrade);
    }

    /** `clean_response`: unlike a request, a response keeps what its Connection header lists. */
    method CleanResponse()
      modifies this
      ensures fields == Cleaned(old(fields))
    {
      StripHop(false);
      Remove("server");
    }
  }

  lemma ListsStep(values: seq<string>, i: nat)
    requires i < |values|
    ensures forall t :: Lists(values[..i + 1], t) <==> Lists(values[..i], t) || ValueLists(values[i], t)
  {
    assert values[..i + 1] == values[..i] + [values[i]];
    forall t
      ensures Lists(values[..i + 1], t) <==> Lists(values[..i], t) || ValueLists(values[i], t)
    {
      if ValueLists(values[i], t) {
        assert values[i] in values[..i + 1];
      }
    }
  }

  // ---------- what sanitizing guarantees ----------

  /** An upgrade request keeps `connection` and `upgrade`, the former unless it lists itself. */
  lemma SanitizedUpgrade(f: Fields, n: string)
    requires n in f
    ensures n in Sanitized(f, true) <==>
              && n !in ["proxy-connection", "keep-alive", "proxy-authenticate", "proxy-authorization",
                        "te", "trailer", "transfer-encoding"]
              && (Lists(Values(f, "connection"), n) ==> n == "" || n == "close" || n == "upgrade")
    ensures n in Sanitized(f, true) ==> Sanitized(f, true)[n] == f[n]
  {
    assert HOP_NAMES[2] == "keep-alive";
  }

  /** A sanitized request carries no hop-by-hop header and none a readable Connection value names,
      `close` apart; every other header keeps its values. */
  lemma SanitizedIsClean(f: Fields, n: string)
    requires n in f
    ensures n in Sanitized(f, false) <==>
              && n !in ["connection", "proxy-connection", "keep-alive", "proxy-authenticate", "proxy-authorization",
                        "te", "trailer", "transfer-encoding", "upgrade"]
              && (Lists(Values(f, "connection"), n) ==> n == "" || n == "close")
    ensures n in Sanitized(f, false) ==> Sanitized(f, false)[n] == f[n]
  {
    assert HOP_NAMES[2] == "keep-alive";
  }

  /** A request that asks for an upgrade still does after sanitizing, unless its Connection header
      lists `connection` itself. */
  lemma UpgradeSurvives(f: Fields)
    requires IsUpgrade(f)
    ensures IsUpgrade(Sanitized(f, true)) <==> !Lists(Values(f, "connection"), "connection")
    ensures "upgrade" in Sanitized(f, true) && Sanitized(f, true)["upgrade"] == f["upgrade"]
  {
    var g := Sanitized(f, true);
    if Lists(Values(f, "connection"), "connection") {
      assert Values(g, "connection") == [];
    } else {
      assert Values(g, "connection") == Values(f, "connection");
    }
  }

  /** Sanitizing twice is sanitizing once. */
  lemma SanitizedIsIdempotent(f: Fields, keepUpgrade: bool)
    ensures Sanitized(Sanitized(f, keepUpgrade), keepUpgrade) == Sanitized(f, keepUpgrade)
  {
    var g := Sanitized(f, keepUpgrade);
    assert HOP_NAMES[0] == "connection";
    if "connection" in g {
      assert Values(g, "connection") == Values(f, "connection");
    } else {
      assert Values(g, "connection") == [];
    }
  }

  /** A response header its Connection header lists is dropped only when it is hop-by-hop or
      `server` anyway; every other header keeps its values. */
  lemma ResponseKeepsListed(f: Fields, n: string)
    requires n in f
    ensures n in Cleaned(f) <==> n !in HOP_NAMES && n != "server"
    ensures n in Cleaned(f) ==> Cleaned(f)[n] == f[n]
  {
  }

  /** Cleaning a response does what sanitizing it would, `server` apart, exactly when its Connection
      header lists no further header that it carries. */
  lemma CleanedIsSanitized(f: Fields)
    ensures Cleaned(f) == Without(Sanitized(f, false), {"server"}) <==>
              forall n | n in f && Lists(Values(f, "connection"), n) && !IsOption(n) :: n in HOP_NAMES || n == "server"
  {
    var a, b := Cleaned(f), Without(Sanitized(f, false), {"server"});
    if n :| n in f && Lists(Values(f, "connection"), n) && !IsOption(n) && n !in HOP_NAMES && n != "server" {
      assert n in a && n !in b;
    } else {
      forall n
        ensures n in a <==> n in b
      {
        if n in f && n !in HOP_NAMES && n != "server" { assert Drops(f, false, n) ==> Lists(Values(f, "connection"), n); }
      }
      assert a == b;
    }
  }

  /** A character that splitting, trimming and lower-casing leave alone. */
  predicate IsStable(c: char) {
    ' ' < c <= '~' && c != ',' && !('A' <= c <= 'Z')
  }

  lemma NameCharsAreStable(c: char)
    requires IsNameChar(c)
    ensures IsStable(c)
  {
    var others := "!#$%&'*+-.^_`|~";
    assert forall i | 0 <= i < |others| :: IsStable(others[i]);
  }

  lemma OneStableToken(n: string)
    requires n != "" && forall i | 0 <= i < |n| :: IsStable(n[i])
    ensures ValueLists(n, n)
  {
    var part := Part("", n, "");
    assert Print([part]) == n;
    assert IsSmall(part.core, n);
    assert Spells([part], n);
    PrintedTokens([part], n);
  }

  lemma OneToken(n: string)
    requires IsHeaderName(n)
    ensures ValueLists(n, n)
  {
    forall i | 0 <= i < |n|
      ensures IsStable(n[i])
    {
      NameCharsAreStable(n[i]);
    }
    OneStableToken(n);
  }

  /** A header that the Connection header of a response names goes through to the client, while the
      same header of a request does not. */
  lemma ListedResponseHeaderPasses(n: string, value: string)
    requires IsHeaderName(n) && n !in HOP_NAMES && n != "server" && !IsOption(n)
    ensures var f := map["connection" := [n], n := [value]];
            n in Cleaned(f) && n !in Sanitized(f, false)
  {
    var f := map["connection" := [n], n := [value]];
    assert HOP_NAMES[0] == "connection";
    OneToken(n);
    assert n in f["connection"];
  }

  // ---------- the forwarded request ----------

  /** The host a request is routed by: a readable Host header, or the authority of its URI. */
  function ForwardHost(f: Fields, authority: Option<string>): Option<string> {
    if "host" in f && f["host"] != [] && Readable(f["host"][0]) then Some(f["host"][0]) else authority
  }

  function ForwardedFor(f: Fields, ip: string): string {
    if "x-forwarded-for" in f && f["x-forwarded-for"] != [] && Readable(f["x-forwarded-for"][0])
    then f["x-forwarded-for"][0] + ", " + ip
    else ip
  }

  /** `add_forwarded`, for a host and an address that are valid header values. */
  function AddForwarded(f: Fields, ip: string, tls: bool, host: string): Fields {
    f["x-forwarded-for" := [ForwardedFor(f, ip)]]
     ["x-real-ip" := [ip]]
     ["x-forwarded-proto" := [if tls then "https" else "http"]]
     ["x-forwarded-host" := [Before(host, ':')]]
  }

  /** The header map of a forwarded request. */
  function Forwarded(f: Fields, ip: string, tls: bool, host: string): Fields {
    AddForwarded(Sanitized(f, IsUpgrade(f))["host" := [host]], ip, tls, host)
  }

  const FORWARD_NAMES := {"host", "x-forwarded-for", "x-real-ip", "x-forwarded-proto", "x-forwarded-host"}

  /** The first value of a header, when it is readable. */
  function FirstReadable(f: Fields, n: string): Option<string> {
    if n in f && f[n] != [] && Readable(f[n][0]) then Some(f[n][0]) else None
  }

  /** What the upstream may rely on. The Host it sees is the one the request was routed by, and the
      one the client sent whenever that was readable, even if Connection lists `host`. The client's
      address stands alone, or after the one incoming value that is readable and not listed. The
      other forwarding headers are the gateway's own, and all other headers pass unless dropped. */
  ghost predicate Trusted(f: Fields, authority: Option<string>, ip: string, tls: bool, out: Fields) {
    var sent, before := FirstReadable(f, "host"), FirstReadable(f, "x-forwarded-for");
    var host := if sent.Some? then sent else authority;
    && host.Some? && Values(out, "host") == [host.value]
    && Values(out, "x-forwarded-host") == [Before(host.value, ':')]
    && Values(out, "x-real-ip") == [ip]
    && Values(out, "x-forwarded-proto") == [if tls then "https" else "http"]
    && Values(out, "x-forwarded-for") ==
         [if before.Some? && !Lists(Values(f, "connection"), "x-forwarded-for") then before.value + ", " + ip else ip]
    && forall n | n !in FORWARD_NAMES ::
         (n in out <==> n in f && !Drops(f, IsUpgrade(f), n)) && (n in out ==> out[n] == f[n])
  }

  lemma ForwardedForSurvives(f: Fields)
    ensures Drops(f, IsUpgrade(f), "x-forwarded-for") <==> Lists(Values(f, "connection"), "x-forwarded-for")
  {
    var x := "x-forwarded-for";
    assert forall i | 0 <= i < |HOP_NAMES| :: |HOP_NAMES[i]| != |x| || HOP_NAMES[i][0] != x[0];
    assert x !in HOP_NAMES && !IsOption(x) && x != "upgrade";
  }

  lemma ForwardedForIs(f: Fields, ip: string, host: string)
    ensures var g := Sanitized(f, IsUpgrade(f))["host" := [host]];
            var before := FirstReadable(f, "x-forwarded-for");
            ForwardedFor(g, ip) ==
              if before.Some? && !Lists(Values(f, "connection"), "x-forwarded-for") then before.value + ", " + ip else ip
  {
    ForwardedForSurvives(f);
  }

  lemma ForwardedHeadersAreTrusted(f: Fields, authority: Option<string>, ip: string, tls: bool)
    requires ForwardHost(f, authority).Some?
    ensures Trusted(f, authority, ip, tls, Forwarded(f, ip, tls, ForwardHost(f, authority).value))
  {
    ForwardedForIs(f, ip, ForwardHost(f, authority).value);
  }

  datatype Outcome = NotFound | BadGateway | Forward(upstream: Upstream, upgrade: bool)

  /** The header part of `handle`. Whether the target URI parses is a parameter. */
  method Handle(headers: HeaderMap, authority: Option<string>, routes: RouteTable, ip: string, tls: bool, targetOk: bool)
    returns (r: Outcome)
    requires WellFormed(headers.fields) && Readable(ip) && (authority.Some? ==> Readable(authority.value))
    modifies headers
    ensures var sent := FirstReadable(old(headers.fields), "host");
            var host := if sent.Some? then sent else authority;
            && (r.NotFound? <==> host.None? || Lookup(routes, host.value).None?)
            && (r.BadGateway? <==> !r.NotFound? && !targetOk)
            && (!r.Forward? ==> headers.fields == old(headers.fields))
            && (r.Forward? ==>
                  && r.upstream == Lookup(routes, host.value).value
                  && (r.upgrade <==>
                        "upgrade" in old(headers.fields) && Lists(Values(old(headers.fields), "connection"), "upgrade"))
                  && headers.fields == Forwarded(old(headers.fields), ip, tls, host.value)
                  && Trusted(old(headers.fields), authority, ip, tls, headers.fields))
  {
    var host := ForwardHost(headers.fields, authority);
    if host.None? || Lookup(routes, host.value).None? {
      return NotFound;
    }
    var upgrade := IsUpgrade(headers.fields);
    if !targetOk {
      return BadGateway;
    }
    ForwardedHeadersAreTrusted(headers.fields, authority, ip, tls);
    headers.Sanitize(upgrade);
    headers.Insert("host", host.value);
    var f := headers.fields;
    headers.Insert("x-forwarded-for", ForwardedFor(f, ip));
    headers.Insert("x-real-ip", ip);
    headers.Insert("x-forwarded-proto", if tls then "https" else "http");
    headers.Insert("x-forwarded-host", Before(host.value, ':'));
    return Forward(Lookup(routes, host.value).value, upgrade);
  }
}
