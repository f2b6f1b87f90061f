/** The gateway's route table: parsed from a block of `host -> http://upstream:port` lines, looked
    up by the host of a request. Parsing of the upstream URI is a parameter. */
module GatewayRoutes {
  import opened Text

  datatype Upstream = Upstream(authority: string)
  datatype RouteTable = RouteTable(exact: map<string, Upstream>, catchAll: Option<Upstream>)
  datatype Parsed = Accepted(table: RouteTable) | Refused(line: nat)
  type Parser = string -> Option<Upstream>

  // ---------- what a line says ----------

  datatype Line = Blank | Malformed | Route(host: string, up: Upstream)

  function ReadLine(raw: string, parse: Parser): (r: Line)
    ensures r.Route? ==> Lower(r.host) == r.host
  {
    var line := Trim(Before(raw, '#'));
    if line == "" then Blank else
    match Find(line, "->")
    case None => Malformed
    case Some(i) =>
      match parse(Trim(line[i + 2..]))
      case None => Malformed
      case Some(up) =>
        LowerTwice(Trim(line[..i]));
        Route(Lower(Trim(line[..i])), up)
  }

  /** The lines of a route block. */
  function ReadLines(s: string, parse: Parser): (r: seq<Line>)
    ensures |r| == |Lines(s)|
  {
    seq(|Lines(s)|, i requires 0 <= i < |Lines(s)| => ReadLine(Lines(s)[i], parse))
  }

  predicate IsCatchAll(host: string) {
    host == "*" || host == "_"
  }

  // ---------- the simple rule ----------

  /** The upstream of the last line that routes one of the hosts. */
  function LastRoute(lines: seq<Line>, hosts: set<string>): Option<Upstream> {
    if lines == [] then None
    else
      var last := lines[|lines| - 1];
      if last.Route? && last.host in hosts then Some(last.up) else LastRoute(lines[..|lines| - 1], hosts)
  }

  /** The last line with the lower-cased host of the request, or else the last catch-all line. */
  function Rule(lines: seq<Line>, host: string): Option<Upstream> {
    var name := Lower(Before(host, ':'));
    var named := if name in {"", "*", "_"} then None else LastRoute(lines, {name});
    if named.Some? then named else LastRoute(lines, {"*", "_"})
  }

  // ---------- the table ----------

  /** `lookup`: probes with the host as it came, then lower-cased, then the catch-all. */
  function Lookup(t: RouteTable, host: string): Option<Upstream> {
    var bare := Before(host, ':');
    if bare in t.exact then Some(t.exact[bare])
    else if Lower(bare) in t.exact then Some(t.exact[Lower(bare)])
    else t.catchAll
  }

  /** The table holds what the lines say, and only lower-cased hosts. */
  ghost predicate Represents(t: RouteTable, lines: seq<Line>) {
    && t.catchAll == LastRoute(lines, {"*", "_"})
    && (forall h | h in t.exact :: Lower(h) == h && h !in {"", "*", "_"})
    && (forall h | h !in {"", "*", "_"} :: LastRoute(lines, {h}) == if h in t.exact then Some(t.exact[h]) else None)
  }

  lemma LastRouteStep(lines: seq<Line>, line: Line, hosts: set<string>)
    ensures LastRoute(lines + [line], hosts) ==
              if line.Route? && line.host in hosts then Some(line.up) else LastRoute(lines, hosts)
  {
    assert (lines + [line])[..|lines|] == lines;
  }

  function Add(t: RouteTable, line: Line): RouteTable {
    if !line.Route? then t
    else if IsCatchAll(line.host) then t.(catchAll := Some(line.up))
    else if line.host != "" then t.(exact := t.exact[line.host := line.up])
    else t
  }

  lemma AddRepresents(t: RouteTable, lines: seq<Line>, line: Line)
    requires Represents(t, lines) && (line.Route? ==> Lower(line.host) == line.host)
    ensures Represents(Add(t, line), lines + [line])
  {
    var t' := Add(t, line);
    LastRouteStep(lines, line, {"*", "_"});
    forall h | h !in {"", "*", "_"}
      ensures LastRoute(lines + [line], {h}) == if h in t'.exact then Some(t'.exact[h]) else None
    {
      LastRouteStep(lines, line, {h});
    }
  }

  lemma AddLine(t: RouteTable, lines: seq<Line>, i: nat)
    requires i < |lines| && Represents(t, lines[..i])
    requires lines[i].Route? ==> Lower(lines[i].host) == lines[i].host
    ensures Represents(Add(t, lines[i]), lines[..i + 1])
    ensures Malformed in lines[..i + 1] <==> Malformed in lines[..i] || lines[i] == Malformed
  {
    AddRepresents(t, lines[..i], lines[i]);
    assert lines[..i + 1] == lines[..i] + [lines[i]];
  }

  /** `from_env_str`: accepts exactly when no line is malformed, and otherwise names the first
      malformed line. */
  method FromEnvStr(s: string, parse: Parser) returns (r: Parsed)
    ensures r.Accepted? <==> Malformed !in ReadLines(s, parse)
    ensures r.Accepted? ==> Represents(r.table, ReadLines(s, parse))
    ensures r.Refused? ==>
              && 1 <= r.line <= |Lines(s)| && ReadLines(s, parse)[r.line - 1] == Malformed
              && Malformed !in ReadLines(s, parse)[..r.line - 1]
  {
    var lines := Lines(s);
    ghost var all := ReadLines(s, parse);
    var exact: map<string, Upstream> := map[];
    var catchAll: Option<Upstream> := None;
    for i := 0 to |lines|
      invariant Represents(RouteTable(exact, catchAll), all[..i])
      invariant Malformed !in all[..i]
    {
      var line := ReadLine(lines[i], parse);
      AddLine(RouteTable(exact, catchAll), all, i);
      match line
      case Blank =>
      case Malformed =>
        assert all[i] in all;
        return Refused(i + 1);
      case Route(host, up) =>
        if IsCatchAll(host) {
          catchAll := Some(up);
        } else if host != "" {
          exact := exact[host := up];
        }
    }
    assert all[..|lines|] == all;
    return Accepted(RouteTable(exact, catchAll));
  }

  /** Looking up equals the simple rule for every accepted table and host; in particular the first
      probe, with the host as it came, never changes the answer. */
  lemma LookupIsRule(t: RouteTable, lines: seq<Line>, host: string)
    requires Represents(t, lines)
    ensures Lookup(t, host) == Rule(lines, host)
  {
    var bare := Before(host, ':');
    LowerTwice(bare);
    if bare in t.exact { assert Lower(bare) == bare; }
  }

  // ---------- printed lines ----------

  /** A route line: a host and an upstream around an arrow, blanks anywhere between, and a comment. */
  datatype RouteText = RouteText(left: string, host: string, before: string, after: string, target: string, right: string)

  function Core(r: RouteText): string {
    r.host + (r.before + ("->" + (r.after + r.target)))
  }

  predicate IsRouteText(r: RouteText) {
    && AllSpace(r.left) && AllSpace(r.before) && AllSpace(r.after) && AllSpace(r.right)
    && IsTrimmed(r.host) && IsTrimmed(r.target) && '#' !in r.host && '#' !in r.target
    && (r.host == "" ==> r.before == "") && (r.target == "" ==> r.after == "")
    && !Contains(r.host, "->")
  }

  lemma CoreIsTrimmed(r: RouteText)
    requires IsRouteText(r)
    ensures IsTrimmed(Core(r)) && Core(r) != "" && '#' !in Core(r)
  {
    var s := Core(r);
    assert s[0] == if r.host == "" then '-' else r.host[0];
    assert s[|s| - 1] == if r.target == "" then '>' else r.target[|r.target| - 1];
    assert forall c | c in r.before || c in r.after :: IsSpace(c);
  }

  lemma ArrowAt(r: RouteText)
    requires IsRouteText(r)
    ensures Find(Core(r), "->").Some? && Find(Core(r), "->").value == |r.host| + |r.before|
  {
    var s, head, arrow := Core(r), r.host + r.before, "->";
    assert s == head + (arrow + (r.after + r.target));
    assert s[|head|] == '-' && s[|head| + 1] == '>';
    assert HasAt(s, arrow, |head|);
    forall j: nat | j < |head|
      ensures !HasAt(s, arrow, j)
    {
      NoArrowBefore(r, j);
      if HasAt(s, arrow, j) { ArrowLetters(s, j); }
    }
    FindIs(s, arrow, |head|);
  }

  lemma ArrowLetters(s: string, j: nat)
    requires HasAt(s, "->", j)
    ensures s[j] == '-' && s[j + 1] == '>'
  {
    var arrow := "->";
    assert s[j + 0] == arrow[0] && s[j + 1] == arrow[1];
  }

  lemma NoArrowBefore(r: RouteText, j: nat)
    requires IsRouteText(r) && j < |r.host| + |r.before|
    ensures Core(r)[j] != '-' || Core(r)[j + 1] != '>'
  {
    var s, n := Core(r), |r.host|;
    assert forall i | 0 <= i < n :: s[i] == r.host[i];
    assert forall i | 0 <= i < |r.before| :: s[n + i] == r.before[i];
    assert s[n + |r.before|] == '-';
    if j + 1 < n { NoArrowIn(r.host, j); }
  }

  lemma NoArrowIn(s: string, j: nat)
    requires !Contains(s, "->") && j + 1 < |s|
    ensures s[j] != '-' || s[j + 1] != '>'
  {
    var arrow := "->";
    assert !HasAt(s, arrow, j);
    var k :| 0 <= k < 2 && s[j + k] != arrow[k];
  }

  lemma BeforeComment(r: RouteText, comment: string)
    requires IsRouteText(r) && (comment == "" || comment[0] == '#')
    ensures Trim(Before(r.left + (Core(r) + r.right) + comment, '#')) == Core(r)
  {
    CoreIsTrimmed(r);
    assert forall i | 0 <= i < |r.left| :: IsSpace(r.left[i]);
    assert forall i | 0 <= i < |r.right| :: IsSpace(r.right[i]);
    BeforeIs(r.left + (Core(r) + r.right), '#', comment);
    TrimIs(r.left, Core(r), r.right);
  }

  lemma CoreParts(r: RouteText)
    requires IsRouteText(r)
    ensures var i := |r.host| + |r.before|;
            i + 2 <= |Core(r)| && Trim(Core(r)[..i]) == r.host && Trim(Core(r)[i + 2..]) == r.target
  {
    var i := |r.host| + |r.before|;
    assert Core(r)[..i] == "" + (r.host + r.before);
    TrimIs("", r.host, r.before);
    assert Core(r)[i + 2..] == r.after + (r.target + "");
    TrimIs(r.after, r.target, "");
  }

  /** The line routes the host in small letters to what the target parses to. */
  predicate Says(line: Line, host: string, up: Option<Upstream>) {
    if up.None? then line == Malformed else line.Route? && IsSmall(host, line.host) && line.up == up.value
  }

  /** The text is cut at its first arrow into a host and a target. */
  predicate Cuts(core: string, host: string, target: string) {
    var found := Find(core, "->");
    core != "" && found.Some? && Trim(core[..found.value]) == host && Trim(core[found.value + 2..]) == target
  }

  lemma CoreCuts(r: RouteText)
    requires IsRouteText(r)
    ensures Cuts(Core(r), r.host, r.target)
  {
    CoreIsTrimmed(r);
    ArrowAt(r);
    CoreParts(r);
  }

  lemma ReadsCore(raw: string, core: string, host: string, target: string, parse: Parser)
    requires Trim(Before(raw, '#')) == core && Cuts(core, host, target)
    ensures Says(ReadLine(raw, parse), host, parse(target))
  {
    LowerIsSmall(host, Lower(host));
  }

  /** What every printed line says, whatever the blanks and the comment. */
  lemma ReadsPrintedRoute(r: RouteText, comment: string, parse: Parser)
    requires IsRouteText(r) && (comment == "" || comment[0] == '#')
    ensures Says(ReadLine(r.left + (Core(r) + r.right) + comment, parse), r.host, parse(r.target))
  {
    BeforeComment(r, comment);
    CoreCuts(r);
    ReadsCore(r.left + (Core(r) + r.right) + comment, Core(r), r.host, r.target, parse);
  }

  /** Blank lines and comments say nothing; any other line without an arrow is malformed. */
  lemma ReadsOtherLines(left: string, text: string, right: string, comment: string, parse: Parser)
    requires AllSpace(left) && AllSpace(right) && IsTrimmed(text) && '#' !in text && !Contains(text, "->")
    requires comment == "" || comment[0] == '#'
    ensures ReadLine(left + (text + right) + comment, parse) == if text == "" then Blank else Malformed
  {
    assert forall i | 0 <= i < |left| :: IsSpace(left[i]);
    assert forall i | 0 <= i < |right| :: IsSpace(right[i]);
    BeforeIs(left + (text + right), '#', comment);
    TrimIs(left, text, right);
  }
}
