/** The trigger-install rewriter. A migration text is the sequence of its newline-terminated
    lines. A unit is a `CREATE OR REPLACE TRIGGER` line together with the `ALTER TABLE ... ENABLE
    REPLICA TRIGGER` line that may follow it. A unit the previous install already held is replaced
    by one guarded call of `scd_keep_trigger`. */
module TriggerInstall {
  import opened Text

  datatype Unit = Unit(rel: string, trig: string, replica: bool, create: string)

  const CREATE := "CREATE OR REPLACE TRIGGER "
  const CALL := "SELECT public.scd_keep_trigger("
  const DOLLAR := "$t$"
  const CLOSE := "$t$);"

  // ---------- recognising units ----------

  /** The longest prefix `\S*` matches. */
  function Word(s: string): (w: string)
    ensures w <= s
    ensures forall c | c in w :: !IsBlank(c)
  {
    if s == "" || IsBlank(s[0]) then "" else [s[0]] + Word(s[1..])
  }

  /** ` ON (\S+) FOR EACH .*;` matches all of `s`: the table it names. */
  function OnClause(s: string): (r: Option<string>)
    ensures r.Some? ==> s != "" && s[|s| - 1] == ';'
  {
    var named :- Strip(s, " ON ");
    var rel := Word(named);
    var end :- Strip(named[|rel|..], " FOR EACH ");
    if rel != "" && end != "" && end[|end| - 1] == ';' then Some(rel) else None
  }

  lemma WordIsName(s: string)
    ensures Word(s) != "" ==> IsName(Word(s))
  {
    assert forall i | 0 <= i < |Word(s)| :: Word(s)[i] in Word(s);
  }

  /** Every text it matches is a clause with a name for the table. */
  lemma ClauseReads(s: string) returns (end: string)
    requires OnClause(s).Some?
    ensures IsName(OnClause(s).value) && end != "" && end[|end| - 1] == ';'
    ensures s == " ON " + (OnClause(s).value + (" FOR EACH " + end))
  {
    var named := s[4..];
    var rel := Word(named);
    var rest := named[|rel|..];
    end := rest[10..];
    StripReads(s, " ON ");
    StripReads(rest, " FOR EACH ");
    assert named == rel + rest;
    WordIsName(named);
  }

  /** What `f` gives on the shortest suffix it accepts, as after a greedy `.*`. */
  function LastIn(f: string -> Option<string>, s: string): Option<string> {
    if s == "" then f(s) else
    var later := LastIn(f, s[1..]);
    if later.Some? then later else f(s)
  }

  /** `r` is what `f` gives at the rightmost place where it accepts the rest of `s`. */
  ghost predicate IsLast(f: string -> Option<string>, s: string, r: Option<string>) {
    (r.None? && forall q | 0 <= q <= |s| :: f(s[q..]).None?)
    || exists p | 0 <= p <= |s| :: f(s[p..]).Some? && f(s[p..]) == r && forall q | p < q <= |s| :: f(s[q..]).None?
  }

  lemma {:induction false} LastInIsLast(f: string -> Option<string>, s: string)
    ensures IsLast(f, s, LastIn(f, s))
  {
    assert s[0..] == s;
    if s != "" {
      var later := LastIn(f, s[1..]);
      LastInIsLast(f, s[1..]);
      assert forall q | 1 <= q <= |s| :: s[1..][q - 1..] == s[q..];
      if later.Some? {
        var p :| 0 <= p <= |s[1..]| && f(s[1..][p..]) == later && forall q | p < q <= |s[1..]| :: f(s[1..][q..]).None?;
        assert s[1..][p..] == s[p + 1..];
      } else {
        forall q | 1 <= q <= |s|
          ensures f(s[q..]).None?
        {
          assert s[1..][q - 1..] == s[q..];
        }
      }
    }
  }

  lemma {:induction false} LastInEnds(f: string -> Option<string>, s: string, c: char)
    requires forall x | f(x).Some? :: x != "" && x[|x| - 1] == c
    requires LastIn(f, s).Some?
    ensures s != "" && s[|s| - 1] == c
  {
    if s != "" && LastIn(f, s[1..]).Some? { LastInEnds(f, s[1..], c); }
  }

  /** The table of the last ON clause. */
  function LastOn(body: string): Option<string> {
    LastIn(OnClause, body)
  }

  /** It is the rightmost clause that matches up to the end of the line. */
  lemma LastOnIsLast(body: string)
    ensures IsLast(OnClause, body, LastOn(body))
    ensures LastOn(body).Some? ==> body != "" && body[|body| - 1] == ';'
  {
    LastInIsLast(OnClause, body);
    if LastOn(body).Some? { LastInEnds(OnClause, body, ';'); }
  }

  /** The trigger and the table a CREATE line names. */
  function ParseCreate(line: string): (r: Option<(string, string)>)
    ensures r.Some? ==> CREATE <= line && |line| > 0 && line[|line| - 1] == ';'
  {
    var rest :- Strip(line, CREATE);
    var trig := Word(rest);
    var body :- Strip(rest[|trig|..], " ");
    if trig == "" then None else
    LastOnIsLast(body);
    var rel :- LastOn(body);
    assert body == rest[|trig| + 1..];
    Some((trig, rel))
  }

  function AlterLine(rel: string, trig: string): string {
    "ALTER TABLE " + rel + " ENABLE REPLICA TRIGGER " + trig + ";"
  }

  /** `unit`: the lines of a unit. */
  function UnitLines(u: Unit): (r: seq<string>)
    ensures 1 <= |r| <= 2
  {
    [u.create] + if u.replica then [AlterLine(u.rel, u.trig)] else []
  }

  /** The unit the first line of `lines` starts. */
  function Head(lines: seq<string>): (r: Option<Unit>)
    requires lines != []
    ensures r.Some? ==> UnitLines(r.value) <= lines
  {
    var (trig, rel) :- ParseCreate(lines[0]);
    Some(Unit(rel, trig, |lines| > 1 && lines[1] == AlterLine(rel, trig), lines[0]))
  }

  /** The units of a text, in order. */
  function Units(lines: seq<string>): seq<Unit>
    decreases |lines|
  {
    if lines == [] then [] else
    match Head(lines)
    case None => Units(lines[1..])
    case Some(u) => [u] + Units(lines[|UnitLines(u)|..])
  }

  // ---------- the generator's own lines ----------

  /** The line `gen_triggers.trigger` prints for a trigger. */
  function TriggerLine(trig: string, timing: string, rel: string, rest: string): string {
    CREATE + (trig + (" " + TriggerBody(timing, rel, rest)))
  }

  function TriggerBody(timing: string, rel: string, rest: string): string {
    timing + (" ON " + (rel + (" FOR EACH " + (rest + ";"))))
  }

  predicate IsName(s: string) {
    s != "" && forall i | 0 <= i < |s| :: !IsBlank(s[i])
  }

  lemma {:induction false} WordIs(w: string, rest: string)
    requires forall i | 0 <= i < |w| :: !IsBlank(w[i])
    requires rest != "" && IsBlank(rest[0])
    ensures Word(w + rest) == w
  {
    if w == "" {
      assert w + rest == rest;
    } else {
      assert (w + rest)[1..] == w[1..] + rest;
      WordIs(w[1..], rest);
    }
  }

  lemma {:induction false} LastInSkip(f: string -> Option<string>, x: string, y: string)
    requires forall i | 0 <= i < |x| :: f((x + y)[i..]).None?
    ensures LastIn(f, x + y) == LastIn(f, y)
  {
    if x == "" {
      assert x + y == y;
    } else {
      assert (x + y)[1..] == x[1..] + y && (x + y)[0..] == x + y;
      assert forall i | 0 <= i < |x| - 1 :: (x[1..] + y)[i..] == (x + y)[i + 1..];
      LastInSkip(f, x[1..], y);
    }
  }

  lemma {:induction false} LastInLater(f: string -> Option<string>, x: string, y: string)
    requires LastIn(f, y).Some?
    ensures LastIn(f, x + y) == LastIn(f, y)
  {
    if x == "" {
      assert x + y == y;
    } else {
      assert (x + y)[1..] == x[1..] + y;
      LastInLater(f, x[1..], y);
    }
  }

  /** The printed ON clause names the printed table. */
  lemma ClausePrinted(rel: string, rest: string)
    requires IsName(rel)
    ensures OnClause(" ON " + (rel + (" FOR EACH " + (rest + ";")))) == Some(rel)
  {
    var each := " FOR EACH " + (rest + ";");
    StripPrefix(" ON ", rel + each);
    WordIs(rel, each);
    assert (rel + each)[|rel|..] == each;
    StripPrefix(" FOR EACH ", rest + ";");
  }

  lemma ClauseLetters(s: string)
    requires OnClause(s).Some?
    ensures |s| >= 4 && s[0] == ' ' && s[1] == 'O' && s[2] == 'N' && s[3] == ' '
  {
    var on := " ON ";
    assert on <= s;
    assert s[0] == on[0] && s[1] == on[1] && s[2] == on[2] && s[3] == on[3];
  }

  /** After a table named ON the clause would start with `FOR`, and does not match. */
  lemma NoClauseAtOn(rest: string)
    ensures OnClause(" ON FOR EACH " + rest).None?
  {
    var s := "FOR" + (" EACH " + rest);
    assert " ON FOR EACH " + rest == " ON " + s;
    StripPrefix(" ON ", s);
    WordIs("FOR", " EACH " + rest);
    var end := s[3..];
    assert end[1] == 'E' && " FOR EACH "[1] == 'F';
  }

  /** What stands between the ON clause's first character and the text after FOR EACH. */
  function Middle(rel: string): string {
    "ON " + (rel + " FOR EACH")
  }

  lemma MiddleLetters(rel: string, after: string, i: nat)
    requires IsName(rel) && i < |Middle(rel)| && after != "" && after[0] == ' '
    ensures var s := Middle(rel) + after;
            s[i] == ' ' && s[i + 1] == 'O' ==> i == 2
  {
    var s, each := Middle(rel) + after, " FOR EACH ";
    if 3 <= i < 3 + |rel| {
      assert s[i] == rel[i - 3];
    } else if i >= 3 + |rel| {
      assert s[i] == each[i - 3 - |rel|] && s[i + 1] == each[i - 2 - |rel|];
    }
  }

  lemma NoClauseInMiddle(rel: string, rest: string, i: nat)
    requires IsName(rel) && i < |Middle(rel)|
    ensures OnClause((Middle(rel) + AfterEach(rest))[i..]).None?
  {
    var s := Middle(rel) + AfterEach(rest);
    MiddleLetters(rel, AfterEach(rest), i);
    if i == 2 && rel == "ON" {
      assert s[2..] == " ON FOR EACH " + (rest + ";");
      NoClauseAtOn(rest + ";");
    } else {
      if i == 2 { NotNamedOn(rel, rest); }
      if OnClause(s[i..]).Some? { ClauseLetters(s[i..]); }
    }
  }

  lemma NotNamedOn(rel: string, rest: string)
    requires IsName(rel) && rel != "ON"
    ensures var s := (Middle(rel) + AfterEach(rest))[2..];
            |s| < 4 || s[1] != 'O' || s[2] != 'N' || s[3] != ' '
  {
    var s := (Middle(rel) + AfterEach(rest))[2..];
    assert forall i | 0 <= i < |rel| :: s[i + 1] == rel[i];
    assert s[|rel| + 1] == ' ';
    if |rel| == 2 { assert rel[0] != 'O' || rel[1] != 'N'; }
  }

  /** What follows FOR EACH, with the space before it. */
  function AfterEach(rest: string): string {
    " " + (rest + ";")
  }

  /** The table the recogniser reads: the printed one, unless the text after FOR EACH holds another
      ON clause that matches. */
  function TableRead(rel: string, rest: string): string {
    var later := LastOn(AfterEach(rest));
    if later.Some? then later.value else rel
  }

  lemma ClauseParts(rel: string, rest: string)
    ensures " ON " + (rel + (" FOR EACH " + (rest + ";"))) == [' '] + (Middle(rel) + AfterEach(rest))
  {
  }

  lemma LastInClause(f: string -> Option<string>, c: char, middle: string, after: string)
    requires forall i | 0 <= i < |middle| :: f((middle + after)[i..]).None?
    ensures LastIn(f, [c] + (middle + after)) ==
              if LastIn(f, after).Some? then LastIn(f, after) else f([c] + (middle + after))
  {
    LastInSkip(f, middle, after);
    assert ([c] + (middle + after))[1..] == middle + after;
  }

  lemma LastOnPrinted(timing: string, rel: string, rest: string)
    requires IsName(rel)
    ensures LastOn(TriggerBody(timing, rel, rest)) == Some(TableRead(rel, rest))
  {
    forall i | 0 <= i < |Middle(rel)|
      ensures OnClause((Middle(rel) + AfterEach(rest))[i..]).None?
    {
      NoClauseInMiddle(rel, rest, i);
    }
    LastInClause(OnClause, ' ', Middle(rel), AfterEach(rest));
    ClausePrinted(rel, rest);
    ClauseParts(rel, rest);
    LastInLater(OnClause, timing, [' '] + (Middle(rel) + AfterEach(rest)));
  }

  lemma ParsePrinted(trig: string, body: string)
    requires IsName(trig) && LastOn(body).Some?
    ensures ParseCreate(CREATE + (trig + (" " + body))) == Some((trig, LastOn(body).value))
  {
    StripPrefix(CREATE, trig + (" " + body));
    WordIs(trig, " " + body);
    assert (trig + (" " + body))[|trig|..] == " " + body;
    StripPrefix(" ", body);
  }

  /** Only lines of that form are read: the keyword, a name, and a text with an ON clause. */
  lemma CreateReads(line: string) returns (body: string)
    requires ParseCreate(line).Some?
    ensures var (trig, rel) := ParseCreate(line).value;
            IsName(trig) && LastOn(body) == Some(rel) && line == CREATE + (trig + (" " + body))
  {
    var rest := Strip(line, CREATE).value;
    var trig := Word(rest);
    body := Strip(rest[|trig|..], " ").value;
    StripReads(line, CREATE);
    StripReads(rest[|trig|..], " ");
    assert rest == trig + rest[|trig|..];
    WordIsName(rest);
  }

  /** Of every line the generator prints, the recogniser reads the printed trigger; it reads the
      printed table exactly when the last matching ON clause after FOR EACH, if any, names it too. */
  lemma PrintedTriggerIsRecognised(trig: string, timing: string, rel: string, rest: string)
    requires IsName(trig) && IsName(rel)
    ensures ParseCreate(TriggerLine(trig, timing, rel, rest)) == Some((trig, TableRead(rel, rest)))
  {
    LastOnPrinted(timing, rel, rest);
    ParsePrinted(trig, TriggerBody(timing, rel, rest));
  }

  /** A condition that itself holds an ON clause misleads it: the table is read from there. */
  lemma LaterClauseMisleads(trig: string, timing: string, rel: string, more: string, rel': string, rest: string)
    requires IsName(trig) && IsName(rel) && IsName(rel')
    ensures ParseCreate(TriggerLine(trig, timing, rel, more + (" ON " + (rel' + (" FOR EACH " + rest)))))
         == Some((trig, TableRead(rel', rest)))
  {
    PrintedTriggerIsRecognised(trig, timing, rel, more + (" ON " + (rel' + (" FOR EACH " + rest))));
    LaterClause(more, rel', rest);
    LastOnPrinted(" " + more, rel', rest);
  }

  lemma LaterClause(more: string, rel: string, rest: string)
    ensures AfterEach(more + (" ON " + (rel + (" FOR EACH " + rest)))) == TriggerBody(" " + more, rel, rest)
  {
  }

  lemma NoLaterClause(rest: string)
    requires forall i | 0 <= i < |rest| && rest[i] == 'O' :: i > 0 && rest[i - 1] != ' '
    ensures LastOn(AfterEach(rest)).None?
  {
    var s := AfterEach(rest);
    LastInIsLast(OnClause, s);
    forall q | 0 <= q <= |s|
      ensures OnClause(s[q..]).None?
    {
      if OnClause(s[q..]).Some? {
        ClauseLetters(s[q..]);
        OnlyAfterSpace(rest, q);
      }
    }
  }

  lemma OnlyAfterSpace(rest: string, q: nat)
    requires forall i | 0 <= i < |rest| && rest[i] == 'O' :: i > 0 && rest[i - 1] != ' '
    requires q + 1 < |AfterEach(rest)|
    ensures AfterEach(rest)[q] != ' ' || AfterEach(rest)[q + 1] != 'O'
  {
    if q < |rest| && rest[q] == 'O' { assert AfterEach(rest)[q] == rest[q - 1]; }
  }

  // ---------- guarded calls ----------

  function DoubledChar(c: char): string {
    if c == '\'' then "''" else [c]
  }

  function Doubled(s: string): string {
    if s == "" then "" else DoubledChar(s[0]) + Doubled(s[1..])
  }

  /** `lit`: a quoted SQL literal. */
  function Lit(s: string): string {
    "'" + Doubled(s) + "'"
  }

  function Flag(b: bool): string {
    if b then "true" else "false"
  }

  function KeptLine(u: Unit): string {
    CALL + (Lit(u.rel) + (", " + (Lit(u.trig) + (", " + (Flag(u.replica) + (", $t$" + (u.create + CLOSE)))))))
  }

  function ParseFlag(s: string): Option<(bool, string)> {
    if "true" <= s then Some((true, s[4..]))
    else if "false" <= s then Some((false, s[5..]))
    else None
  }

  /** `(true|false), \$t\$(.*)\$t\$\);` up to the end of the line. */
  function ParseFlagAndDdl(rel: string, trig: string, s: string): Option<Unit> {
    var (replica, d) :- ParseFlag(s);
    var e :- Strip(d, ", $t$");
    if |e| >= |CLOSE| && e[|e| - |CLOSE|..] == CLOSE
    then Some(Unit(rel, trig, replica, e[..|e| - |CLOSE|]))
    else None
  }

  /** `([^']*)', ` and what follows it. */
  function ParseTrigger(rel: string, s: string): Option<Unit> {
    var trig := Before(s, '\'');
    var rest :- Strip(s[|trig|..], "', ");
    ParseFlagAndDdl(rel, trig, rest)
  }

  /** `KEPT`: the unit a guarded call stands for, as the generator reads it back. */
  function ParseKept(line: string): (r: Option<Unit>)
    ensures r.Some? ==> CALL <= line
  {
    assert CALL <= CALL + "'";
    var s :- Strip(line, CALL + "'");
    var rel := Before(s, '\'');
    var rest :- Strip(s[|rel|..], "', '");
    ParseTrigger(rel, rest)
  }

  // ---------- the rewriter ----------

  function KeptUnits(lines: seq<string>): set<seq<string>> {
    set i | 0 <= i < |lines| && ParseKept(lines[i]).Some? :: UnitLines(ParseKept(lines[i]).value)
  }

  /** `known`: the units of the previous install, written out or kept. */
  function Known(lines: seq<string>): set<seq<string>> {
    (set u | u in Units(lines) :: UnitLines(u)) + KeptUnits(lines)
  }

  function Swap(u: Unit, known: set<seq<string>>): seq<string> {
    if UnitLines(u) in known then [KeptLine(u)] else UnitLines(u)
  }

  /** `UNIT.sub(swap, text)`. */
  function Rewrite(lines: seq<string>, known: set<seq<string>>): seq<string>
    decreases |lines|
  {
    if lines == [] then [] else
    match Head(lines)
    case None => [lines[0]] + Rewrite(lines[1..], known)
    case Some(u) => Swap(u, known) + Rewrite(lines[|UnitLines(u)|..], known)
  }

  /** `keep_unchanged`. */
  function KeepUnchanged(lines: seq<string>, previous: seq<string>): seq<string> {
    Rewrite(lines, Known(previous))
  }

  // ---------- facts about single lines ----------

  lemma PrefixesDiffer(s: string)
    ensures CREATE <= s ==> !(CALL <= s)
    ensures CALL <= s ==> s[0] == 'S'
    ensures CREATE <= s ==> s[0] == 'C'
  {
    if CALL <= s { assert s[0] == CALL[0]; }
    if CREATE <= s { assert s[0] == CREATE[0]; }
  }

  lemma KeptLineIsCall(u: Unit)
    ensures CALL <= KeptLine(u)
    ensures ParseCreate(KeptLine(u)).None?
    ensures forall rel, trig :: KeptLine(u) != AlterLine(rel, trig)
  {
    var line := KeptLine(u);
    assert CALL <= line;
    PrefixesDiffer(line);
    forall rel, trig
      ensures line != AlterLine(rel, trig)
    {
      assert AlterLine(rel, trig)[0] == 'A';
    }
  }

  lemma {:induction false} DoubledPlain(s: string)
    requires '\'' !in s
    ensures Doubled(s) == s
  {
    if s != "" { DoubledPlain(s[1..]); }
  }

  /** A doubled quote stops the reader of a quoted name short of the closing quote. */
  lemma {:induction false} DoubledQuoted(s: string, rest: string)
    requires '\'' in s
    ensures var b := Before(Doubled(s) + rest, '\'');
            |b| + 1 < |Doubled(s) + rest| && (Doubled(s) + rest)[|b| + 1] == '\''
  {
    var d := Doubled(s) + rest;
    if s[0] == '\'' {
      assert d[0] == '\'' && d[1] == '\'';
    } else {
      DoubledQuoted(s[1..], rest);
      assert d[1..] == Doubled(s[1..]) + rest;
    }
  }

  predicate Plain(u: Unit) {
    '\'' !in u.rel && '\'' !in u.trig
  }

  /** Reading a quoted name followed by `after`. */
  lemma ReadName(name: string, after: string)
    ensures '\'' !in name ==> Before(Doubled(name) + ("'" + after), '\'') == name
    ensures '\'' !in name ==> (Doubled(name) + ("'" + after))[|name|..] == "'" + after
    ensures '\'' in name ==>
              var s := Doubled(name) + ("'" + after);
              !("'," <= s[|Before(s, '\'')|..])
  {
    if '\'' in name {
      DoubledQuoted(name, "'" + after);
    } else {
      DoubledPlain(name);
      BeforeIs(name, '\'', "'" + after);
    }
  }

  lemma PrefixShorter(p: string, q: string, s: string)
    requires p <= q && !(p <= s)
    ensures Strip(s, q).None?
  {
  }

  lemma ReadFlag(b: bool, r: string)
    ensures ParseFlag(Flag(b) + r) == Some((b, r))
  {
    if !b {
      assert (Flag(b) + r)[0] == 'f';
    }
  }

  lemma ReadFlagAndDdl(u: Unit)
    ensures ParseFlagAndDdl(u.rel, u.trig, Flag(u.replica) + (", $t$" + (u.create + CLOSE))) == Some(u)
  {
    ReadFlag(u.replica, ", $t$" + (u.create + CLOSE));
    StripPrefix(", $t$", u.create + CLOSE);
    var e := u.create + CLOSE;
    assert e[|e| - |CLOSE|..] == CLOSE && e[..|e| - |CLOSE|] == u.create;
  }

  lemma ReadTrigger(u: Unit)
    ensures ParseTrigger(u.rel, Doubled(u.trig) + ("'" + (", " + (Flag(u.replica) + (", $t$" + (u.create + CLOSE))))))
         == if '\'' in u.trig then None else Some(u)
  {
    var r := Flag(u.replica) + (", $t$" + (u.create + CLOSE));
    var s := Doubled(u.trig) + ("'" + (", " + r));
    ReadName(u.trig, ", " + r);
    if '\'' in u.trig {
      PrefixShorter("',", "', ", s[|Before(s, '\'')|..]);
    } else {
      assert "'" + (", " + r) == "', " + r;
      StripPrefix("', ", r);
      ReadFlagAndDdl(u);
    }
  }

  lemma Quoted(a: string, b: string, c: string)
    ensures a + ("'" + b + "'" + c) == (a + "'") + (b + ("'" + c))
  {
  }

  lemma ReadRelation(rel: string, q: string, t: string)
    requires "'" + q == "', '" + t
    ensures ParseKept(CALL + (Lit(rel) + q)) == if '\'' in rel then None else ParseTrigger(rel, t)
  {
    var s := Doubled(rel) + ("'" + q);
    Quoted(CALL, Doubled(rel), q);
    StripPrefix(CALL + "'", s);
    ReadName(rel, q);
    if '\'' in rel {
      PrefixShorter("',", "', '", s[|Before(s, '\'')|..]);
    } else {
      StripPrefix("', '", t);
    }
  }

  /** The generator reads a guarded call back exactly when both names are free of quotes. */
  lemma ReadBack(u: Unit)
    ensures ParseKept(KeptLine(u)) == if Plain(u) then Some(u) else None
  {
    var r := ", " + (Flag(u.replica) + (", $t$" + (u.create + CLOSE)));
    var q := ", " + (Lit(u.trig) + r);
    Quoted("', ", Doubled(u.trig), r);
    assert "'" + q == "', " + (Lit(u.trig) + r);
    ReadRelation(u.rel, q, Doubled(u.trig) + ("'" + r));
    ReadTrigger(u);
  }

  lemma FlagReads(s: string)
    requires ParseFlag(s).Some?
    ensures s == Flag(ParseFlag(s).value.0) + ParseFlag(s).value.1
  {
  }

  lemma DdlReads(rel: string, trig: string, s: string)
    requires ParseFlagAndDdl(rel, trig, s).Some?
    ensures var u := ParseFlagAndDdl(rel, trig, s).value;
            u.rel == rel && u.trig == trig && s == Flag(u.replica) + (", $t$" + (u.create + CLOSE))
  {
    FlagReads(s);
    var d := ParseFlag(s).value.1;
    var e := d[5..];
    assert d == ", $t$" + e;
    assert e == e[..|e| - |CLOSE|] + CLOSE;
  }

  lemma NameReads(s: string, sep: string)
    requires Strip(s[|Before(s, '\'')|..], sep).Some?
    ensures s == Before(s, '\'') + (sep + Strip(s[|Before(s, '\'')|..], sep).value)
  {
    var b := Before(s, '\'');
    StripReads(s[|b|..], sep);
    assert s == b + s[|b|..];
  }

  lemma CallParts(rel: string, trig: string, r: string)
    requires '\'' !in rel && '\'' !in trig
    ensures CALL + (Lit(rel) + (", " + (Lit(trig) + (", " + r)))) == (CALL + "'") + (rel + ("', '" + (trig + ("', " + r))))
  {
    DoubledPlain(rel);
    DoubledPlain(trig);
    QuotedTwice(CALL, rel, trig, r);
  }

  lemma QuotedTwice(c: string, a: string, b: string, r: string)
    ensures c + (("'" + a + "'") + (", " + (("'" + b + "'") + (", " + r)))) == (c + "'") + (a + ("', '" + (b + ("', " + r))))
  {
  }

  /** Only the guarded calls of units with quote-free names are read. */
  lemma KeptReads(line: string)
    requires ParseKept(line).Some?
    ensures Plain(ParseKept(line).value) && line == KeptLine(ParseKept(line).value)
  {
    var s := Strip(line, CALL + "'").value;
    StripReads(line, CALL + "'");
    var rel := Before(s, '\'');
    NameReads(s, "', '");
    var t := Strip(s[|rel|..], "', '").value;
    var trig := Before(t, '\'');
    NameReads(t, "', ");
    var r := Strip(t[|trig|..], "', ").value;
    DdlReads(rel, trig, r);
    CallParts(rel, trig, r);
  }

  // ---------- what the rewriter keeps ----------

  lemma {:induction false} UnitsAppend(pre: seq<string>, u: Unit, rest: seq<string>)
    requires pre == UnitLines(u) && Head(pre + rest) == Some(u)
    ensures Units(pre + rest) == [u] + Units(rest)
  {
    assert (pre + rest)[|pre|..] == rest;
  }

  /** The first line of a rewritten text is the first line of the text or a guarded call. */
  lemma RewriteFirst(lines: seq<string>, known: set<seq<string>>)
    requires lines != []
    ensures Rewrite(lines, known) != []
    ensures Rewrite(lines, known)[0] == lines[0]
            || exists u :: Head(lines) == Some(u) && Rewrite(lines, known)[0] == KeptLine(u)
  {
  }

  /** A unit that is not swapped is recognised again in the rewritten text. */
  lemma HeadStays(lines: seq<string>, known: set<seq<string>>)
    requires lines != [] && Head(lines).Some?
    requires UnitLines(Head(lines).value) !in known
    ensures var u := Head(lines).value;
            var rest := Rewrite(lines[|UnitLines(u)|..], known);
            Rewrite(lines, known) == UnitLines(u) + rest && Head(UnitLines(u) + rest) == Some(u)
  {
    var u := Head(lines).value;
    var tail := lines[|UnitLines(u)|..];
    if !u.replica && tail != [] {
      assert tail[0] == lines[1];
      RewriteFirst(tail, known);
      if Rewrite(tail, known)[0] != tail[0] {
        var v :| Head(tail) == Some(v) && Rewrite(tail, known)[0] == KeptLine(v);
        KeptLineIsCall(v);
      }
    }
  }

  lemma HeadSwapped(u: Unit, rest: seq<string>)
    ensures Head([KeptLine(u)] + rest).None?
  {
    KeptLineIsCall(u);
  }

  /** The units a rewritten text still writes out are those that were not known. */
  lemma {:induction false} UnitsOfRewrite(lines: seq<string>, known: set<seq<string>>, u: Unit)
    ensures u in Units(Rewrite(lines, known)) <==> u in Units(lines) && UnitLines(u) !in known
    decreases |lines|
  {
    if lines != [] {
      match Head(lines)
      case None =>
        UnitsOfRewrite(lines[1..], known, u);
        assert ([lines[0]] + Rewrite(lines[1..], known))[1..] == Rewrite(lines[1..], known);
      case Some(v) =>
        var tail := lines[|UnitLines(v)|..];
        UnitsOfRewrite(tail, known, u);
        if UnitLines(v) in known {
          HeadSwapped(v, Rewrite(tail, known));
          assert ([KeptLine(v)] + Rewrite(tail, known))[1..] == Rewrite(tail, known);
        } else {
          HeadStays(lines, known);
          UnitsAppend(UnitLines(v), v, Rewrite(tail, known));
        }
    }
  }

  /** No line is a guarded call, as in every freshly rendered install. */
  predicate Fresh(lines: seq<string>) {
    forall i | 0 <= i < |lines| :: !(CALL <= lines[i])
  }

  /** The lines of a rewritten fresh text that are guarded calls are those of swapped units. */
  lemma {:induction false} CallsOfRewrite(lines: seq<string>, known: set<seq<string>>, s: string)
    requires Fresh(lines)
    requires CALL <= s
    ensures s in Rewrite(lines, known) <==>
              exists u :: u in Units(lines) && UnitLines(u) in known && s == KeptLine(u)
    decreases |lines|
  {
    if lines != [] {
      match Head(lines)
      case None =>
        CallsOfRewrite(lines[1..], known, s);
      case Some(v) =>
        var tail := lines[|UnitLines(v)|..];
        CallsOfRewrite(tail, known, s);
        assert forall u :: u in Units(lines) <==> u == v || u in Units(tail);
        assert forall x :: x in Rewrite(lines, known) <==> x in Swap(v, known) || x in Rewrite(tail, known);
        forall x | x in UnitLines(v)
          ensures x in lines
        {
        }
    }
  }

  /** A unit as the recogniser builds it: the names come from the CREATE line. */
  predicate Genuine(u: Unit) {
    ParseCreate(u.create) == Some((u.trig, u.rel))
  }

  lemma {:induction false} UnitsGenuine(lines: seq<string>, u: Unit)
    requires u in Units(lines)
    ensures Genuine(u) && u.create in lines
    decreases |lines|
  {
    match Head(lines)
    case None => UnitsGenuine(lines[1..], u);
    case Some(v) =>
      if u != v { UnitsGenuine(lines[|UnitLines(v)|..], u); }
  }

  lemma SameLinesSameUnit(u: Unit, v: Unit)
    requires Genuine(u) && Genuine(v) && UnitLines(u) == UnitLines(v)
    ensures u == v
  {
    assert UnitLines(u)[0] == u.create && UnitLines(v)[0] == v.create;
  }

  lemma FreshHasNoCalls(lines: seq<string>)
    requires Fresh(lines)
    ensures KeptUnits(lines) == {}
  {
  }

  /** What a rewritten install still knows: the units it writes out and the quote-free kept ones. */
  lemma KnownOfRewrite(lines: seq<string>, known: set<seq<string>>, x: seq<string>)
    requires Fresh(lines)
    ensures x in Known(Rewrite(lines, known)) <==>
              exists u :: u in Units(lines) && x == UnitLines(u) && (x in known ==> Plain(u))
  {
    var w := Rewrite(lines, known);
    if x in Known(w) {
      if u :| u in Units(w) && x == UnitLines(u) {
        UnitsOfRewrite(lines, known, u);
      } else {
        var i :| 0 <= i < |w| && ParseKept(w[i]).Some? && x == UnitLines(ParseKept(w[i]).value);
        CallsOfRewrite(lines, known, w[i]);
        var u :| u in Units(lines) && UnitLines(u) in known && w[i] == KeptLine(u);
        ReadBack(u);
      }
    }
    if u :| u in Units(lines) && x == UnitLines(u) && (x in known ==> Plain(u)) {
      UnitsOfRewrite(lines, known, u);
      if x in known {
        KeptLineIsCall(u);
        CallsOfRewrite(lines, known, KeptLine(u));
        var i :| 0 <= i < |w| && w[i] == KeptLine(u);
        ReadBack(u);
        assert ParseKept(w[i]) == Some(u);
      }
    }
  }

  /** Every swapped unit has quote-free names. */
  predicate PlainSwaps(lines: seq<string>, known: set<seq<string>>) {
    forall u | u in Units(lines) && UnitLines(u) in known :: Plain(u)
  }

  /** A rewritten install is known by the units of the text before rewriting, exactly when no
      swapped unit has a quote in a name. */
  lemma KnownSurvives(lines: seq<string>, known: set<seq<string>>)
    requires Fresh(lines)
    ensures Known(Rewrite(lines, known)) <= Known(lines)
    ensures Known(Rewrite(lines, known)) == Known(lines) <==> PlainSwaps(lines, known)
  {
    FreshHasNoCalls(lines);
    var after, before := Known(Rewrite(lines, known)), Known(lines);
    forall x | x in after
      ensures x in before
    {
      KnownOfRewrite(lines, known, x);
    }
    if PlainSwaps(lines, known) {
      forall x | x in before
        ensures x in after
      {
        KnownOfRewrite(lines, known, x);
      }
    } else {
      var u :| u in Units(lines) && UnitLines(u) in known && !Plain(u);
      KnownOfRewrite(lines, known, UnitLines(u));
      if UnitLines(u) in after {
        var v :| v in Units(lines) && UnitLines(u) == UnitLines(v) && Plain(v);
        UnitsGenuine(lines, u);
        UnitsGenuine(lines, v);
        SameLinesSameUnit(u, v);
      }
      assert UnitLines(u) in before;
    }
  }

  /** Rewriting against a rewritten install is rewriting against the original. */
  lemma RewriteAgainstRewritten(lines: seq<string>, previous: seq<string>, older: seq<string>)
    requires Fresh(previous) && PlainSwaps(previous, Known(older))
    ensures KeepUnchanged(lines, KeepUnchanged(previous, older)) == KeepUnchanged(lines, previous)
  {
    KnownSurvives(previous, Known(older));
  }

  function ExpandLine(line: string): seq<string> {
    match ParseKept(line)
    case None => [line]
    case Some(u) => UnitLines(u)
  }

  /** Writes every guarded call out as the unit it stands for. */
  function Expand(lines: seq<string>): seq<string> {
    if lines == [] then [] else ExpandLine(lines[0]) + Expand(lines[1..])
  }

  lemma {:induction false} ExpandAppend(a: seq<string>, b: seq<string>)
    ensures Expand(a + b) == Expand(a) + Expand(b)
  {
    if a == [] {
      assert a + b == b;
    } else {
      assert (a + b)[0] == a[0] && (a + b)[1..] == a[1..] + b;
      ExpandAppend(a[1..], b);
      Assoc(ExpandLine(a[0]), Expand(a[1..]), Expand(b));
    }
  }

  lemma {:induction false} ExpandFresh(lines: seq<string>)
    requires Fresh(lines)
    ensures Expand(lines) == lines
  {
    if lines != [] { ExpandFresh(lines[1..]); }
  }

  lemma {:induction false} ExpandKeeps(lines: seq<string>, s: string)
    requires s in lines && ParseKept(s).None?
    ensures s in Expand(lines)
  {
    if lines[0] != s { ExpandKeeps(lines[1..], s); }
  }

  /** Expanding a rewritten install gives the text back, exactly when no swapped unit has a quote
      in a name. */
  lemma {:induction false} ExpandUndoesRewrite(lines: seq<string>, known: set<seq<string>>)
    requires Fresh(lines)
    ensures Expand(Rewrite(lines, known)) == lines <==> PlainSwaps(lines, known)
  {
    if PlainSwaps(lines, known) {
      ExpandPlain(lines, known);
    } else {
      var u :| u in Units(lines) && UnitLines(u) in known && !Plain(u);
      KeptLineIsCall(u);
      CallsOfRewrite(lines, known, KeptLine(u));
      ReadBack(u);
      ExpandKeeps(Rewrite(lines, known), KeptLine(u));
    }
  }

  lemma ExpandKept(u: Unit)
    requires Plain(u)
    ensures Expand([KeptLine(u)]) == UnitLines(u)
  {
    ReadBack(u);
    assert [KeptLine(u)][1..] == [];
  }

  lemma ExpandSwap(u: Unit, known: set<seq<string>>, rest: seq<string>)
    requires UnitLines(u) in known ==> Plain(u)
    requires Fresh(UnitLines(u))
    ensures Expand(Swap(u, known) + rest) == UnitLines(u) + Expand(rest)
  {
    ExpandAppend(Swap(u, known), rest);
    if UnitLines(u) in known { ExpandKept(u); } else { ExpandFresh(UnitLines(u)); }
  }

  lemma {:induction false} ExpandPlain(lines: seq<string>, known: set<seq<string>>)
    requires Fresh(lines) && PlainSwaps(lines, known)
    ensures Expand(Rewrite(lines, known)) == lines
    decreases |lines|
  {
    if lines != [] {
      match Head(lines)
      case None =>
        ExpandPlain(lines[1..], known);
        ExpandFresh([lines[0]]);
        ExpandAppend([lines[0]], Rewrite(lines[1..], known));
      case Some(u) =>
        var first, tail := UnitLines(u), lines[|UnitLines(u)|..];
        assert lines == first + tail;
        assert forall i | 0 <= i < |first| :: first[i] == lines[i];
        assert Units(lines) == [u] + Units(tail);
        ExpandPlain(tail, known);
        ExpandSwap(u, known, Rewrite(tail, known));
    }
  }

  /** A name with a quote: the install that keeps the unit no longer knows it. */
  lemma QuotedNameIsForgotten()
    ensures var lines := [TriggerLine("a'b", "BEFORE INSERT", "t", "ROW EXECUTE FUNCTION f()")];
            Fresh(lines) && Known(Rewrite(lines, Known(lines))) != Known(lines)
  {
    var rest := "ROW EXECUTE FUNCTION f()";
    var line := TriggerLine("a'b", "BEFORE INSERT", "t", rest);
    NoLaterClause(rest);
    PrintedTriggerIsRecognised("a'b", "BEFORE INSERT", "t", rest);
    var u := Unit("t", "a'b", false, line);
    assert Head([line]) == Some(u);
    assert Units([line]) == [u] + Units([]);
    assert u in Units([line]);
    assert UnitLines(u) in Known([line]);
    assert u.trig[1] == '\'';
    assert CREATE <= line;
    PrefixesDiffer(line);
    KnownSurvives([line], Known([line]));
  }

  // ---------- printed installs ----------

  /** A trigger as the generator prints it, and any other line of an install. */
  datatype Printed = Printed(trig: string, timing: string, rel: string, rest: string, replica: bool)
  datatype Item = Made(printed: Printed) | Other(line: string)

  function CreateLine(p: Printed): string {
    TriggerLine(p.trig, p.timing, p.rel, p.rest)
  }

  function PrintedLines(p: Printed): seq<string> {
    if p.replica
    then [CreateLine(p), "ALTER TABLE " + p.rel + " ENABLE REPLICA TRIGGER " + p.trig + ";"]
    else [CreateLine(p)]
  }

  function ItemLines(x: Item): seq<string> {
    match x
    case Made(p) => PrintedLines(p)
    case Other(line) => [line]
  }

  function TextOf(items: seq<Item>): seq<string> {
    if items == [] then [] else ItemLines(items[0]) + TextOf(items[1..])
  }

  predicate IsItem(x: Item) {
    match x
    case Made(p) => IsName(p.trig) && IsName(p.rel)
    case Other(line) => !("CREATE OR REPLACE TRIGGER " <= line) && !("ALTER TABLE " <= line)
  }

  predicate AreItems(items: seq<Item>) {
    forall i | 0 <= i < |items| :: IsItem(items[i])
  }

  predicate ReadsAsPrinted(p: Printed) {
    TableRead(p.rel, p.rest) == p.rel
  }

  /** The unit a printed trigger is recognised as. */
  function UnitOf(p: Printed): Unit {
    Unit(TableRead(p.rel, p.rest), p.trig, p.replica && ReadsAsPrinted(p), CreateLine(p))
  }

  function UnitsOf(items: seq<Item>): seq<Unit> {
    if items == [] then []
    else (if items[0].Made? then [UnitOf(items[0].printed)] else []) + UnitsOf(items[1..])
  }

  predicate NoAlter(lines: seq<string>) {
    lines != [] ==> !("ALTER TABLE " <= lines[0])
  }

  lemma CreateLineStarts(p: Printed)
    ensures CREATE <= CreateLine(p) && CreateLine(p)[0] == 'C' && !("ALTER TABLE " <= CreateLine(p))
  {
    PrefixesDiffer(CreateLine(p));
    var s, a := CreateLine(p), "ALTER TABLE ";
    assert s[0] != a[0];
  }

  lemma TextHasNoAlter(items: seq<Item>)
    requires AreItems(items)
    ensures NoAlter(TextOf(items))
  {
    if items != [] && items[0].Made? { CreateLineStarts(items[0].printed); }
  }

  lemma AlterLineIs(rel: string, trig: string, rel': string)
    ensures "ALTER TABLE " <= AlterLine(rel, trig)
    ensures AlterLine(rel, trig) == "ALTER TABLE " + rel' + " ENABLE REPLICA TRIGGER " + trig + ";" <==> rel == rel'
  {
    var s, s' := AlterLine(rel, trig), "ALTER TABLE " + rel' + " ENABLE REPLICA TRIGGER " + trig + ";";
    if s == s' {
      assert |rel| == |rel'|;
      assert rel == s[12..12 + |rel|] && rel' == s'[12..12 + |rel'|];
    }
  }

  /** The replica flag of the recognised unit: the very next line names the same table and trigger. */
  lemma HeadPrinted(p: Printed, more: seq<string>)
    requires IsName(p.trig) && IsName(p.rel) && NoAlter(more)
    ensures Head(PrintedLines(p) + more) == Some(UnitOf(p))
  {
    var lines := PrintedLines(p) + more;
    PrintedTriggerIsRecognised(p.trig, p.timing, p.rel, p.rest);
    AlterLineIs(TableRead(p.rel, p.rest), p.trig, p.rel);
    assert lines[0] == CreateLine(p);
    if p.replica {
      assert lines[1] == PrintedLines(p)[1];
    } else if more != [] {
      assert lines[1] == more[0];
    }
  }

  lemma UnitLinesPrinted(p: Printed)
    ensures UnitLines(UnitOf(p)) == if p.replica && !ReadsAsPrinted(p) then [CreateLine(p)] else PrintedLines(p)
  {
  }

  lemma SkipAlter(rel: string, trig: string, more: seq<string>)
    ensures Units(["ALTER TABLE " + rel + " ENABLE REPLICA TRIGGER " + trig + ";"] + more) == Units(more)
  {
    var line := "ALTER TABLE " + rel + " ENABLE REPLICA TRIGGER " + trig + ";";
    assert line[0] == 'A';
    PrefixesDiffer(line);
    assert ([line] + more)[1..] == more;
  }

  lemma TwoLines(a: string, b: string, more: seq<string>)
    ensures [a, b] + more == [a] + ([b] + more)
  {
  }

  lemma UnitsOfPrinted(p: Printed, more: seq<string>)
    requires IsName(p.trig) && IsName(p.rel) && NoAlter(more)
    ensures Units(PrintedLines(p) + more) == [UnitOf(p)] + Units(more)
  {
    var lines, u := PrintedLines(p) + more, UnitOf(p);
    HeadPrinted(p, more);
    UnitLinesPrinted(p);
    if p.replica && !ReadsAsPrinted(p) {
      var alter := "ALTER TABLE " + p.rel + " ENABLE REPLICA TRIGGER " + p.trig + ";";
      TwoLines(CreateLine(p), alter, more);
      UnitsAppend([CreateLine(p)], u, [alter] + more);
      SkipAlter(p.rel, p.trig, more);
    } else {
      UnitsAppend(PrintedLines(p), u, more);
    }
  }

  /** From every printed install exactly the printed triggers are recognised, in order and with
      their replica flags. */
  lemma {:induction false} PrintedInstallIsRecognised(items: seq<Item>)
    requires AreItems(items)
    ensures Units(TextOf(items)) == UnitsOf(items)
  {
    if items != [] {
      var more := TextOf(items[1..]);
      PrintedInstallIsRecognised(items[1..]);
      match items[0]
      case Made(p) =>
        TextHasNoAlter(items[1..]);
        UnitsOfPrinted(p, more);
      case Other(line) =>
        assert ([line] + more)[1..] == more;
    }
  }

  // ---------- shipped installs ----------

  /** The guarded call shipped for a trigger with quote-free names. */
  function CallText(p: Printed): string {
    "SELECT public.scd_keep_trigger('" + p.rel + "', '" + p.trig + "', "
    + (if p.replica then "true" else "false") + ", $t$" + CreateLine(p) + "$t$);"
  }

  predicate IsPlain(p: Printed) {
    '\'' !in p.rel && '\'' !in p.trig
  }

  function ShippedItem(x: Item, known: set<seq<string>>): seq<string> {
    if x.Made? && PrintedLines(x.printed) in known then [CallText(x.printed)] else ItemLines(x)
  }

  function ShippedText(items: seq<Item>, known: set<seq<string>>): seq<string> {
    if items == [] then [] else ShippedItem(items[0], known) + ShippedText(items[1..], known)
  }

  lemma KeptLineText(rel: string, trig: string, flag: string, create: string)
    ensures CALL + ("'" + rel + "'" + (", " + ("'" + trig + "'" + (", " + (flag + (", $t$" + (create + CLOSE)))))))
         == "SELECT public.scd_keep_trigger('" + rel + "', '" + trig + "', " + flag + ", $t$" + create + "$t$);"
  {
  }

  lemma CallIsKeptLine(p: Printed)
    requires IsPlain(p) && ReadsAsPrinted(p)
    ensures KeptLine(UnitOf(p)) == CallText(p)
  {
    DoubledPlain(p.rel);
    DoubledPlain(p.trig);
    KeptLineText(p.rel, p.trig, if p.replica then "true" else "false", CreateLine(p));
  }

  lemma RewriteHead(lines: seq<string>, pre: seq<string>, more: seq<string>, u: Unit, known: set<seq<string>>)
    requires lines == pre + more && pre != [] && Head(lines) == Some(u) && UnitLines(u) == pre
    ensures Rewrite(lines, known) == (if pre in known then [KeptLine(u)] else pre) + Rewrite(more, known)
  {
    assert lines[|pre|..] == more;
  }

  lemma RewriteOther(line: string, more: seq<string>, known: set<seq<string>>)
    requires !(CREATE <= line)
    ensures Rewrite([line] + more, known) == [line] + Rewrite(more, known)
  {
    assert ([line] + more)[1..] == more;
  }

  /** The shipped text of every printed install, item by item. */
  lemma {:induction false} ShippedInstallIs(items: seq<Item>, known: set<seq<string>>)
    requires AreItems(items)
    requires forall i | 0 <= i < |items| && items[i].Made? :: IsPlain(items[i].printed) && ReadsAsPrinted(items[i].printed)
    ensures Rewrite(TextOf(items), known) == ShippedText(items, known)
  {
    if items != [] {
      var more := TextOf(items[1..]);
      ShippedInstallIs(items[1..], known);
      match items[0]
      case Made(p) =>
        TextHasNoAlter(items[1..]);
        HeadPrinted(p, more);
        UnitLinesPrinted(p);
        RewriteHead(PrintedLines(p) + more, PrintedLines(p), more, UnitOf(p), known);
        CallIsKeptLine(p);
      case Other(line) => RewriteOther(line, more, known);
    }
  }
}
