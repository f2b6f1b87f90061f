/** Running install texts. The database is the table of triggers: the statement that made each
    trigger and its firing mode. Rewriting an install must not change the table it leaves. */
module TriggerDatabase {
  import opened Text
  import opened TriggerInstall

  /** `tgenabled`: origin ('O'), replica ('R'), always ('A') or disabled ('D'). */
  datatype Mode = Origin | Replica | Always | Disabled
  datatype Trigger = Trigger(ddl: string, mode: Mode)
  type Key = (string, string)
  type Table = map<Key, Trigger>

  function KeyOf(u: Unit): Key {
    (u.rel, u.trig)
  }

  function Wanted(u: Unit): Mode {
    if u.replica then Replica else Origin
  }

  // ---------- SQL reading of a guarded call ----------

  /** The rest of a quoted literal, doubled quotes undone, and the text after it. */
  function LitBody(s: string): Option<(string, string)> {
    if s == "" then None
    else if s[0] != '\'' then
      var (t, r) :- LitBody(s[1..]);
      Some(([s[0]] + t, r))
    else if |s| > 1 && s[1] == '\'' then
      var (t, r) :- LitBody(s[2..]);
      Some((['\''] + t, r))
    else Some(("", s[1..]))
  }

  function ReadLit(s: string): Option<(string, string)> {
    var body :- Strip(s, "'");
    LitBody(body)
  }

  function ReadDdl(rel: string, trig: string, s: string): Option<Unit> {
    var (replica, d) :- ParseFlag(s);
    var e :- Strip(d, ", $t$");
    var i :- Find(e, DOLLAR);
    if e[i..] == CLOSE then Some(Unit(rel, trig, replica, e[..i])) else None
  }

  /** The arguments a guarded call passes. */
  function ReadCall(line: string): (r: Option<Unit>)
    ensures r.Some? ==> CALL <= line
  {
    var a :- Strip(line, CALL);
    var (rel, b) :- ReadLit(a);
    var c :- Strip(b, ", ");
    var (trig, d) :- ReadLit(c);
    var e :- Strip(d, ", ");
    ReadDdl(rel, trig, e)
  }

  lemma LitStep(c: char, s: string)
    requires LitBody(s).Some?
    ensures LitBody(DoubledChar(c) + s) == Some(([c] + LitBody(s).value.0, LitBody(s).value.1))
  {
    if c == '\'' {
      assert ("''" + s)[2..] == s;
    } else {
      assert ([c] + s)[1..] == s;
    }
  }

  lemma {:induction false} LitBack(x: string, r: string)
    requires r == "" || r[0] != '\''
    ensures LitBody(Doubled(x) + ("'" + r)) == Some((x, r))
  {
    var end := "'" + r;
    if x == "" {
      assert Doubled(x) + end == end && end[1..] == r;
    } else {
      LitBack(x[1..], r);
      LitStep(x[0], Doubled(x[1..]) + end);
      Assoc(DoubledChar(x[0]), Doubled(x[1..]), end);
      assert x == [x[0]] + x[1..];
    }
  }

  lemma ReadLitBack(x: string, r: string)
    requires r == "" || r[0] != '\''
    ensures ReadLit(Lit(x) + r) == Some((x, r))
  {
    assert Lit(x) + r == "'" + (Doubled(x) + ("'" + r));
    StripPrefix("'", Doubled(x) + ("'" + r));
    LitBack(x, r);
  }

  /** The statement fits between the dollar quotes. */
  predicate Quotable(create: string) {
    !Contains(create, DOLLAR) && create != "" && create[|create| - 1] == ';'
  }

  lemma DdlEnd(create: string)
    requires Quotable(create)
    ensures Find(create + CLOSE, DOLLAR).Some? && Find(create + CLOSE, DOLLAR).value == |create|
  {
    var s := create + CLOSE;
    forall j: nat | j < |create|
      ensures !HasAt(s, DOLLAR, j)
    {
      if j + 3 <= |create| {
        assert !HasAt(create, DOLLAR, j);
        var k :| 0 <= k < 3 && create[j + k] != DOLLAR[k];
        assert s[j + k] != DOLLAR[k];
      } else if j + 3 <= |s| {
        assert s[j + (|create| - 1 - j)] == ';' != DOLLAR[|create| - 1 - j];
      }
    }
    assert HasAt(s, DOLLAR, |create|) by {
      assert s[|create|] == '$' && s[|create| + 1] == 't' && s[|create| + 2] == '$';
    }
    FindIs(s, DOLLAR, |create|);
  }

  lemma ReadDdlBack(u: Unit)
    requires Quotable(u.create)
    ensures ReadDdl(u.rel, u.trig, Flag(u.replica) + (", $t$" + (u.create + CLOSE))) == Some(u)
  {
    ReadFlag(u.replica, ", $t$" + (u.create + CLOSE));
    StripPrefix(", $t$", u.create + CLOSE);
    DdlEnd(u.create);
    assert (u.create + CLOSE)[|u.create|..] == CLOSE;
  }

  /** SQL reads the call back whatever quotes the names hold. */
  lemma ReadCallBack(u: Unit)
    requires Quotable(u.create)
    ensures ReadCall(KeptLine(u)) == Some(u)
  {
    var e := Flag(u.replica) + (", $t$" + (u.create + CLOSE));
    var d := ", " + e;
    var c := Lit(u.trig) + d;
    var b := ", " + c;
    StripPrefix(CALL, Lit(u.rel) + b);
    ReadLitBack(u.rel, b);
    StripPrefix(", ", c);
    ReadLitBack(u.trig, d);
    StripPrefix(", ", e);
    ReadDdlBack(u);
  }

  // ---------- running a text ----------

  /** A unit written out: the statement replaces the trigger and resets its mode. */
  function Install(u: Unit, t: Table): Table {
    t[KeyOf(u) := Trigger(u.create, Wanted(u))]
  }

  function ExecuteDdl(ddl: string, t: Table): Table {
    match ParseCreate(ddl)
    case None => t
    case Some((trig, rel)) => t[(rel, trig) := Trigger(ddl, Origin)]
  }

  /** `scd_keep_trigger(rel, trig, replica, ddl)`. */
  function KeepTrigger(u: Unit, t: Table): Table {
    if KeyOf(u) in t && t[KeyOf(u)].mode == Wanted(u) then t
    else
      var t' := ExecuteDdl(u.create, t);
      if u.replica && KeyOf(u) in t' then t'[KeyOf(u) := t'[KeyOf(u)].(mode := Replica)] else t'
  }

  lemma ExecuteGenuine(u: Unit, t: Table)
    requires Genuine(u)
    ensures ExecuteDdl(u.create, t) == t[KeyOf(u) := Trigger(u.create, Origin)]
  {
  }

  lemma KeepCases(u: Unit, t: Table)
    ensures KeyOf(u) in t && t[KeyOf(u)].mode == Wanted(u) ==> KeepTrigger(u, t) == t
    ensures Genuine(u) && !(KeyOf(u) in t && t[KeyOf(u)].mode == Wanted(u)) ==>
              KeepTrigger(u, t) == t[KeyOf(u) := Trigger(u.create, Wanted(u))]
  {
    if Genuine(u) { ExecuteGenuine(u, t); }
  }

  /** The effect of the statements that are neither units nor guarded calls, given all of them up
      to now. It may drop triggers and change modes; it never writes a trigger's statement. */
  type Effect = (seq<string>, Table) -> Table

  ghost predicate Tame(other: Effect) {
    forall seen, t: Table, k :: k in other(seen, t) ==> k in t && other(seen, t)[k].ddl == t[k].ddl
  }

  function Run(lines: seq<string>, seen: seq<string>, other: Effect, t: Table): Table
    decreases |lines|
  {
    if lines == [] then t else
    match Head(lines)
    case Some(u) => Run(lines[|UnitLines(u)|..], seen, other, Install(u, t))
    case None =>
      match ReadCall(lines[0])
      case Some(u) => Run(lines[1..], seen, other, KeepTrigger(u, t))
      case None => Run(lines[1..], seen + [lines[0]], other, other(seen + [lines[0]], t))
  }

  /** The trigger table as the migration runner changes it. */
  class Database {
    var triggers: Table

    constructor (initial: Table)
      ensures triggers == initial
    {
      triggers := initial;
    }

    /** A trigger in the wanted mode is left alone, with whatever statement it has; otherwise the
        recognised statement makes it anew in that mode. No other trigger changes. */
    method Keep(u: Unit)
      modifies this
      ensures triggers == KeepTrigger(u, old(triggers))
      ensures KeyOf(u) in old(triggers) && old(triggers)[KeyOf(u)].mode == Wanted(u) ==> triggers == old(triggers)
      ensures Genuine(u) && !(KeyOf(u) in old(triggers) && old(triggers)[KeyOf(u)].mode == Wanted(u)) ==>
                triggers == old(triggers)[KeyOf(u) := Trigger(u.create, Wanted(u))]
    {
      KeepCases(u, triggers);
      if KeyOf(u) in triggers && triggers[KeyOf(u)].mode == Wanted(u) {
        return;
      }
      triggers := ExecuteDdl(u.create, triggers);
      if u.replica && KeyOf(u) in triggers {
        triggers := triggers[KeyOf(u) := triggers[KeyOf(u)].(mode := Replica)];
      }
    }

    method Migrate(lines: seq<string>, other: Effect)
      modifies this
      ensures triggers == Run(lines, [], other, old(triggers))
    {
      var rest, seen := lines, [];
      while rest != []
        invariant Run(rest, seen, other, triggers) == Run(lines, [], other, old(triggers))
        decreases |rest|
      {
        match Head(rest)
        case Some(u) =>
          triggers := Install(u, triggers);
          rest := rest[|UnitLines(u)|..];
        case None =>
          match ReadCall(rest[0])
          case Some(u) =>
            Keep(u);
            rest := rest[1..];
          case None =>
            seen := seen + [rest[0]];
            triggers := other(seen, triggers);
            rest := rest[1..];
      }
    }
  }

  // ---------- one install ----------

  /** Each trigger is named once. */
  predicate Unique(us: seq<Unit>) {
    forall i, j | 0 <= i < j < |us| :: KeyOf(us[i]) != KeyOf(us[j])
  }

  /** An install as the generator renders it. */
  predicate Rendered(lines: seq<string>) {
    && Fresh(lines)
    && Unique(Units(lines))
    && forall u | u in Units(lines) :: Quotable(u.create)
  }

  /** Triggers of `us` that are present still carry their statement. */
  predicate Agrees(t: Table, us: seq<Unit>) {
    forall u | u in us && KeyOf(u) in t :: t[KeyOf(u)].ddl == u.create
  }

  lemma KeepIsInstall(u: Unit, t: Table)
    requires Genuine(u)
    requires KeyOf(u) in t && t[KeyOf(u)].mode == Wanted(u) ==> t[KeyOf(u)].ddl == u.create
    ensures KeepTrigger(u, t) == Install(u, t)
  {
    KeepCases(u, t);
  }

  lemma UniqueTail(u: Unit, vs: seq<Unit>)
    requires Unique([u] + vs)
    ensures Unique(vs) && forall v | v in vs :: KeyOf(v) != KeyOf(u)
    ensures forall v | v in vs :: v in [u] + vs
  {
    var us := [u] + vs;
    assert us[0] == u && forall i | 0 <= i < |vs| :: vs[i] == us[i + 1];
  }

  lemma SplitHead(lines: seq<string>, u: Unit)
    requires lines != [] && Head(lines) == Some(u) && Rendered(lines)
    ensures var tail := lines[|UnitLines(u)|..];
            Units(lines) == [u] + Units(tail) && Rendered(tail) && Quotable(u.create)
            && (forall v | v in Units(tail) :: KeyOf(v) != KeyOf(u))
  {
    var vs := Units(lines[|UnitLines(u)|..]);
    assert Units(lines) == [u] + vs;
    UniqueTail(u, vs);
  }

  /** The known units among `us`. */
  predicate AgreesWhereKnown(t: Table, us: seq<Unit>, known: set<seq<string>>) {
    forall u | u in us && UnitLines(u) in known && KeyOf(u) in t :: t[KeyOf(u)].ddl == u.create
  }

  lemma RunUnit(u: Unit, rest: seq<string>, seen: seq<string>, other: Effect, t: Table)
    requires Head(UnitLines(u) + rest) == Some(u)
    ensures Run(UnitLines(u) + rest, seen, other, t) == Run(rest, seen, other, Install(u, t))
  {
    assert (UnitLines(u) + rest)[|UnitLines(u)|..] == rest;
  }

  lemma RunCall(u: Unit, rest: seq<string>, seen: seq<string>, other: Effect, t: Table)
    requires Quotable(u.create)
    ensures Run([KeptLine(u)] + rest, seen, other, t) == Run(rest, seen, other, KeepTrigger(u, t))
  {
    HeadSwapped(u, rest);
    ReadCallBack(u);
    assert ([KeptLine(u)] + rest)[1..] == rest;
  }

  lemma RunOther(line: string, rest: seq<string>, seen: seq<string>, other: Effect, t: Table)
    requires ParseCreate(line).None? && !(CALL <= line)
    ensures Run([line] + rest, seen, other, t) == Run(rest, seen + [line], other, other(seen + [line], t))
  {
    assert ([line] + rest)[1..] == rest;
  }

  /** The rewritten install leaves the table of the original when every known trigger that is
      present still carries its statement. */
  lemma {:induction false} RewriteKeepsTable(lines: seq<string>, known: set<seq<string>>, seen: seq<string>,
                                             other: Effect, t: Table)
    requires Rendered(lines) && Tame(other)
    requires AgreesWhereKnown(t, Units(lines), known)
    ensures Run(Rewrite(lines, known), seen, other, t) == Run(lines, seen, other, t)
    decreases |lines|
  {
    if lines != [] {
      match Head(lines)
      case None =>
        RunOther(lines[0], Rewrite(lines[1..], known), seen, other, t);
        RewriteKeepsTable(lines[1..], known, seen + [lines[0]], other, other(seen + [lines[0]], t));
      case Some(u) =>
        var tail := lines[|UnitLines(u)|..];
        SplitHead(lines, u);
        RewriteKeepsTable(tail, known, seen, other, Install(u, t));
        if UnitLines(u) in known {
          RunCall(u, Rewrite(tail, known), seen, other, t);
          KeepIsInstall(u, t);
        } else {
          HeadStays(lines, known);
          RunUnit(u, Rewrite(tail, known), seen, other, t);
        }
    }
  }

  lemma {:induction false} RewriteNothing(lines: seq<string>)
    ensures Rewrite(lines, {}) == lines
    decreases |lines|
  {
    if lines != [] {
      match Head(lines)
      case None => RewriteNothing(lines[1..]);
      case Some(u) => RewriteNothing(lines[|UnitLines(u)|..]);
    }
  }

  /** The guard lets a trigger of `u` through as it stands. */
  predicate Skipped(u: Unit, known: set<seq<string>>, t: Table) {
    UnitLines(u) in known && KeyOf(u) in t && t[KeyOf(u)].mode == Wanted(u)
  }

  /** The other statements leave the triggers at `keys` as they are. */
  ghost predicate Spares(other: Effect, keys: set<Key>) {
    forall seen, t: Table, k | k in keys ::
      (k in other(seen, t) <==> k in t) && (k in t ==> other(seen, t)[k] == t[k])
  }

  /** The triggers an install makes. */
  function Keys(us: seq<Unit>): set<Key> {
    set u | u in us :: KeyOf(u)
  }

  /** What a step does to a unit's own trigger before anything else changes it. */
  function Settled(u: Unit, known: set<seq<string>>, t: Table): Trigger {
    if Skipped(u, known, t) then t[KeyOf(u)] else Trigger(u.create, Wanted(u))
  }

  lemma KeepSettles(u: Unit, known: set<seq<string>>, t: Table)
    requires Genuine(u) && UnitLines(u) in known
    ensures KeepTrigger(u, t) == t[KeyOf(u) := Settled(u, known, t)]
  {
    KeepCases(u, t);
  }

  lemma SettledElsewhere(u: Unit, v: Unit, known: set<seq<string>>, t: Table)
    requires KeyOf(u) != KeyOf(v)
    ensures Settled(u, known, t[KeyOf(v) := Settled(v, known, t)]) == Settled(u, known, t)
  {
  }

  /** Running one unit, swapped or not. */
  lemma RunHead(lines: seq<string>, u: Unit, known: set<seq<string>>, seen: seq<string>, other: Effect, t: Table)
    requires lines != [] && Head(lines) == Some(u) && Rendered(lines)
    ensures Run(Rewrite(lines, known), seen, other, t)
         == Run(Rewrite(lines[|UnitLines(u)|..], known), seen, other, t[KeyOf(u) := Settled(u, known, t)])
  {
    var rest := Rewrite(lines[|UnitLines(u)|..], known);
    SplitHead(lines, u);
    UnitsGenuine(lines, u);
    if UnitLines(u) in known {
      RunCall(u, rest, seen, other, t);
      KeepSettles(u, known, t);
    } else {
      HeadStays(lines, known);
      RunUnit(u, rest, seen, other, t);
    }
  }

  /** An install leaves a trigger alone that neither its units nor its other statements touch. */
  lemma {:induction false} OutcomeElsewhere(lines: seq<string>, known: set<seq<string>>, seen: seq<string>,
                                            other: Effect, t: Table, k: Key)
    requires Rendered(lines) && Spares(other, {k})
    requires forall u | u in Units(lines) :: KeyOf(u) != k
    ensures var after := Run(Rewrite(lines, known), seen, other, t);
            (k in after <==> k in t) && (k in t ==> after[k] == t[k])
    decreases |lines|
  {
    if lines != [] {
      match Head(lines)
      case None =>
        RunOther(lines[0], Rewrite(lines[1..], known), seen, other, t);
        OutcomeElsewhere(lines[1..], known, seen + [lines[0]], other, other(seen + [lines[0]], t), k);
      case Some(u) =>
        SplitHead(lines, u);
        RunHead(lines, u, known, seen, other, t);
        OutcomeElsewhere(lines[|UnitLines(u)|..], known, seen, other, t[KeyOf(u) := Settled(u, known, t)], k);
    }
  }

  lemma SettledSpared(u: Unit, known: set<seq<string>>, seen: seq<string>, other: Effect, t: Table)
    requires Spares(other, {KeyOf(u)})
    ensures Settled(u, known, other(seen, t)) == Settled(u, known, t)
    ensures Skipped(u, known, other(seen, t)) == Skipped(u, known, t)
  {
    var k := KeyOf(u);
    assert k in {k};
    assert k in other(seen, t) <==> k in t;
  }

  predicate Leaves(after: Table, u: Unit, trigger: Trigger) {
    KeyOf(u) in after && after[KeyOf(u)] == trigger
  }

  lemma OutcomeAtHead(lines: seq<string>, known: set<seq<string>>, seen: seq<string>, other: Effect, t: Table, u: Unit)
    requires lines != [] && Head(lines) == Some(u) && Rendered(lines) && Spares(other, {KeyOf(u)})
    ensures Leaves(Run(Rewrite(lines, known), seen, other, t), u, Settled(u, known, t))
  {
    SplitHead(lines, u);
    RunHead(lines, u, known, seen, other, t);
    OutcomeElsewhere(lines[|UnitLines(u)|..], known, seen, other, t[KeyOf(u) := Settled(u, known, t)], KeyOf(u));
  }

  /** The trigger a rewritten install leaves for each of its units, whatever its other statements
      do to other triggers. */
  lemma {:induction false} OutcomeAt(lines: seq<string>, known: set<seq<string>>, seen: seq<string>,
                                     other: Effect, t: Table, u: Unit)
    requires Rendered(lines) && u in Units(lines) && Spares(other, {KeyOf(u)})
    ensures Leaves(Run(Rewrite(lines, known), seen, other, t), u, Settled(u, known, t))
    decreases |lines|
  {
    match Head(lines)
    case None =>
      RunOther(lines[0], Rewrite(lines[1..], known), seen, other, t);
      OutcomeAt(lines[1..], known, seen + [lines[0]], other, other(seen + [lines[0]], t), u);
      SettledSpared(u, known, seen + [lines[0]], other, t);
    case Some(v) =>
      if u == v {
        OutcomeAtHead(lines, known, seen, other, t, u);
      } else {
        SplitHead(lines, v);
        RunHead(lines, v, known, seen, other, t);
        OutcomeAt(lines[|UnitLines(v)|..], known, seen, other, t[KeyOf(v) := Settled(v, known, t)], u);
        SettledElsewhere(u, v, known, t);
      }
  }

  /** No trigger the guard lets through carries another statement. */
  predicate Faithful(us: seq<Unit>, known: set<seq<string>>, t: Table) {
    forall u | u in us && Skipped(u, known, t) :: t[KeyOf(u)].ddl == u.create
  }

  lemma SparesPart(other: Effect, keys: set<Key>, part: set<Key>)
    requires Spares(other, keys) && part <= keys
    ensures Spares(other, part)
  {
  }

  lemma FaithfulSpared(us: seq<Unit>, known: set<seq<string>>, seen: seq<string>, other: Effect, t: Table)
    requires Spares(other, Keys(us)) && Faithful(us, known, t)
    ensures Faithful(us, known, other(seen, t))
  {
    forall u | u in us && Skipped(u, known, other(seen, t))
      ensures other(seen, t)[KeyOf(u)].ddl == u.create
    {
      assert KeyOf(u) in Keys(us);
      SparesPart(other, Keys(us), {KeyOf(u)});
      SettledSpared(u, known, seen, other, t);
    }
  }

  lemma FaithfulTail(u: Unit, vs: seq<Unit>, known: set<seq<string>>, t: Table, made: Trigger)
    requires Faithful([u] + vs, known, t) && forall v | v in vs :: KeyOf(v) != KeyOf(u)
    ensures Faithful(vs, known, t[KeyOf(u) := made])
    ensures Settled(u, known, t) == Trigger(u.create, Wanted(u))
  {
    assert u in [u] + vs;
    forall v | v in vs
      ensures v in [u] + vs
    {
    }
  }

  /** When no skipped trigger carries another statement, the two installs go through the same
      tables. */
  lemma {:induction false} FaithfulKeepsTable(lines: seq<string>, known: set<seq<string>>, seen: seq<string>,
                                              other: Effect, t: Table)
    requires Rendered(lines) && Spares(other, Keys(Units(lines))) && Faithful(Units(lines), known, t)
    ensures Run(Rewrite(lines, known), seen, other, t) == Run(lines, seen, other, t)
    decreases |lines|
  {
    if lines != [] {
      match Head(lines)
      case None =>
        RunOther(lines[0], Rewrite(lines[1..], known), seen, other, t);
        FaithfulSpared(Units(lines), known, seen + [lines[0]], other, t);
        FaithfulKeepsTable(lines[1..], known, seen + [lines[0]], other, other(seen + [lines[0]], t));
      case Some(u) =>
        var tail := lines[|UnitLines(u)|..];
        SplitHead(lines, u);
        RunHead(lines, u, known, seen, other, t);
        FaithfulTail(u, Units(tail), known, t, Trigger(u.create, Wanted(u)));
        SparesPart(other, Keys(Units(lines)), Keys(Units(tail)));
        FaithfulKeepsTable(tail, known, seen, other, Install(u, t));
    }
  }

  /** With any other statements that spare the install's own triggers, rewriting preserves the
      outcome exactly when no skipped trigger carries another statement. */
  lemma RewriteKeepsTableIff(lines: seq<string>, known: set<seq<string>>, other: Effect, t: Table)
    requires Rendered(lines) && Spares(other, Keys(Units(lines)))
    ensures Run(Rewrite(lines, known), [], other, t) == Run(lines, [], other, t) <==> Faithful(Units(lines), known, t)
  {
    if Faithful(Units(lines), known, t) {
      FaithfulKeepsTable(lines, known, [], other, t);
    } else {
      var u :| u in Units(lines) && Skipped(u, known, t) && t[KeyOf(u)].ddl != u.create;
      SparesPart(other, Keys(Units(lines)), {KeyOf(u)});
      RewriteNothing(lines);
      OutcomeAt(lines, known, [], other, t, u);
      OutcomeAt(lines, {}, [], other, t, u);
    }
  }

  // ---------- dropping stale triggers ----------

  /** `drop_stale`: triggers with a generated name that the install does not make. */
  function WithoutStale(t: Table, expected: set<Key>, generated: set<string>): Table {
    map k | k in t && (k.1 in generated ==> k in expected) :: t[k]
  }

  /** The other statements of an install whose block `drop` ends with dropping stale triggers. */
  function DropStale(drop: seq<string>, expected: set<Key>, generated: set<string>): Effect {
    (seen, t) => if seen == drop then WithoutStale(t, expected, generated) else t
  }

  lemma DropStaleSpares(drop: seq<string>, expected: set<Key>, generated: set<string>)
    ensures Spares(DropStale(drop, expected, generated), expected) && Tame(DropStale(drop, expected, generated))
  {
  }

  /** The lines that are no units. */
  function Others(lines: seq<string>): seq<string>
    decreases |lines|
  {
    if lines == [] then [] else
    match Head(lines)
    case None => [lines[0]] + Others(lines[1..])
    case Some(u) => Others(lines[|UnitLines(u)|..])
  }

  /** A trigger that is gone comes back only through a unit. */
  lemma {:induction false} AbsentStays(lines: seq<string>, known: set<seq<string>>, seen: seq<string>,
                                       other: Effect, t: Table, k: Key)
    requires Rendered(lines) && Tame(other) && k !in t
    requires forall u | u in Units(lines) :: KeyOf(u) != k
    ensures k !in Run(Rewrite(lines, known), seen, other, t)
    decreases |lines|
  {
    if lines != [] {
      match Head(lines)
      case None =>
        RunOther(lines[0], Rewrite(lines[1..], known), seen, other, t);
        AbsentStays(lines[1..], known, seen + [lines[0]], other, other(seen + [lines[0]], t), k);
      case Some(u) =>
        SplitHead(lines, u);
        RunHead(lines, u, known, seen, other, t);
        AbsentStays(lines[|UnitLines(u)|..], known, seen, other, t[KeyOf(u) := Settled(u, known, t)], k);
    }
  }

  lemma OthersStep(line: string, more: seq<string>, seen: seq<string>, n: nat)
    requires 0 < n <= |more| + 1
    ensures seen + ([line] + more)[..n] == seen + [line] + more[..n - 1]
  {
  }

  /** The first `n` other lines end with the block that drops stale triggers. */
  lemma {:induction false} StaleAreGone(lines: seq<string>, known: set<seq<string>>, seen: seq<string>, n: nat,
                                        drop: seq<string>, expected: set<Key>, generated: set<string>, t: Table, k: Key)
    requires Rendered(lines) && k.1 in generated && k !in expected && Keys(Units(lines)) <= expected
    requires 0 < n <= |Others(lines)| && drop == seen + Others(lines)[..n]
    ensures k !in Run(Rewrite(lines, known), seen, DropStale(drop, expected, generated), t)
    decreases |lines|
  {
    var other := DropStale(drop, expected, generated);
    match Head(lines)
    case None =>
      var more := seen + [lines[0]];
      RunOther(lines[0], Rewrite(lines[1..], known), seen, other, t);
      OthersStep(lines[0], Others(lines[1..]), seen, n);
      if n == 1 {
        assert drop == more;
        DropStaleSpares(drop, expected, generated);
        AbsentStays(lines[1..], known, more, other, other(more, t), k);
      } else {
        StaleAreGone(lines[1..], known, more, n - 1, drop, expected, generated, other(more, t), k);
      }
    case Some(u) =>
      SplitHead(lines, u);
      RunHead(lines, u, known, seen, other, t);
      StaleAreGone(lines[|UnitLines(u)|..], known, seen, n, drop, expected, generated,
                   t[KeyOf(u) := Settled(u, known, t)], k);
  }

  /** The whole table after a shipped install, from every table: the triggers with a generated name
      are exactly those of the install, each as its unit settles it, and every other trigger that
      the install does not make is as before. */
  lemma InstallConverges(lines: seq<string>, known: set<seq<string>>, n: nat, generated: set<string>, t: Table, k: Key)
    requires Rendered(lines) && 0 < n <= |Others(lines)|
    ensures var own := Keys(Units(lines));
            var after := Run(Rewrite(lines, known), [], DropStale(Others(lines)[..n], own, generated), t);
            && (k.1 in generated ==> (k in after <==> k in own))
            && (k in own ==> k in after && exists u :: u in Units(lines) && KeyOf(u) == k && after[k] == Settled(u, known, t))
            && (k.1 !in generated && k !in own ==> (k in after <==> k in t) && (k in t ==> after[k] == t[k]))
  {
    var own, drop := Keys(Units(lines)), Others(lines)[..n];
    var other := DropStale(drop, own, generated);
    DropStaleSpares(drop, own, generated);
    if k in own {
      var u :| u in Units(lines) && KeyOf(u) == k;
      SparesPart(other, own, {k});
      OutcomeAt(lines, known, [], other, t, u);
    } else if k.1 in generated {
      assert [] + drop == drop;
      StaleAreGone(lines, known, [], n, drop, own, generated, t, k);
    } else {
      assert forall u | u in Units(lines) :: KeyOf(u) in own;
      OutcomeElsewhere(lines, known, [], other, t, k);
    }
  }

  // ---------- printed installs ----------

  lemma {:induction false} UnitsOfMember(items: seq<Item>, p: Printed)
    requires Made(p) in items
    ensures UnitOf(p) in UnitsOf(items)
  {
    if items[0] != Made(p) { UnitsOfMember(items[1..], p); }
  }

  /** After every printed install each of its triggers is there with its statement, in replica mode
      exactly when it was printed so; and shipping the same text again leaves it as it is. */
  lemma PrintedTriggerIsInstalled(items: seq<Item>, other: Effect, t: Table, p: Printed)
    requires AreItems(items) && Rendered(TextOf(items)) && Spares(other, Keys(Units(TextOf(items))))
    requires Made(p) in items && ReadsAsPrinted(p)
    ensures var lines, made := TextOf(items), Trigger(CreateLine(p), if p.replica then Replica else Origin);
            var after := Run(lines, [], other, t);
            && Leaves(after, UnitOf(p), made)
            && Leaves(Run(Rewrite(lines, Known(lines)), [], other, after), UnitOf(p), made)
            && KeyOf(UnitOf(p)) == (p.rel, p.trig)
  {
    var lines, u := TextOf(items), UnitOf(p);
    var after := Run(lines, [], other, t);
    PrintedInstallIsRecognised(items);
    UnitsOfMember(items, p);
    assert u in Units(lines);
    SparesPart(other, Keys(Units(lines)), {KeyOf(u)});
    RewriteNothing(lines);
    OutcomeAt(lines, {}, [], other, t, u);
    OutcomeAt(lines, Known(lines), [], other, after, u);
    assert UnitLines(u) in Known(lines);
  }

  // ---------- what an install locks ----------

  /** The tables the units and guarded calls of an install run trigger statements on, and so lock. */
  function Locks(lines: seq<string>, seen: seq<string>, other: Effect, t: Table): set<string>
    decreases |lines|
  {
    if lines == [] then {} else
    match Head(lines)
    case Some(u) => {u.rel} + Locks(lines[|UnitLines(u)|..], seen, other, Install(u, t))
    case None =>
      match ReadCall(lines[0])
      case Some(u) =>
        (if KeyOf(u) in t && t[KeyOf(u)].mode == Wanted(u) then {} else {u.rel})
        + Locks(lines[1..], seen, other, KeepTrigger(u, t))
      case None => Locks(lines[1..], seen + [lines[0]], other, other(seen + [lines[0]], t))
  }

  lemma LocksUnit(u: Unit, rest: seq<string>, seen: seq<string>, other: Effect, t: Table)
    requires Head(UnitLines(u) + rest) == Some(u)
    ensures Locks(UnitLines(u) + rest, seen, other, t) == {u.rel} + Locks(rest, seen, other, Install(u, t))
  {
    assert (UnitLines(u) + rest)[|UnitLines(u)|..] == rest;
  }

  lemma LocksCall(u: Unit, rest: seq<string>, seen: seq<string>, other: Effect, t: Table)
    requires Quotable(u.create)
    ensures Locks([KeptLine(u)] + rest, seen, other, t) ==
              (if KeyOf(u) in t && t[KeyOf(u)].mode == Wanted(u) then {} else {u.rel})
              + Locks(rest, seen, other, KeepTrigger(u, t))
  {
    HeadSwapped(u, rest);
    ReadCallBack(u);
    assert ([KeptLine(u)] + rest)[1..] == rest;
  }

  lemma LocksOther(line: string, rest: seq<string>, seen: seq<string>, other: Effect, t: Table)
    requires ParseCreate(line).None? && !(CALL <= line)
    ensures Locks([line] + rest, seen, other, t) == Locks(rest, seen + [line], other, other(seen + [line], t))
  {
    assert ([line] + rest)[1..] == rest;
  }

  /** Running one unit, swapped or not, locks its table unless the guard skips it. */
  lemma LocksHead(lines: seq<string>, u: Unit, known: set<seq<string>>, seen: seq<string>, other: Effect, t: Table)
    requires lines != [] && Head(lines) == Some(u) && Rendered(lines)
    ensures Locks(Rewrite(lines, known), seen, other, t) ==
              (if Skipped(u, known, t) then {} else {u.rel})
              + Locks(Rewrite(lines[|UnitLines(u)|..], known), seen, other, t[KeyOf(u) := Settled(u, known, t)])
  {
    var rest := Rewrite(lines[|UnitLines(u)|..], known);
    SplitHead(lines, u);
    UnitsGenuine(lines, u);
    if UnitLines(u) in known {
      LocksCall(u, rest, seen, other, t);
      KeepSettles(u, known, t);
    } else {
      HeadStays(lines, known);
      LocksUnit(u, rest, seen, other, t);
    }
  }

  /** Some unit on `rel` is new, changed, missing or in another mode. */
  predicate Changes(us: seq<Unit>, known: set<seq<string>>, t: Table, rel: string) {
    exists u | u in us :: u.rel == rel && !Skipped(u, known, t)
  }

  lemma ChangesSpared(us: seq<Unit>, known: set<seq<string>>, seen: seq<string>, other: Effect, t: Table, rel: string)
    requires Spares(other, Keys(us))
    ensures Changes(us, known, other(seen, t), rel) == Changes(us, known, t, rel)
  {
    forall u | u in us
      ensures Skipped(u, known, other(seen, t)) == Skipped(u, known, t)
    {
      assert KeyOf(u) in Keys(us);
      SparesPart(other, Keys(us), {KeyOf(u)});
      SettledSpared(u, known, seen, other, t);
    }
  }

  lemma ChangesHead(v: Unit, us: seq<Unit>, known: set<seq<string>>, t: Table, made: Trigger, rel: string)
    requires forall u | u in us :: KeyOf(u) != KeyOf(v)
    ensures Changes([v] + us, known, t, rel) <==>
              (v.rel == rel && !Skipped(v, known, t)) || Changes(us, known, t[KeyOf(v) := made], rel)
  {
    assert v in [v] + us;
    forall u | u in us
      ensures u in [v] + us && Skipped(u, known, t[KeyOf(v) := made]) == Skipped(u, known, t)
    {
    }
  }

  /** A shipped install locks a table exactly when one of its triggers there is new, changed,
      missing or in another mode, whatever its other statements do to other triggers. */
  lemma {:induction false} OnlyChangedTablesAreLocked(lines: seq<string>, known: set<seq<string>>, seen: seq<string>,
                                                      other: Effect, t: Table, rel: string)
    requires Rendered(lines) && Spares(other, Keys(Units(lines)))
    ensures rel in Locks(Rewrite(lines, known), seen, other, t) <==> Changes(Units(lines), known, t, rel)
    decreases |lines|
  {
    if lines != [] {
      match Head(lines)
      case None =>
        var more := seen + [lines[0]];
        LocksOther(lines[0], Rewrite(lines[1..], known), seen, other, t);
        ChangesSpared(Units(lines), known, more, other, t, rel);
        OnlyChangedTablesAreLocked(lines[1..], known, more, other, other(more, t), rel);
      case Some(v) =>
        var tail := lines[|UnitLines(v)|..];
        SplitHead(lines, v);
        LocksHead(lines, v, known, seen, other, t);
        ChangesHead(v, Units(tail), known, t, Settled(v, known, t), rel);
        SparesPart(other, Keys(Units(lines)), Keys(Units(tail)));
        OnlyChangedTablesAreLocked(tail, known, seen, other, t[KeyOf(v) := Settled(v, known, t)], rel);
    }
  }

  /** Right after an install, running what is shipped for the same text locks nothing. */
  lemma RerunLocksNothing(lines: seq<string>, other: Effect, t: Table)
    requires Rendered(lines) && Spares(other, Keys(Units(lines)))
    ensures Locks(Rewrite(lines, Known(lines)), [], other, Run(lines, [], other, t)) == {}
  {
    var after := Run(lines, [], other, t);
    RewriteNothing(lines);
    forall u | u in Units(lines)
      ensures Skipped(u, Known(lines), after)
    {
      SparesPart(other, Keys(Units(lines)), {KeyOf(u)});
      OutcomeAt(lines, {}, [], other, t, u);
      assert UnitLines(u) in Known(lines);
    }
    forall rel
      ensures rel !in Locks(Rewrite(lines, Known(lines)), [], other, after)
    {
      OnlyChangedTablesAreLocked(lines, Known(lines), [], other, after, rel);
    }
  }

  // ---------- a chain of installs ----------

  /** A deployment history: installs, and changes by hand that drop triggers or set modes. */
  datatype Event = Deploy(lines: seq<string>) | Drift(dropped: set<Key>, modes: map<Key, Mode>)

  function Drifted(e: Event, t: Table): Table
    requires e.Drift?
  {
    map k | k in t && k !in e.dropped :: if k in e.modes then t[k].(mode := e.modes[k]) else t[k]
  }

  /** Every install run as rendered. */
  function PlainHistory(es: seq<Event>, other: Effect, t: Table): Table {
    if es == [] then t
    else PlainHistory(es[1..], other,
      if es[0].Drift? then Drifted(es[0], t) else Run(es[0].lines, [], other, t))
  }

  /** Every install rewritten against the one before it, as it was shipped. */
  function KeptHistory(es: seq<Event>, shipped: seq<string>, other: Effect, t: Table): Table {
    if es == [] then t
    else if es[0].Drift? then KeptHistory(es[1..], shipped, other, Drifted(es[0], t))
    else
      var text := KeepUnchanged(es[0].lines, shipped);
      KeptHistory(es[1..], text, other, Run(text, [], other, t))
  }

  /** What a change by hand breaks, the next shipped install of the same text repairs, and its units
      lock exactly the tables where something was broken. */
  lemma DriftIsRepaired(lines: seq<string>, e: Event, other: Effect, t: Table, u: Unit, rel: string)
    requires Rendered(lines) && Spares(other, Keys(Units(lines))) && e.Drift? && u in Units(lines)
    ensures var drifted, shipped := Drifted(e, Run(lines, [], other, t)), KeepUnchanged(lines, lines);
            && Leaves(Run(shipped, [], other, drifted), u, Trigger(u.create, Wanted(u)))
            && (rel in Locks(shipped, [], other, drifted) <==>
                  exists v | v in Units(lines) :: v.rel == rel
                    && (KeyOf(v) in e.dropped || (KeyOf(v) in e.modes && e.modes[KeyOf(v)] != Wanted(v))))
  {
    var known, after := Known(lines), Run(lines, [], other, t);
    var drifted := Drifted(e, after);
    forall v | v in Units(lines)
      ensures Skipped(v, known, drifted) <==>
                KeyOf(v) !in e.dropped && (KeyOf(v) in e.modes ==> e.modes[KeyOf(v)] == Wanted(v))
      ensures Settled(v, known, drifted) == Trigger(v.create, Wanted(v))
    {
      SparesPart(other, Keys(Units(lines)), {KeyOf(v)});
      RewriteNothing(lines);
      OutcomeAt(lines, {}, [], other, t, v);
      assert UnitLines(v) in known;
    }
    SparesPart(other, Keys(Units(lines)), {KeyOf(u)});
    OutcomeAt(lines, known, [], other, drifted, u);
    OnlyChangedTablesAreLocked(lines, known, [], other, drifted, rel);
  }

  lemma {:induction false} RunAgrees(lines: seq<string>, seen: seq<string>, other: Effect, t: Table, u: Unit)
    requires Rendered(lines) && Tame(other)
    requires u in Units(lines) || (KeyOf(u) in t ==> t[KeyOf(u)].ddl == u.create)
    requires forall v | v in Units(lines) && KeyOf(v) == KeyOf(u) :: v == u
    ensures var after := Run(lines, seen, other, t); KeyOf(u) in after ==> after[KeyOf(u)].ddl == u.create
    decreases |lines|
  {
    if lines != [] {
      match Head(lines)
      case None =>
        RunAgrees(lines[1..], seen + [lines[0]], other, other(seen + [lines[0]], t), u);
      case Some(v) =>
        SplitHead(lines, v);
        RunAgrees(lines[|UnitLines(v)|..], seen, other, Install(v, t), u);
    }
  }

  lemma UniqueUnit(us: seq<Unit>, u: Unit, v: Unit)
    requires Unique(us) && u in us && v in us && KeyOf(u) == KeyOf(v)
    ensures u == v
  {
  }

  lemma InstallAgrees(lines: seq<string>, other: Effect, t: Table)
    requires Rendered(lines) && Tame(other)
    ensures Agrees(Run(lines, [], other, t), Units(lines))
  {
    forall u | u in Units(lines)
      ensures var after := Run(lines, [], other, t); KeyOf(u) in after ==> after[KeyOf(u)].ddl == u.create
    {
      forall v | v in Units(lines) && KeyOf(v) == KeyOf(u)
        ensures v == u
      {
        UniqueUnit(Units(lines), u, v);
      }
      RunAgrees(lines, [], other, t, u);
    }
  }

  /** What the shipped text knows of the install it was rendered from. */
  lemma KnownAgrees(lines: seq<string>, previous: seq<string>, shipped: seq<string>, t: Table)
    requires Fresh(previous) && Known(shipped) <= Known(previous)
    requires Agrees(t, Units(previous))
    ensures AgreesWhereKnown(t, Units(lines), Known(shipped))
  {
    FreshHasNoCalls(previous);
    forall u | u in Units(lines) && UnitLines(u) in Known(shipped) && KeyOf(u) in t
      ensures t[KeyOf(u)].ddl == u.create
    {
      var v :| v in Units(previous) && UnitLines(v) == UnitLines(u);
      UnitsGenuine(lines, u);
      UnitsGenuine(previous, v);
      SameLinesSameUnit(u, v);
    }
  }

  lemma {:induction false} HistoriesAgree(es: seq<Event>, previous: seq<string>, shipped: seq<string>,
                                          other: Effect, t: Table)
    requires Tame(other) && forall e | e in es && e.Deploy? :: Rendered(e.lines)
    requires Fresh(previous) && Known(shipped) <= Known(previous) && Agrees(t, Units(previous))
    ensures KeptHistory(es, shipped, other, t) == PlainHistory(es, other, t)
  {
    if es != [] {
      if es[0].Drift? {
        HistoriesAgree(es[1..], previous, shipped, other, Drifted(es[0], t));
      } else {
        var lines := es[0].lines;
        KnownAgrees(lines, previous, shipped, t);
        RewriteKeepsTable(lines, Known(shipped), [], other, t);
        InstallAgrees(lines, other, t);
        KnownSurvives(lines, Known(shipped));
        HistoriesAgree(es[1..], lines, KeepUnchanged(lines, shipped), other, Run(lines, [], other, t));
      }
    }
  }

  /** Along every history from every table, the shipped installs leave the same triggers, the same
      statements and the same modes as the installs before rewriting. */
  lemma ShippedHistoryIsPlain(es: seq<Event>, other: Effect, t: Table)
    requires Tame(other) && forall e | e in es && e.Deploy? :: Rendered(e.lines)
    ensures KeptHistory(es, [], other, t) == PlainHistory(es, other, t)
  {
    HistoriesAgree(es, [], [], other, t);
  }

  /** The condition on names is needed: after an install that makes one trigger twice, keeping the
      first unit leaves the second statement, while running the first unit brings it back. */
  lemma DuplicateNamesDiverge(u: Unit, v: Unit, t: Table)
    requires KeyOf(u) == KeyOf(v) && u.create != v.create && u.replica == v.replica
    ensures var after := Install(v, Install(u, t));
            KeepTrigger(u, after)[KeyOf(u)].ddl == v.create && KeepTrigger(u, after) != Install(u, after)
  {
    var after := Install(v, Install(u, t));
    assert KeepTrigger(u, after) == after;
    assert after[KeyOf(u)].ddl != Install(u, after)[KeyOf(u)].ddl;
  }
}
