/** The delivery contract of the worker lanes: how long a task may be retried, how wide the
    duplicate window of the result stream is, and why one result of one task is stored once. */
module WorkerDelivery {
  import opened MessageId
  import opened Numbers
  import opened Text

  const U64_MAX := 0xFFFF_FFFF_FFFF_FFFF
  const HOUR := 3600
  const DAY := 86400
  const MAX_DELIVER := 5
  const BRIDGE_TTL_MARGIN := 60

  type u64 = n: nat | n <= U64_MAX

  datatype NakBackoff = NakBackoff(base: u64, cap: u64)
  datatype LaneSpec = LaneSpec(lane: Lane, maxAge: nat, deadline: nat, nak: Option<NakBackoff>, open: bool)

  // ---------- backoff ----------

  /** `delay_s` in 64-bit saturating arithmetic. */
  function DelayS(b: NakBackoff, delivered: nat): (d: u64)
    ensures d <= b.cap
  {
    var exponent := if delivered == 0 then 0 else delivered - 1;
    var factor := if exponent >= 63 then U64_MAX else Pow2(exponent);
    var delay := Min(b.base * factor, U64_MAX);
    if delay < b.cap then delay else b.cap
  }

  /** The same backoff over unbounded numbers. */
  function Backoff(b: NakBackoff, delivered: nat): nat {
    Min(b.base * Pow2(if delivered == 0 then 0 else delivered - 1), b.cap)
  }

  /** Saturation shows at one point only: base 1, the 64th delivery, a cap above 2^63. */
  lemma DelayIsBackoff(b: NakBackoff, delivered: nat)
    ensures DelayS(b, delivered) == Backoff(b, delivered) <==>
              !(b.base == 1 && delivered == 64 && b.cap > 0x8000_0000_0000_0000)
  {
    if delivered >= 64 {
      LateFactor(delivered - 1);
      Saturates(b.base, Pow2(delivered - 1), b.cap);
    }
  }

  lemma LateFactor(exponent: nat)
    requires exponent >= 63
    ensures if exponent == 63 then Pow2(exponent) == 0x8000_0000_0000_0000 else Pow2(exponent) > U64_MAX
  {
    WordPowers();
    if exponent > 63 { Pow2Monotone(64, exponent); }
  }

  /** What the saturated factor stands for: a factor of 2^63 or one beyond 64 bits. */
  lemma Saturates(base: nat, factor: nat, cap: u64)
    requires factor == 0x8000_0000_0000_0000 || factor > U64_MAX
    ensures Min(Min(base * U64_MAX, U64_MAX), cap) == Min(base * factor, cap) <==>
              !(base == 1 && factor == 0x8000_0000_0000_0000 && cap > factor)
  {
    if base >= 2 {
      MulMonotone(factor, 2, base);
      MulMonotone(U64_MAX, 1, base);
    }
  }

  /** The delay never decreases and, with a positive base and cap, is never zero. */
  lemma DelayGrows(b: NakBackoff, m: nat, n: nat)
    requires m <= n
    ensures DelayS(b, m) <= DelayS(b, n)
    ensures b.base > 0 && b.cap > 0 ==> DelayS(b, m) > 0
  {
    var i, j := if m == 0 then 0 else m - 1, if n == 0 then 0 else n - 1;
    WordPowers();
    Pow2Monotone(i, j);
    var f := if i >= 63 then U64_MAX else Pow2(i);
    var g := if j >= 63 then U64_MAX else Pow2(j);
    if i < 63 { Pow2Monotone(i, 63); }
    assert f <= g;
    MulMonotone(b.base, f, g);
    MulMonotone(b.base, 1, f);
  }

  // ---------- windows ----------

  /** `delivery_s`: a public lane holds a task for its deadline plus the bridge margin. */
  function DeliveryS(s: LaneSpec): nat {
    if s.open then s.deadline + BRIDGE_TTL_MARGIN else s.deadline
  }

  /** The delays after deliveries 1 to `n`. */
  function DelaySum(b: NakBackoff, n: nat): nat {
    if n == 0 then 0 else DelaySum(b, n - 1) + DelayS(b, n)
  }

  function AttemptWindow(s: LaneSpec): Option<nat> {
    if s.nak.None? then None else Some(MAX_DELIVER * DeliveryS(s) + DelaySum(s.nak.value, MAX_DELIVER - 1))
  }

  /** `attempt_window_s`. */
  method AttemptWindowS(s: LaneSpec) returns (r: Option<nat>)
    ensures r == AttemptWindow(s)
  {
    if s.nak.None? {
      return None;
    }
    var window := MAX_DELIVER * DeliveryS(s);
    var delivery := 1;
    while delivery < MAX_DELIVER
      invariant 1 <= delivery <= MAX_DELIVER
      invariant window == MAX_DELIVER * DeliveryS(s) + DelaySum(s.nak.value, delivery - 1)
    {
      window := window + DelayS(s.nak.value, delivery);
      delivery := delivery + 1;
    }
    return Some(window);
  }

  function QuarantineAfter(s: LaneSpec): Option<nat> {
    var window :- AttemptWindow(s);
    Some(s.maxAge + window)
  }

  predicate Covers(w: nat, lanes: seq<LaneSpec>) {
    forall s | s in lanes && s.nak.Some? :: AttemptWindow(s).value <= w
  }

  /** The least whole number of hours that is at least `x`. */
  function WholeHours(x: nat): (w: nat)
    ensures w % HOUR == 0 && x <= w
    ensures forall h: nat | h % HOUR == 0 && x <= h :: w <= h
  {
    (x + HOUR - 1) / HOUR * HOUR
  }

  lemma CoversMore(w: nat, lanes: seq<LaneSpec>, s: LaneSpec)
    ensures Covers(w, lanes + [s]) <==> Covers(w, lanes) && (s.nak.Some? ==> AttemptWindow(s).value <= w)
  {
    assert s in lanes + [s];
    assert forall x | x in lanes :: x in lanes + [s];
  }

  lemma CoversWider(w: nat, w': nat, lanes: seq<LaneSpec>)
    requires Covers(w, lanes) && w <= w'
    ensures Covers(w', lanes)
  {
  }

  /** `w` is the widest window, or zero when no lane has one. */
  predicate IsWidest(w: nat, lanes: seq<LaneSpec>) {
    Covers(w, lanes) && (w == 0 || exists s :: s in lanes && AttemptWindow(s) == Some(w))
  }

  lemma WidestMore(w: nat, lanes: seq<LaneSpec>, s: LaneSpec)
    requires IsWidest(w, lanes)
    ensures IsWidest(if s.nak.Some? && AttemptWindow(s).value > w then AttemptWindow(s).value else w, lanes + [s])
  {
    var w' := if s.nak.Some? && AttemptWindow(s).value > w then AttemptWindow(s).value else w;
    CoversWider(w, w', lanes);
    CoversMore(w', lanes, s);
    if w' > w {
      assert s in lanes + [s];
    } else if w > 0 {
      var x :| x in lanes && AttemptWindow(x) == Some(w);
      assert x in lanes + [s];
    }
  }

  lemma WidestIsLeast(w: nat, lanes: seq<LaneSpec>, h: nat)
    requires IsWidest(w, lanes)
    ensures Covers(h, lanes) <==> w <= h
  {
    if w <= h { CoversWider(w, h, lanes); }
  }

  /** `done_duplicate_window_seconds`: the least whole number of hours that covers every lane. */
  method DoneDuplicateWindow(lanes: seq<LaneSpec>) returns (w: nat)
    ensures w % HOUR == 0 && Covers(w, lanes)
    ensures forall h: nat | h % HOUR == 0 && Covers(h, lanes) :: w <= h
  {
    var widest: nat := 0;
    var index := 0;
    while index < |lanes|
      invariant 0 <= index <= |lanes|
      invariant IsWidest(widest, lanes[..index])
    {
      WidestMore(widest, lanes[..index], lanes[index]);
      assert lanes[..index + 1] == lanes[..index] + [lanes[index]];
      var window := AttemptWindowS(lanes[index]);
      if window.Some? && window.value > widest {
        widest := window.value;
      }
      index := index + 1;
    }
    assert lanes[..index] == lanes;
    w := WholeHours(widest);
    forall h: nat
      ensures Covers(h, lanes) <==> widest <= h
    {
      WidestIsLeast(widest, lanes, h);
    }
  }

  // ---------- every run of one task ----------

  /** One delivery: the results it publishes fall between its start and its end. */
  datatype Delivery = Delivery(start: real, end: real, published: seq<(real, Status)>)

  predicate LegalDelivery(s: LaneSpec, d: Delivery) {
    && d.start <= d.end <= d.start + DeliveryS(s) as real
    && forall p | p in d.published :: d.start <= p.0 <= d.end
  }

  /** At most `MAX_DELIVER` deliveries, each at the latest a backoff delay after the one before. */
  predicate LegalRun(s: LaneSpec, run: seq<Delivery>) {
    && s.nak.Some?
    && |run| <= MAX_DELIVER
    && (forall i | 0 <= i < |run| :: LegalDelivery(s, run[i]))
    && (forall i | 0 < i < |run| ::
          run[i - 1].start <= run[i].start <= run[i - 1].end + DelayS(s.nak.value, i) as real)
  }

  /** The latest start of delivery `i`, counted from the first. */
  function Slack(s: LaneSpec, i: nat): nat
    requires s.nak.Some?
  {
    if i == 0 then 0 else Slack(s, i - 1) + DeliveryS(s) + DelayS(s.nak.value, i)
  }

  lemma OneMore(n: nat, d: nat)
    requires n > 0
    ensures n * d == (n - 1) * d + d
  {
  }

  lemma {:induction false} SlackIsSum(s: LaneSpec, i: nat)
    requires s.nak.Some?
    ensures Slack(s, i) == i * DeliveryS(s) + DelaySum(s.nak.value, i)
  {
    if i > 0 {
      SlackIsSum(s, i - 1);
      OneMore(i, DeliveryS(s));
    }
  }

  lemma {:induction false} SlackGrows(s: LaneSpec, i: nat, j: nat)
    requires s.nak.Some? && i <= j
    ensures Slack(s, i) <= Slack(s, j)
    decreases j
  {
    if i < j { SlackGrows(s, i, j - 1); }
  }

  lemma WindowIsLastSlack(s: LaneSpec)
    requires s.nak.Some?
    ensures AttemptWindow(s).value == Slack(s, MAX_DELIVER - 1) + DeliveryS(s)
  {
    SlackIsSum(s, MAX_DELIVER - 1);
    OneMore(MAX_DELIVER, DeliveryS(s));
  }

  lemma {:induction false} StartBound(s: LaneSpec, run: seq<Delivery>, i: nat)
    requires LegalRun(s, run) && i < |run|
    ensures run[0].start <= run[i].start <= run[0].start + Slack(s, i) as real
  {
    if i > 0 {
      StartBound(s, run, i - 1);
      assert LegalDelivery(s, run[i - 1]);
    }
  }

  /** `p` is a result the run publishes. */
  predicate Publishes(run: seq<Delivery>, p: (real, Status)) {
    exists i | 0 <= i < |run| :: p in run[i].published
  }

  /** Every publish of a run falls in the attempt window that opens with its first delivery. */
  lemma PublishBound(s: LaneSpec, run: seq<Delivery>, p: (real, Status))
    requires LegalRun(s, run) && Publishes(run, p)
    ensures run[0].start <= p.0 <= run[0].start + AttemptWindow(s).value as real
  {
    var i :| 0 <= i < |run| && p in run[i].published;
    StartBound(s, run, i);
    assert LegalDelivery(s, run[i]);
    SlackGrows(s, i, MAX_DELIVER - 1);
    WindowIsLastSlack(s);
  }

  /** A task first delivered within the stream's maximum age publishes nothing later than
      `quarantine_after_s` after it was enqueued. */
  lemma PublishBeforeQuarantine(s: LaneSpec, run: seq<Delivery>, p: (real, Status), enqueued: real)
    requires LegalRun(s, run) && Publishes(run, p)
    requires run[0].start <= enqueued + s.maxAge as real
    ensures p.0 <= enqueued + QuarantineAfter(s).value as real
  {
    PublishBound(s, run, p);
  }

  // ---------- the result stream ----------

  /** A result arriving at the stream. */
  datatype Arrival = Arrival(time: real, result: Result)

  type Naming = Result -> string

  predicate IsDuplicate(a: Arrival, stored: seq<Arrival>, id: Naming, window: nat) {
    exists k | 0 <= k < |stored| ::
      id(stored[k].result) == id(a.result) && a.time <= stored[k].time + window as real
  }

  /** What the stream stores: arrivals whose id it did not store within the window (inclusive). */
  function Stored(log: seq<Arrival>, id: Naming, window: nat): (r: seq<Arrival>)
    ensures forall a | a in r :: a in log
  {
    if log == [] then []
    else
      var before, last := Stored(log[..|log| - 1], id, window), log[|log| - 1];
      if IsDuplicate(last, before, id, window) then before else before + [last]
  }

  predicate Holds(stored: seq<Arrival>, id: Naming, x: string) {
    exists a | a in stored :: id(a.result) == x
  }

  /** No id that arrived is missing from the store. */
  lemma {:induction false} StoredCoversLog(log: seq<Arrival>, id: Naming, window: nat, a: Arrival)
    requires a in log
    ensures Holds(Stored(log, id, window), id, id(a.result))
  {
    var init, last := log[..|log| - 1], log[|log| - 1];
    assert log == init + [last];
    var before := Stored(init, id, window);
    if a in init {
      StoredCoversLog(init, id, window, a);
      var b :| b in before && id(b.result) == id(a.result);
      assert b in Stored(log, id, window);
    } else if IsDuplicate(last, before, id, window) {
      var k :| 0 <= k < |before| && id(before[k].result) == id(last.result);
      assert before[k] in before;
    } else {
      assert last in before + [last];
    }
  }

  /** Arrivals that share an id lie within the window. */
  predicate Close(log: seq<Arrival>, id: Naming, window: nat) {
    forall a, b | a in log && b in log && id(a.result) == id(b.result) :: a.time <= b.time + window as real
  }

  /** Then no id is stored twice. */
  lemma {:induction false} StoredOncePerId(log: seq<Arrival>, id: Naming, window: nat, i: nat, j: nat)
    requires Close(log, id, window)
    requires i < j < |Stored(log, id, window)|
    ensures id(Stored(log, id, window)[i].result) != id(Stored(log, id, window)[j].result)
  {
    var init, last := log[..|log| - 1], log[|log| - 1];
    var before := Stored(init, id, window);
    assert log == init + [last];
    if j < |before| {
      StoredOncePerId(init, id, window, i, j);
    } else {
      assert before[i] in log;
    }
  }

  predicate Faithful(log: seq<Arrival>, id: Naming) {
    forall a, b | a in log && b in log && id(a.result) == id(b.result) :: a.result == b.result
  }

  /** Exactly one stored arrival carries `r`. */
  predicate StoredOnce(stored: seq<Arrival>, r: Result) {
    exists k | 0 <= k < |stored| :: stored[k].result == r
      && forall j | 0 <= j < |stored| && stored[j].result == r :: j == k
  }

  predicate DistinctIds(stored: seq<Arrival>, id: Naming) {
    forall i, j | 0 <= i < j < |stored| :: id(stored[i].result) != id(stored[j].result)
  }

  lemma HeldOnce(stored: seq<Arrival>, id: Naming, b: Arrival)
    requires DistinctIds(stored, id) && b in stored
    ensures StoredOnce(stored, b.result)
  {
    var k :| 0 <= k < |stored| && stored[k] == b;
    assert forall j | 0 <= j < |stored| && stored[j].result == b.result :: j == k;
  }

  lemma StoredIsDistinct(log: seq<Arrival>, id: Naming, window: nat)
    requires Close(log, id, window)
    ensures DistinctIds(Stored(log, id, window), id)
  {
    var stored := Stored(log, id, window);
    forall i, j | 0 <= i < j < |stored|
      ensures id(stored[i].result) != id(stored[j].result)
    {
      StoredOncePerId(log, id, window, i, j);
    }
  }

  lemma FaithfulTo(log: seq<Arrival>, id: Naming, a: Arrival, b: Arrival)
    requires Faithful(log, id) && a in log && b in log && id(a.result) == id(b.result)
    ensures a.result == b.result
  {
  }

  lemma CloseFaithfulStoresOnce(log: seq<Arrival>, id: Naming, window: nat, a: Arrival)
    requires Close(log, id, window) && Faithful(log, id) && a in log
    ensures StoredOnce(Stored(log, id, window), a.result)
  {
    StoredIsDistinct(log, id, window);
    StoredCoversLog(log, id, window, a);
    var b :| b in Stored(log, id, window) && id(b.result) == id(a.result);
    FaithfulTo(log, id, a, b);
    HeldOnce(Stored(log, id, window), id, b);
  }

  // ---------- all tasks together ----------

  datatype Task = Task(lane: Lane, correlation: string, taskSeq: nat)

  function TaskOf(r: Result): Task {
    Task(r.lane, r.correlation, r.taskSeq)
  }

  /** Every arrival is a publish of a legal run of its task, on a lane the window was computed for. */
  predicate FromRuns(log: seq<Arrival>, lanes: seq<LaneSpec>, specs: map<Lane, LaneSpec>, runs: map<Task, seq<Delivery>>) {
    forall a | a in log ::
      && Clean(a.result.correlation)
      && a.result.lane in specs && specs[a.result.lane] in lanes
      && TaskOf(a.result) in runs
      && LegalRun(specs[a.result.lane], runs[TaskOf(a.result)])
      && Publishes(runs[TaskOf(a.result)], (a.time, a.result.status))
  }

  lemma RunsAreClose(log: seq<Arrival>, window: nat, lanes: seq<LaneSpec>, specs: map<Lane, LaneSpec>,
                     runs: map<Task, seq<Delivery>>)
    requires FromRuns(log, lanes, specs, runs) && Covers(window, lanes)
    ensures Close(log, DoneMsgId, window)
  {
    forall a, b | a in log && b in log && DoneMsgId(a.result) == DoneMsgId(b.result)
      ensures a.time <= b.time + window as real
    {
      CleanIdsDiffer(a.result, b.result);
      var spec, run := specs[a.result.lane], runs[TaskOf(a.result)];
      PublishBound(spec, run, (a.time, a.result.status));
      PublishBound(spec, run, (b.time, b.result.status));
    }
  }

  /** However the runs of all tasks interleave, every published result is stored exactly once. */
  lemma EveryResultStoredOnce(log: seq<Arrival>, window: nat, lanes: seq<LaneSpec>, specs: map<Lane, LaneSpec>,
                              runs: map<Task, seq<Delivery>>, a: Arrival)
    requires FromRuns(log, lanes, specs, runs) && Covers(window, lanes)
    requires a in log
    ensures StoredOnce(Stored(log, DoneMsgId, window), a.result)
  {
    RunsAreClose(log, window, lanes, specs, runs);
    forall x, y | x in log && y in log && DoneMsgId(x.result) == DoneMsgId(y.result)
      ensures x.result == y.result
    {
      CleanIdsDiffer(x.result, y.result);
    }
    CloseFaithfulStoresOnce(log, DoneMsgId, window, a);
  }

  /** The slowest legal run: it publishes at its first start and at its last end. */
  function SlowestRun(s: LaneSpec, status: Status): (run: seq<Delivery>)
    requires s.nak.Some?
  {
    seq(MAX_DELIVER, i requires 0 <= i < MAX_DELIVER =>
      Delivery(Slack(s, i) as real, (Slack(s, i) + DeliveryS(s)) as real,
        if i == 0 then [(0.0, status)]
        else if i == MAX_DELIVER - 1 then [((Slack(s, i) + DeliveryS(s)) as real, status)]
        else []))
  }

  lemma SlowestRunIsLegal(s: LaneSpec, status: Status)
    requires s.nak.Some?
    ensures LegalRun(s, SlowestRun(s, status))
  {
    var run := SlowestRun(s, status);
    forall i | 0 < i < |run|
      ensures run[i - 1].start <= run[i].start <= run[i - 1].end + DelayS(s.nak.value, i) as real
    {
      assert Slack(s, i) == Slack(s, i - 1) + DeliveryS(s) + DelayS(s.nak.value, i);
    }
  }

  lemma SlowestRunPublishes(s: LaneSpec, status: Status)
    requires s.nak.Some?
    ensures Publishes(SlowestRun(s, status), (0.0, status))
    ensures Publishes(SlowestRun(s, status), (AttemptWindow(s).value as real, status))
  {
    var run := SlowestRun(s, status);
    WindowIsLastSlack(s);
    assert run[0].published == [(0.0, status)];
    assert run[MAX_DELIVER - 1].published == [(AttemptWindow(s).value as real, status)];
    assert (0.0, status) in run[0].published;
    assert (AttemptWindow(s).value as real, status) in run[MAX_DELIVER - 1].published;
  }

  /** A window any narrower than a lane's attempt window stores some result twice. */
  lemma NarrowWindowStoresTwice(s: LaneSpec, window: nat, r: Result)
    requires s.nak.Some? && window < AttemptWindow(s).value
    ensures var run := SlowestRun(s, r.status);
            var log := [Arrival(0.0, r), Arrival(AttemptWindow(s).value as real, r)];
            && LegalRun(s, run)
            && (forall a | a in log :: Publishes(run, (a.time, r.status)))
            && Stored(log, DoneMsgId, window) == log
  {
    SlowestRunIsLegal(s, r.status);
    SlowestRunPublishes(s, r.status);
    StoresBoth(Arrival(0.0, r), Arrival(AttemptWindow(s).value as real, r), DoneMsgId, window);
  }

  lemma StoresBoth(a: Arrival, b: Arrival, id: Naming, window: nat)
    requires b.time > a.time + window as real
    ensures Stored([a, b], id, window) == [a, b]
  {
    assert [a, b][..1] == [a] && [a][..0] == [];
    assert Stored([a], id, window) == [a];
  }

  /** A correlation that names a placeholder costs a result: it arrives together with the one it
      shares its id with, and only that one is stored, whatever the window. */
  lemma UncleanResultIsLost(r: Result, time: real, window: nat)
    requires !Clean(r.correlation)
    ensures var first := Arrival(time, r.(correlation := Scanned(r)));
            first.result != r && Stored([first, Arrival(time, r)], DoneMsgId, window) == [first]
  {
    PlaceholderCollides(r);
    StoresFirst(Arrival(time, r.(correlation := Scanned(r))), Arrival(time, r), DoneMsgId, window);
  }

  lemma StoresFirst(a: Arrival, b: Arrival, id: Naming, window: nat)
    requires b.time == a.time && id(a.result) == id(b.result)
    ensures Stored([a, b], id, window) == [a]
  {
    assert [a, b][..1] == [a] && [a][..0] == [];
    assert Stored([a], id, window) == [a];
    assert IsDuplicate(b, [a], id, window);
  }

  // ---------- the deployed lanes ----------

  const WORKER_LANES: seq<LaneSpec> := [
    LaneSpec(Audio, DAY, 180, Some(NakBackoff(30, 600)), true),
    LaneSpec(Lyrics, DAY, 60, Some(NakBackoff(15, 300)), true),
    LaneSpec(Transcribe, DAY, 900, Some(NakBackoff(60, 900)), true),
    LaneSpec(Encode, DAY, 30, Some(NakBackoff(5, 60)), false),
    LaneSpec(Collab, 6 * HOUR, 3600, Some(NakBackoff(120, 1800)), false),
    LaneSpec(Taste, DAY, 7200, Some(NakBackoff(300, 1800)), false),
    LaneSpec(Ai, 120, 20, None, false)
  ]

  lemma SmallDelay(b: NakBackoff, n: nat, f: nat)
    requires 1 <= n <= 4 && f == Pow2(n - 1) && f * b.base <= U64_MAX
    ensures DelayS(b, n) == Min(f * b.base, b.cap)
  {
  }

  lemma FourDelays(b: NakBackoff)
    requires 8 * b.base <= U64_MAX
    ensures DelaySum(b, 4) == Min(b.base, b.cap) + Min(2 * b.base, b.cap) + Min(4 * b.base, b.cap) + Min(8 * b.base, b.cap)
  {
    SmallDelay(b, 1, 1);
    SmallDelay(b, 2, 2);
    SmallDelay(b, 3, 4);
    SmallDelay(b, 4, 8);
    assert DelaySum(b, 1) == DelaySum(b, 0) + DelayS(b, 1);
    assert DelaySum(b, 2) == DelaySum(b, 1) + DelayS(b, 2);
    assert DelaySum(b, 3) == DelaySum(b, 2) + DelayS(b, 3);
  }

  /** The design's table: the attempt window and the quarantine age of each retried lane. */
  function DesignedAges(lane: Lane): Option<(nat, nat)> {
    match lane
    case Audio => Some((1650, 88050))
    case Lyrics => Some((825, 87225))
    case Transcribe => Some((5700, 92100))
    case Encode => Some((225, 86625))
    case Collab => Some((19800, 41400))
    case Taste => Some((39900, 126300))
    case Ai => None
  }

  /** The formulas give every deployed lane the ages of the design's table, and only the lane
      without backoff has none. */
  lemma DeployedWindows(s: LaneSpec)
    requires s in WORKER_LANES
    ensures s.nak.Some? <==> DesignedAges(s.lane).Some?
    ensures s.nak.Some? ==>
              && AttemptWindow(s).value == DesignedAges(s.lane).value.0
              && QuarantineAfter(s).value == DesignedAges(s.lane).value.1
    ensures s.nak.None? ==> DeliveryS(s) == 20
  {
    if s.nak.Some? { FourDelays(s.nak.value); }
  }

  /** The window of the deployed stream is twelve hours, inside its three days of retention. */
  method DeployedWindow() returns (w: nat)
    ensures w == 12 * HOUR && w < 3 * DAY && Covers(w, WORKER_LANES)
  {
    w := DoneDuplicateWindow(WORKER_LANES);
    assert WORKER_LANES[5] in WORKER_LANES;
    forall s | s in WORKER_LANES && s.nak.Some?
      ensures AttemptWindow(s).value <= 39900 && (s.lane == Taste ==> AttemptWindow(s).value == 39900)
    {
      DeployedWindows(s);
    }
    assert Covers(12 * HOUR, WORKER_LANES);
  }
}
