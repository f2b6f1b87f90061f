/** The background scheduler's retry backoff and the readiness it feeds. Instants are whole
    nanoseconds, delays whole milliseconds. */
module SchedulerHealth {
  import opened Numbers
  import opened Text

  const MS := 1_000_000
  const POLL_INTERVAL := 1000
  const MAX_RETRY_DELAY := 30_000
  const SCHEDULER_STALE_AFTER := 15_000
  const TWO64 := 0x1_0000_0000_0000_0000

  // ---------- retry delay ----------

  /** The bits that leave the word come back at the bottom. */
  function Wrapped(shifted: nat): nat {
    shifted % TWO64 + shifted / TWO64
  }

  /** `u64::rotate_left`. */
  function RotateLeft(x: nat, n: nat): nat {
    Wrapped(x * Pow2(n % 64))
  }

  function Exponent(failures: nat): (e: nat)
    ensures e <= 5
  {
    Min(if failures == 0 then 0 else failures - 1, 5)
  }

  /** `retry_delay`, in milliseconds. */
  function RetryDelay(failures: nat, seed: nat): nat {
    var base := POLL_INTERVAL * Pow2(Exponent(failures));
    var jitter := RotateLeft(seed, failures) % (base / 4 + 1);
    Min(base + jitter, MAX_RETRY_DELAY)
  }

  /** Whatever the seed: between the power of two and a quarter more, in seconds, for the first five
      failures, and exactly thirty seconds from the sixth on. */
  lemma RetryDelayRange(failures: nat, seed: nat)
    requires failures >= 1
    ensures failures <= 5 ==>
              1000 * Pow2(failures - 1) <= RetryDelay(failures, seed) <= 1250 * Pow2(failures - 1)
    ensures failures >= 6 ==> RetryDelay(failures, seed) == 30_000
  {
    SmallPowers();
    var base := POLL_INTERVAL * Pow2(Exponent(failures));
    assert base in {1000, 2000, 4000, 8000, 16000, 32000};
    assert 0 <= RotateLeft(seed, failures) % (base / 4 + 1) <= base / 4;
  }

  lemma {:induction false} Pow2Add(m: nat, n: nat)
    ensures Pow2(m + n) == Pow2(m) * Pow2(n)
  {
    if m > 0 {
      Pow2Add(m - 1, n);
      Reassociate(Pow2(m - 1), Pow2(n));
    }
  }

  lemma Reassociate(a: nat, b: nat)
    ensures 2 * a * b == 2 * (a * b)
  {
  }

  lemma Shifted(hi: nat, lo: nat, a: nat, b: nat)
    requires a * b == TWO64
    ensures (hi * a + lo) * b == hi * TWO64 + lo * b
  {
    assert (hi * a + lo) * b == (hi * a) * b + lo * b;
    assert (hi * a) * b == hi * (a * b);
  }

  lemma BelowWord(lo: nat, a: nat, b: nat)
    requires lo < a && a * b == TWO64 && b >= 1
    ensures lo * b < TWO64
  {
    MulMonotone(b, lo, a - 1);
    assert b * (a - 1) == b * a - b;
  }

  lemma ShiftedWord(hi: nat, lo: nat, n: nat)
    requires n < 64 && lo < Pow2(64 - n)
    ensures (hi * Pow2(64 - n) + lo) * Pow2(n) == hi * TWO64 + lo * Pow2(n) && lo * Pow2(n) < TWO64
  {
    Pow2Add(64 - n, n);
    WordPowers();
    Shifted(hi, lo, Pow2(64 - n), Pow2(n));
    BelowWord(lo, Pow2(64 - n), Pow2(n));
  }

  lemma WrappedIs(hi: nat, low: nat)
    requires low < TWO64
    ensures Wrapped(hi * TWO64 + low) == low + hi
  {
  }

  /** Rotation moves the top `n` of the 64 bits to the bottom. */
  lemma RotateMovesTop(hi: nat, lo: nat, n: nat)
    requires n < 64 && hi < Pow2(n) && lo < Pow2(64 - n)
    ensures RotateLeft(hi * Pow2(64 - n) + lo, n) == lo * Pow2(n) + hi
  {
    ShiftedWord(hi, lo, n);
    WrappedIs(hi, lo * Pow2(n));
    SmallModulo(n, 64);
  }

  /** The delay for each of the first five failures, bit by bit of the seed. */
  lemma RetryDelayIs(failures: nat, hi: nat, lo: nat)
    requires 1 <= failures <= 5 && hi < Pow2(failures) && lo < Pow2(64 - failures)
    ensures RetryDelay(failures, hi * Pow2(64 - failures) + lo)
         == 1000 * Pow2(failures - 1) + (lo * Pow2(failures) + hi) % (250 * Pow2(failures - 1) + 1)
  {
    SmallPowers();
    RotateMovesTop(hi, lo, failures);
    var base, rotated := 1000 * Pow2(failures - 1), lo * Pow2(failures) + hi;
    assert base in {1000, 2000, 4000, 8000, 16000};
    assert base / 4 == 250 * Pow2(failures - 1);
    assert 0 <= rotated % (base / 4 + 1) <= base / 4;
  }

  /** Every delay of the range occurs for some seed. */
  lemma JitterCovers(failures: nat, jitter: nat) returns (seed: nat)
    requires 1 <= failures <= 5 && jitter <= 250 * Pow2(failures - 1)
    ensures seed < TWO64 && RetryDelay(failures, seed) == 1000 * Pow2(failures - 1) + jitter
  {
    var hi, lo := LowBits(failures, jitter);
    RetryDelayIs(failures, hi, lo);
    SmallModulo(jitter, 250 * Pow2(failures - 1) + 1);
    seed := hi * Pow2(64 - failures) + lo;
    SeedFits(hi, lo, failures);
  }

  lemma SmallModulo(x: nat, m: nat)
    requires x < m
    ensures x % m == x
  {
  }

  lemma LowBits(n: nat, x: nat) returns (hi: nat, lo: nat)
    requires 1 <= n <= 5 && x <= 250 * Pow2(n - 1)
    ensures hi < Pow2(n) && lo < Pow2(64 - n) && lo * Pow2(n) + hi == x
  {
    SmallPowers();
    var m := Pow2(n);
    assert m in {2, 4, 8, 16, 32};
    hi, lo := x % m, x / m;
    Pow2Monotone(12, 64 - n);
    assert Pow2(8) == 256;
    assert Pow2(12) == 4096;
  }

  lemma SeedFits(hi: nat, lo: nat, n: nat)
    requires n <= 64 && hi < Pow2(n) && lo < Pow2(64 - n)
    ensures hi * Pow2(64 - n) + lo < TWO64
  {
    Pow2Add(n, 64 - n);
    WordPowers();
    ProductFits(hi, lo, Pow2(n), Pow2(64 - n));
  }

  lemma ProductFits(hi: nat, lo: nat, m: nat, p: nat)
    requires hi < m && lo < p && m * p == TWO64
    ensures hi * p + lo < TWO64
  {
    MulMonotone(p, hi, m - 1);
    assert p * (m - 1) == p * m - p;
  }

  lemma RetryDelayGrows(m: nat, n: nat, seed: nat)
    requires 1 <= m <= n
    ensures RetryDelay(m, seed) <= RetryDelay(n, seed)
  {
    RetryDelayRange(m, seed);
    RetryDelayRange(n, seed);
    if m < n <= 5 {
      Pow2Monotone(m, n - 1);
    } else if m <= 5 {
      Pow2Monotone(m - 1, 4);
      SmallPowers();
    }
  }

  // ---------- health ----------

  predicate Recent(success: Option<int>, now: int) {
    success.Some? && now - success.value <= SCHEDULER_STALE_AFTER * MS
  }

  datatype Dependency = MainDatabase | OpsDatabase | Nats | Qdrant

  /** What the parts of the process report to the shared state. */
  datatype Report = Accepting(on: bool) | Healthy(dependency: Dependency, on: bool) | Succeeded(at: int)

  class HealthState {
    var accepting: bool
    var mainDatabase: bool
    var opsDatabase: bool
    var nats: bool
    var qdrant: bool
    var schedulerSuccess: Option<int>

    constructor ()
      ensures forall d :: !IsHealthy(d)
      ensures !accepting && schedulerSuccess == None
      ensures forall now :: !IsReady(now)
    {
      accepting, mainDatabase, opsDatabase, nats, qdrant := false, false, false, false, false;
      schedulerSuccess := None;
    }

    predicate IsHealthy(d: Dependency)
      reads this
    {
      match d
      case MainDatabase => mainDatabase
      case OpsDatabase => opsDatabase
      case Nats => nats
      case Qdrant => qdrant
    }

    predicate IsReady(now: int)
      reads this
      ensures IsReady(now) ==> Recent(schedulerSuccess, now)
    {
      accepting && mainDatabase && opsDatabase && nats && qdrant && Recent(schedulerSuccess, now)
    }

    method MarkReady()
      modifies this`accepting
      ensures accepting
    {
      accepting := true;
    }

    method MarkStopping()
      modifies this`accepting
      ensures !accepting && forall now :: !IsReady(now)
    {
      accepting := false;
    }

    /** The four setters; each reports whether its flag changed. While one flag is false the process
        is not ready. */
    method SetHealthy(d: Dependency, healthy: bool) returns (changed: bool)
      modifies this`mainDatabase, this`opsDatabase, this`nats, this`qdrant
      ensures forall e :: IsHealthy(e) == if e == d then healthy else old(IsHealthy(e))
      ensures changed <==> old(IsHealthy(d)) != healthy
      ensures !healthy ==> forall now :: !IsReady(now)
      ensures !changed ==> forall now :: IsReady(now) == old(IsReady(now))
    {
      changed := IsHealthy(d) != healthy;
      match d
      case MainDatabase => mainDatabase := healthy;
      case OpsDatabase => opsDatabase := healthy;
      case Nats => nats := healthy;
      case Qdrant => qdrant := healthy;
      assert forall e :: IsHealthy(e) == if e == d then healthy else old(IsHealthy(e));
    }

    method MarkSchedulerSuccess(now: int)
      modifies this`schedulerSuccess
      ensures schedulerSuccess == Some(now)
    {
      schedulerSuccess := Some(now);
    }

    method Receive(r: Report)
      modifies this
      ensures accepting == if r.Accepting? then r.on else old(accepting)
      ensures forall d :: IsHealthy(d) == if r.Healthy? && r.dependency == d then r.on else old(IsHealthy(d))
      ensures schedulerSuccess == if r.Succeeded? then Some(r.at) else old(schedulerSuccess)
    {
      match r
      case Accepting(on) =>
        if on { MarkReady(); } else { MarkStopping(); }
      case Healthy(d, on) =>
        var _ := SetHealthy(d, on);
      case Succeeded(at) =>
        MarkSchedulerSuccess(at);
    }
  }

  // ---------- readiness over every history of reports ----------

  /** The last report that the process accepts work, or does not. */
  function LastAccepting(reports: seq<Report>): Option<bool> {
    if reports == [] then None else
    var r := reports[|reports| - 1];
    if r.Accepting? then Some(r.on) else LastAccepting(reports[..|reports| - 1])
  }

  function LastHealth(reports: seq<Report>, d: Dependency): Option<bool> {
    if reports == [] then None else
    var r := reports[|reports| - 1];
    if r.Healthy? && r.dependency == d then Some(r.on) else LastHealth(reports[..|reports| - 1], d)
  }

  function LastSuccess(reports: seq<Report>): Option<int> {
    if reports == [] then None else
    var r := reports[|reports| - 1];
    if r.Succeeded? then Some(r.at) else LastSuccess(reports[..|reports| - 1])
  }

  /** After every history of reports in every order, the process is ready exactly when it was last
      told to accept work, every dependency was last reported healthy, and the last success of the
      scheduler is recent. */
  method Replay(reports: seq<Report>) returns (health: HealthState)
    ensures fresh(health)
    ensures forall now :: health.IsReady(now) <==>
              && LastAccepting(reports) == Some(true)
              && (forall d :: LastHealth(reports, d) == Some(true))
              && LastSuccess(reports).Some? && now - LastSuccess(reports).value <= 15_000_000_000
  {
    health := new HealthState();
    for i := 0 to |reports|
      invariant fresh(health)
      invariant health.accepting <==> LastAccepting(reports[..i]) == Some(true)
      invariant forall d :: health.IsHealthy(d) <==> LastHealth(reports[..i], d) == Some(true)
      invariant health.schedulerSuccess == LastSuccess(reports[..i])
    {
      health.Receive(reports[i]);
      assert reports[..i + 1][..i] == reports[..i];
    }
    assert reports[..|reports|] == reports;
    assert (forall d :: health.IsHealthy(d)) <==>
           health.IsHealthy(MainDatabase) && health.IsHealthy(OpsDatabase) && health.IsHealthy(Nats) && health.IsHealthy(Qdrant);
  }

  // ---------- the scheduler's run ----------

  /** One round: how long the database call took, how it ended, and how late the sleep after it was. */
  datatype Round = Round(spent: nat, ok: bool, late: nat)

  /** After a round: when its result came, when the next call starts, and what was recorded. */
  datatype State = State(at: int, wake: int, failures: nat, success: Option<int>)

  function Step(s: State, r: Round, seed: nat): State {
    var at := s.wake + r.spent;
    if r.ok then State(at, at + POLL_INTERVAL * MS + r.late, 0, Some(at))
    else State(at, at + RetryDelay(s.failures + 1, seed) * MS + r.late, s.failures + 1, s.success)
  }

  function Steps(s: State, rounds: seq<Round>, seed: nat): State
    decreases rounds
  {
    if rounds == [] then s else Steps(Step(s, rounds[0], seed), rounds[1..], seed)
  }

  /** `run`, up to the round where the shutdown comes. */
  method Run(health: HealthState, now: int, seed: nat, rounds: seq<Round>) returns (end: State)
    modifies health`schedulerSuccess
    ensures end == Steps(State(now, now, 0, old(health.schedulerSuccess)), rounds, seed)
    ensures health.schedulerSuccess == end.success
  {
    var failures, at, wake := 0, now, now;
    var i := 0;
    while i < |rounds|
      invariant 0 <= i <= |rounds|
      invariant failures >= 0
      invariant Steps(State(at, wake, failures, health.schedulerSuccess), rounds[i..], seed)
             == Steps(State(now, now, 0, old(health.schedulerSuccess)), rounds, seed)
    {
      assert rounds[i..][1..] == rounds[i + 1..];
      at := wake + rounds[i].spent;
      var delay;
      if rounds[i].ok {
        failures := 0;
        health.MarkSchedulerSuccess(at);
        delay := POLL_INTERVAL;
      } else {
        failures := failures + 1;
        delay := RetryDelay(failures, seed);
      }
      wake := at + delay * MS + rounds[i].late;
      i := i + 1;
    }
    end := State(at, wake, failures, health.schedulerSuccess);
  }

  /** The least time from a success to the k-th failure after it, in milliseconds. */
  function Floor(k: nat): nat {
    if k == 0 then 0 else 1000 * Pow2(Min(k, 5) - 1)
  }

  predicate Spaced(s: State) {
    s.success.Some? ==>
      && s.at - s.success.value >= Floor(s.failures) * MS
      && s.wake - s.success.value >= Floor(s.failures + 1) * MS
  }

  lemma StepSpaced(s: State, r: Round, seed: nat)
    requires Spaced(s)
    ensures Spaced(Step(s, r, seed))
  {
    SmallPowers();
    if !r.ok {
      RetryDelayRange(s.failures + 1, seed);
      assert Floor(s.failures + 2) <= Floor(s.failures + 1) + RetryDelay(s.failures + 1, seed);
    }
  }

  lemma {:induction false} StepsSpaced(s: State, rounds: seq<Round>, seed: nat)
    requires Spaced(s)
    ensures Spaced(Steps(s, rounds, seed))
    decreases rounds
  {
    if rounds != [] {
      StepSpaced(s, rounds[0], seed);
      StepsSpaced(Step(s, rounds[0], seed), rounds[1..], seed);
    }
  }

  /** On every run from a start without a recorded success, whatever the seed and however long the
      calls take: from the fifth failure in a row until the next success the scheduler is stale. */
  lemma StaleFromFifthFailure(start: int, rounds: seq<Round>, seed: nat, now: int)
    requires var s := Steps(State(start, start, 0, None), rounds, seed); s.failures >= 5 && now >= s.at
    ensures !Recent(Steps(State(start, start, 0, None), rounds, seed).success, now)
  {
    SmallPowers();
    StepsSpaced(State(start, start, 0, None), rounds, seed);
  }

  /** No monitor, flag or restart of the accepting phase makes such a process ready. */
  lemma NotReadyFromFifthFailure(health: HealthState, start: int, rounds: seq<Round>, seed: nat, now: int)
    requires var s := Steps(State(start, start, 0, None), rounds, seed);
             s.failures >= 5 && now >= s.at && health.schedulerSuccess == s.success
    ensures !health.IsReady(now)
  {
    StaleFromFifthFailure(start, rounds, seed, now);
  }

  const PROMPT_OK := Round(0, true, 0)
  const PROMPT_FAILURE := Round(0, false, 0)

  function Prompt(k: nat): seq<Round> {
    seq(k, _ => PROMPT_OK)
  }

  /** While the database answers, the scheduler succeeds once a second. */
  lemma {:induction false} HealthyPolls(s: State, k: nat, seed: nat)
    requires s.failures == 0
    ensures var end := Steps(s, Prompt(k), seed);
            k > 0 ==> end == State(s.wake + (k - 1) * 1_000_000_000, s.wake + k * 1_000_000_000, 0,
                                   Some(s.wake + (k - 1) * 1_000_000_000))
    decreases k
  {
    if k > 0 {
      assert Prompt(k)[0] == PROMPT_OK && Prompt(k)[1..] == Prompt(k - 1);
      HealthyPolls(Step(s, PROMPT_OK, seed), k - 1, seed);
    }
  }

  /** The fifth failure is the earliest that settles it: after four prompt failures in a row the
      last success is still recent, for every seed. */
  lemma RecentAfterFourFailures(start: int, seed: nat)
    ensures var s := Steps(State(start, start, 0, None),
                           [PROMPT_OK, PROMPT_FAILURE, PROMPT_FAILURE, PROMPT_FAILURE, PROMPT_FAILURE], seed);
            s.failures == 4 && Recent(s.success, s.at)
  {
    var f := PROMPT_FAILURE;
    SmallPowers();
    RetryDelayRange(1, seed);
    RetryDelayRange(2, seed);
    RetryDelayRange(3, seed);
    var s0 := State(start, start, 0, None);
    var s1 := Step(s0, PROMPT_OK, seed);
    var s2 := Step(s1, f, seed);
    var s3 := Step(s2, f, seed);
    var s4 := Step(s3, f, seed);
    var s5 := Step(s4, f, seed);
    assert [PROMPT_OK, f, f, f, f][1..] == [f, f, f, f] && [f, f, f, f][1..] == [f, f, f];
    assert [f, f, f][1..] == [f, f] && [f, f][1..] == [f] && [f][1..] == [];
    assert Steps(s3, [f, f], seed) == Steps(s4, [f], seed) == s5;
    assert Steps(s1, [f, f, f, f], seed) == Steps(s2, [f, f, f], seed) == Steps(s3, [f, f], seed);
  }
}
