/** The supervisor of long-running tasks: it waits for a shutdown or a task that ends, cancels the rest, and joins
    every task within a grace period, aborting what is left. */
module Supervisor {
  import opened Text

  datatype JoinError = Aborted | Panicked(what: string)
  /** What joining a task yields: its name and its error if any, or a failed join. */
  datatype Join = Exited(name: string, failure: Option<string>) | Broken(error: JoinError)
  datatype Error = Signal(what: string) | SignalClosed | NoTasks
                 | TaskExited(task: string) | TaskFailed(task: string, source: string) | TaskJoin(error: JoinError)

  function UnexpectedExit(task: Option<Join>): Error {
    match task
    case None => NoTasks
    case Some(Exited(name, None)) => TaskExited(name)
    case Some(Exited(name, Some(source))) => TaskFailed(name, source)
    case Some(Broken(error)) => TaskJoin(error)
  }

  function ShutdownFailure(task: Join): Option<Error> {
    match task
    case Exited(_, None) => None
    case Exited(name, Some(source)) => Some(TaskFailed(name, source))
    case Broken(Aborted) => None
    case Broken(error) => Some(TaskJoin(error))
  }

  function Or(a: Option<Error>, b: Option<Error>): Option<Error> {
    if a.Some? then a else b
  }

  /** The first failing join. */
  function FirstFailure(joins: seq<Join>): Option<Error> {
    if joins == [] then None else Or(ShutdownFailure(joins[0]), FirstFailure(joins[1..]))
  }

  /** The join counts as no failure at shutdown: the task ended well, or the abort reached it. */
  predicate IsQuiet(j: Join) {
    (j.Exited? && j.failure.None?) || (j.Broken? && j.error.Aborted?)
  }

  /** `e` says what went wrong in the join. */
  predicate Describes(e: Error, j: Join) {
    match j
    case Exited(name, failure) => failure.Some? && e == TaskFailed(name, failure.value)
    case Broken(error) => e == TaskJoin(error)
  }

  /** Nothing is reported exactly when every join is quiet; otherwise the first that is not. */
  predicate ReportsFirst(failure: Option<Error>, joins: seq<Join>) {
    && (failure.None? <==> forall j | j in joins :: IsQuiet(j))
    && (failure.Some? ==> exists k | 0 <= k < |joins| ::
          !IsQuiet(joins[k]) && Describes(failure.value, joins[k]) && forall i | 0 <= i < k :: IsQuiet(joins[i]))
  }

  lemma {:induction false} FirstFailureReports(joins: seq<Join>)
    ensures ReportsFirst(FirstFailure(joins), joins)
  {
    if joins != [] {
      var rest := joins[1..];
      FirstFailureReports(rest);
      assert forall j :: j in joins <==> j == joins[0] || j in rest;
      if IsQuiet(joins[0]) && FirstFailure(rest).Some? {
        var k :| 0 <= k < |rest| && !IsQuiet(rest[k]) && Describes(FirstFailure(rest).value, rest[k])
                 && forall i | 0 <= i < k :: IsQuiet(rest[i]);
        assert joins[k + 1] == rest[k] && forall i | 1 <= i <= k :: joins[i] == rest[i - 1];
      }
    }
  }

  lemma {:induction false} FirstFailureAppend(a: seq<Join>, b: seq<Join>)
    ensures FirstFailure(a + b) == Or(FirstFailure(a), FirstFailure(b))
  {
    if a == [] {
      assert a + b == b;
    } else {
      assert (a + b)[1..] == a[1..] + b;
      FirstFailureAppend(a[1..], b);
    }
  }

  /** Which running tasks the abort reaches before they end on their own. */
  type Reach = (nat, Join) -> bool

  function AfterAbort(tasks: seq<Join>, reach: Reach): (r: seq<Join>)
    ensures |r| == |tasks|
  {
    seq(|tasks|, i requires 0 <= i < |tasks| => if reach(i, tasks[i]) then Broken(Aborted) else tasks[i])
  }

  /** What the schedule decides about a drain: how many joins the grace period leaves room for, which
      tasks the abort reaches, and the order in which the rest then ends. */
  datatype Schedule = Schedule(grace: nat, reach: Reach, left: seq<Join>)

  predicate Possible(tasks: seq<Join>, s: Schedule) {
    |tasks| > s.grace ==> multiset(s.left) == multiset(AfterAbort(tasks[s.grace..], s.reach))
  }

  /** What has become ready when the wait ends. */
  datatype Ready = Ready(token: bool, signal: Option<Option<Error>>, joined: bool)

  /** Running tasks, as the order in which they will end, which the schedule chooses. */
  class Tasks {
    var cancelled: bool
    var tasks: seq<Join>
    ghost var joined: seq<Join>

    constructor (initial: seq<Join>)
      ensures tasks == initial && joined == [] && !cancelled
    {
      tasks, joined, cancelled := initial, [], false;
    }

    method JoinNext() returns (task: Option<Join>)
      modifies this`tasks, this`joined
      ensures old(tasks) == [] ==> task == None && tasks == [] && joined == old(joined)
      ensures old(tasks) != [] ==> task == Some(old(tasks)[0]) && tasks == old(tasks)[1..] && joined == old(joined) + [old(tasks)[0]]
    {
      if tasks == [] {
        return None;
      }
      task := Some(tasks[0]);
      joined := joined + [tasks[0]];
      tasks := tasks[1..];
    }

    /** Joins up to `limit` tasks, keeping the first failure. */
    method JoinAll(limit: nat) returns (failure: Option<Error>)
      modifies this`tasks, this`joined
      ensures var n := if limit < |old(tasks)| then limit else |old(tasks)|;
              && failure == FirstFailure(old(tasks)[..n])
              && ReportsFirst(failure, old(tasks)[..n])
              && tasks == old(tasks)[n..]
              && joined == old(joined) + old(tasks)[..n]
    {
      failure := None;
      ghost var all := tasks;
      var count := 0;
      while tasks != [] && count < limit
        invariant count <= |all| && count <= limit
        invariant tasks == all[count..]
        invariant joined == old(joined) + all[..count]
        invariant failure == FirstFailure(all[..count])
      {
        var task := JoinNext();
        FirstFailureAppend(all[..count], [all[count]]);
        assert all[..count + 1] == all[..count] + [all[count]];
        failure := Or(failure, ShutdownFailure(task.value));
        count := count + 1;
      }
      FirstFailureReports(all[..count]);
    }

    /** `drain`. */
    method Drain(s: Schedule) returns (failure: Option<Error>)
      requires Possible(tasks, s)
      modifies this`tasks, this`joined
      ensures tasks == [] && joined == old(joined) + Joined(old(tasks), s)
      ensures failure == DrainFailure(old(tasks), s)
      ensures ReportsFirst(failure, Completed(old(tasks), s))
    {
      ghost var all := tasks;
      failure := JoinAll(s.grace);
      if tasks == [] {
        assert all[..|all|] == all;
        return;
      }
      tasks := s.left;
      assert s.left[..|s.left|] == s.left;
      failure := JoinAll(|tasks|);
    }

    /** `run_until`: a cancelled token is looked at first, then the signal, then finished tasks. */
    method RunUntil(ready: Ready, s: Schedule) returns (result: Option<Error>)
      requires ready.token || ready.signal.Some? || ready.joined
      requires Possible(Remaining(tasks, ready), s)
      modifies this
      ensures cancelled && tasks == [] && |joined| == |old(joined)| + |old(tasks)|
      ensures var left := Remaining(old(tasks), ready);
              joined == old(joined) + old(tasks)[..|old(tasks)| - |left|] + Joined(left, s)
      ensures ready.token || ready.signal == Some(None) ==> ReportsFirst(result, Completed(old(tasks), s))
      ensures !ready.token && ready.signal.Some? && ready.signal.value.Some? ==> result == ready.signal.value
      ensures !ready.token && ready.signal.None? && old(tasks) == [] ==> result == Some(NoTasks)
      ensures !ready.token && ready.signal.None? && old(tasks) != [] ==>
                match old(tasks)[0]
                case Exited(name, None) => result == Some(TaskExited(name))
                case Exited(name, Some(source)) => result == Some(TaskFailed(name, source))
                case Broken(error) => result == Some(TaskJoin(error))
    {
      var failure: Option<Error>;
      JoinedAll(Remaining(tasks, ready), s);
      if ready.token {
        failure := None;
      } else if ready.signal.Some? {
        failure := ready.signal.value;
      } else {
        var task := JoinNext();
        failure := Some(UnexpectedExit(task));
      }
      cancelled := true;
      var drained := Drain(s);
      result := Or(failure, drained);
    }
  }

  /** Tasks left to drain when the wait is over. */
  function Remaining(tasks: seq<Join>, ready: Ready): seq<Join> {
    if ready.token || ready.signal.Some? || tasks == [] then tasks else tasks[1..]
  }

  /** Every join a drain makes. */
  function Joined(tasks: seq<Join>, s: Schedule): seq<Join> {
    if |tasks| <= s.grace then tasks else tasks[..s.grace] + s.left
  }

  /** The joins of the phase that ran to its end. */
  function Completed(tasks: seq<Join>, s: Schedule): seq<Join> {
    if |tasks| <= s.grace then tasks else s.left
  }

  /** The failure of whichever phase completed: each phase starts from no failure. */
  function DrainFailure(tasks: seq<Join>, s: Schedule): Option<Error> {
    if |tasks| <= s.grace then FirstFailure(tasks) else FirstFailure(s.left)
  }

  /** Every task is joined once. */
  lemma JoinedAll(tasks: seq<Join>, s: Schedule)
    requires Possible(tasks, s)
    ensures |Joined(tasks, s)| == |tasks|
  {
    if |tasks| > s.grace {
      assert |multiset(s.left)| == |s.left|;
      assert |multiset(AfterAbort(tasks[s.grace..], s.reach))| == |tasks| - s.grace;
    }
  }

  /** A failure in the grace period is forgotten when a stuck task then has to be aborted. */
  lemma GraceFailureForgotten(name: string, source: string, stuck: Join)
    ensures var tasks, s := [Exited(name, Some(source)), stuck], Schedule(1, (_, _) => true, [Broken(Aborted)]);
            Possible(tasks, s) && FirstFailure(Joined(tasks, s)) == Some(TaskFailed(name, source)) && DrainFailure(tasks, s) == None
  {
    assert AfterAbort([stuck], (_, _) => true) == [Broken(Aborted)];
    assert [Broken(Aborted)][1..] == [];
    var tasks := [Exited(name, Some(source)), stuck];
    assert tasks[1..] == [stuck];
    assert (tasks[..1] + [Broken(Aborted)])[0] == tasks[0];
  }

  lemma {:induction false} FailureComesFromTask(joins: seq<Join>)
    requires FirstFailure(joins).Some?
    ensures exists j | j in joins :: j != Broken(Aborted) && ShutdownFailure(j) == FirstFailure(joins)
  {
    if ShutdownFailure(joins[0]).None? {
      FailureComesFromTask(joins[1..]);
    }
  }

  /** A task the abort reached never counts as a failure: whatever a drain reports was the outcome
      of a task that ended on its own. */
  lemma AbortedTasksNeverFail(tasks: seq<Join>, s: Schedule)
    requires Possible(tasks, s) && DrainFailure(tasks, s).Some?
    ensures exists i | 0 <= i < |tasks| ::
              ShutdownFailure(tasks[i]) == DrainFailure(tasks, s)
              && (|tasks| > s.grace ==> i >= s.grace && !s.reach(i - s.grace, tasks[i]))
  {
    if |tasks| <= s.grace {
      FailureComesFromTask(tasks);
      var j :| j in tasks && ShutdownFailure(j) == FirstFailure(tasks);
      var i :| 0 <= i < |tasks| && tasks[i] == j;
    } else {
      var rest := AfterAbort(tasks[s.grace..], s.reach);
      FailureComesFromTask(s.left);
      var j :| j in s.left && j != Broken(Aborted) && ShutdownFailure(j) == FirstFailure(s.left);
      assert j in multiset(rest);
      var i :| 0 <= i < |rest| && rest[i] == j;
      assert tasks[s.grace..][i] == tasks[s.grace + i];
    }
  }

  /** A task that fails out of the abort's reach is not overlooked: the drain reports a failure. */
  lemma UnreachedFailureIsReported(tasks: seq<Join>, s: Schedule, i: nat)
    requires Possible(tasks, s) && s.grace <= i < |tasks|
    requires !s.reach(i - s.grace, tasks[i]) && !IsQuiet(tasks[i])
    ensures DrainFailure(tasks, s).Some?
  {
    var rest := AfterAbort(tasks[s.grace..], s.reach);
    assert tasks[s.grace..][i - s.grace] == tasks[i];
    assert rest[i - s.grace] == tasks[i];
    assert tasks[i] in multiset(rest);
    assert tasks[i] in s.left;
    FirstFailureReports(s.left);
  }

  /** No two tasks end with the same failure. */
  predicate DistinctFailures(tasks: seq<Join>) {
    forall i, j | 0 <= i < j < |tasks| && ShutdownFailure(tasks[i]).Some? ::
      ShutdownFailure(tasks[i]) != ShutdownFailure(tasks[j])
  }

  /** The grace period loses no failure: every task ends within it, or none of those that do fails. */
  predicate NothingLost(tasks: seq<Join>, s: Schedule) {
    |tasks| <= s.grace || FirstFailure(tasks[..s.grace]).None?
  }

  lemma GraceFailureDiffers(tasks: seq<Join>, s: Schedule)
    requires Possible(tasks, s) && DistinctFailures(tasks) && !NothingLost(tasks, s)
    ensures DrainFailure(tasks, s) != FirstFailure(tasks[..s.grace])
  {
    FailureComesFromTask(tasks[..s.grace]);
    var j :| j in tasks[..s.grace] && ShutdownFailure(j) == FirstFailure(tasks[..s.grace]);
    var i :| 0 <= i < s.grace && tasks[i] == j;
    if DrainFailure(tasks, s).Some? {
      AbortedTasksNeverFail(tasks, s);
      var k :| 0 <= k < |tasks| && ShutdownFailure(tasks[k]) == DrainFailure(tasks, s) && k >= s.grace;
      assert ShutdownFailure(tasks[i]) != ShutdownFailure(tasks[k]);
    }
  }

  /** A drain reports the first failure among all its joins when the grace period loses none; when
      no two tasks fail alike, only then. */
  lemma DrainReportsFirstFailure(tasks: seq<Join>, s: Schedule)
    ensures NothingLost(tasks, s) ==> DrainFailure(tasks, s) == FirstFailure(Joined(tasks, s))
    ensures Possible(tasks, s) && DistinctFailures(tasks) ==>
              (DrainFailure(tasks, s) == FirstFailure(Joined(tasks, s)) <==> NothingLost(tasks, s))
  {
    if |tasks| > s.grace {
      FirstFailureAppend(tasks[..s.grace], s.left);
      if !NothingLost(tasks, s) && Possible(tasks, s) && DistinctFailures(tasks) {
        GraceFailureDiffers(tasks, s);
      }
    }
  }
}
