/**
 The executor: one claimed pipeline run, its checks executed in order and the run finalized. The
 repositories are tables the service rewrites; runners are parameters.
 */
module Executor {
  import opened Wrappers
  import opened AgentCI
  import Gates

  /** What a runner makes of a check: an error of its own, or a result. */
  datatype Outcome = RunnerError(message: string) | Result(status: CheckStatus, summary: string)

  /** What the registered runner of this name makes of a check. */
  type Runners = (string, CheckRun) -> Outcome

  /** The statuses a runner is documented to return. */
  predicate Documented(o: Outcome) {
    o.Result? ==> o.status in {Passed, Failed, Error, Skipped}
  }

  ghost predicate AllDocumented(runners: set<string>, outcome: Runners, c: CheckRun) {
    forall name :: name in runners ==> Documented(outcome(name, c))
  }

  /** The status a started check ends in. */
  function Ended(o: Outcome): CheckStatus {
    match o
    case RunnerError(_) => Failed
    case Result(Passed, _) => Passed
    case Result(Failed, _) => Failed
    case Result(Error, _) => Failed
    case Result(Skipped, _) => Skipped
    case Result(_, _) => Running
  }

  /** The status a check ends in when the executor takes it up. */
  function FinalStatus(runners: set<string>, outcome: Runners, c: CheckRun): CheckStatus {
    match FindRunner(runners, c.runnerType)
    case None => Skipped
    case Some(name) => Ended(outcome(name, c))
  }

  /** `rows` after the executor has dealt with the pending checks among the rows `done`. */
  ghost predicate Executed(runners: set<string>, outcome: Runners, was: seq<CheckRun>, rows: seq<CheckRun>,
                           done: set<nat>)
  {
    && |rows| == |was|
    && forall i :: 0 <= i < |was| ==>
         if i in done && was[i].status == Pending then
           rows[i].status == FinalStatus(runners, outcome, was[i]) && SameButStatus(rows[i], was[i])
         else
           rows[i] == was[i]
  }

  ghost function RowsOfRun(rows: seq<CheckRun>, runId: nat): set<nat> {
    set i: nat | i < |rows| && rows[i].runId == runId
  }

  /** The record of a finalized run: counts over its checks, and failed as soon as one of them is. */
  ghost predicate Finalized(run: PipelineRun, was: PipelineRun, checks: seq<CheckRun>) {
    && run.passed == CountStatus(checks, {Passed})
    && run.failed == CountStatus(checks, {Failed, Error})
    && run.skipped == CountStatus(checks, {Skipped})
    && run.checkCount == was.checkCount
    && run.status == if run.failed > 0 then RunFailed else RunCompleted
  }

  class Service {
    var runs: map<nat, PipelineRun>
    var checks: seq<CheckRun>
    const runners: set<string>

    /** Row ids are positions: rows are inserted with the next id and never deleted. */
    ghost predicate Valid()
      reads this
    {
      IdsArePositions(checks)
    }

    constructor (runners: set<string>)
      ensures Valid() && runs == map[] && checks == [] && this.runners == runners
    {
      this.runners := runners;
      runs, checks := map[], [];
    }

    method FindByPipelineRunID(runId: nat) returns (r: seq<CheckRun>)
      ensures r == ChecksOfRun(checks, runId)
    {
      r := [];
      for i := 0 to |checks|
        invariant r == ChecksOfRun(checks[..i], runId)
      {
        assert checks[..i + 1][..i] == checks[..i];
        if checks[i].runId == runId {
          r := r + [checks[i]];
        }
      }
      assert checks[..|checks|] == checks;
    }

    method UpdateCheckStatus(id: nat, status: CheckStatus) returns (r: Option<CheckRun>)
      requires Valid()
      modifies this`checks
      ensures Valid()
      ensures r.Some? <==> id < |old(checks)|
      ensures r.Some? ==>
        r.value == old(checks)[id].(status := status) && checks == old(checks)[id := r.value]
      ensures r.None? ==> checks == old(checks)
    {
      if id >= |checks| { return None; }
      var row := checks[id];
      row := row.(status := status);
      checks := checks[id := row];
      return Some(row);
    }

    /** MarkCheckPassed, MarkCheckFailed and MarkCheckSkipped: the status first, then the summary in a second write. */
    method MarkCheck(id: nat, status: CheckStatus, summary: string) returns (r: Option<CheckRun>)
      requires Valid()
      modifies this`checks
      ensures Valid()
      ensures r.Some? <==> id < |old(checks)|
      ensures r.Some? ==>
        r.value == old(checks)[id].(status := status, summary := Some(summary)) && checks == old(checks)[id := r.value]
      ensures r.None? ==> checks == old(checks)
    {
      r := UpdateCheckStatus(id, status);
      if r == None { return; }
      var row := r.value.(summary := Some(summary));
      checks := checks[row.id := row];
      r := Some(row);
    }

    method FinalizePipelineRun(runId: nat) returns (ok: bool)
      modifies this`runs
      ensures ok <==> runId in old(runs)
      ensures !ok ==> runs == old(runs)
      ensures ok ==> runId in runs && runs == old(runs)[runId := runs[runId]]
      ensures ok ==> Finalized(runs[runId], old(runs)[runId], ChecksOfRun(checks, runId))
    {
      var rows := FindByPipelineRunID(runId);
      CountNone({Passed});
      CountNone({Failed, Error});
      CountNone({Skipped});
      hide CountStatus, ChecksOfRun;
      assert rows[..0] == [];
      var passed, failed, skipped: nat := 0, 0, 0;
      for i := 0 to |rows|
        invariant runs == old(runs)
        invariant passed == CountStatus(rows[..i], {Passed})
        invariant failed == CountStatus(rows[..i], {Failed, Error})
        invariant skipped == CountStatus(rows[..i], {Skipped})
      {
        CountNext(rows, i, {Passed});
        CountNext(rows, i, {Failed, Error});
        CountNext(rows, i, {Skipped});
        match rows[i].status {
          case Passed => passed := passed + 1;
          case Failed => failed := failed + 1;
          case Error => failed := failed + 1;
          case Skipped => skipped := skipped + 1;
          case _ =>
        }
      }
      assert rows[..|rows|] == rows;
      if runId !in runs { return false; }
      var run := runs[runId];
      run := run.(passed := passed, failed := failed, skipped := skipped,
                  status := if failed > 0 then RunFailed else RunCompleted);
      runs := runs[runId := run];
      return true;
    }

    /** One pending check: skipped without a runner, else started, run and marked with the runner's verdict. */
    method ExecuteCheck(check: CheckRun, outcome: Runners)
      requires Valid()
      requires check.id < |checks| && checks[check.id] == check && check.status == Pending
      modifies this`checks
      ensures Valid()
      ensures |checks| == |old(checks)| && checks == old(checks)[check.id := checks[check.id]]
      ensures checks[check.id].status == FinalStatus(runners, outcome, check)
      ensures SameButStatus(checks[check.id], check)
    {
      var runner := FindRunner(runners, check.runnerType);
      if runner == None {
        var _ := MarkCheck(check.id, Skipped, "no runner");
        return;
      }
      var started := UpdateCheckStatus(check.id, Running);
      assert started.Some?;
      match outcome(runner.value, check) {
        case RunnerError(message) => var _ := MarkCheck(check.id, Failed, message);
        case Result(Passed, summary) => var _ := MarkCheck(check.id, Passed, summary);
        case Result(Failed, summary) => var _ := MarkCheck(check.id, Failed, summary);
        case Result(Error, summary) => var _ := MarkCheck(check.id, Failed, summary);
        case Result(Skipped, summary) => var _ := MarkCheck(check.id, Skipped, summary);
        case Result(_, _) =>
      }
    }

    /** Executes the pending checks of a run, one after the other, and finalizes it. */
    method ExecutePipelineRun(runId: nat, outcome: Runners) returns (ok: bool)
      requires Valid()
      modifies this`checks, this`runs
      ensures Valid()
      ensures Executed(runners, outcome, old(checks), checks, RowsOfRun(old(checks), runId))
      ensures ok <==> runId in old(runs)
      ensures !ok ==> runs == old(runs)
      ensures ok ==> runId in runs && runs == old(runs)[runId := runs[runId]]
      ensures ok ==> Finalized(runs[runId], old(runs)[runId], ChecksOfRun(checks, runId))
    {
      ghost var was := checks;
      var listed := FindByPipelineRunID(runId);
      ListedInOrder(was, runId);
      ghost var done: set<nat> := {};
      hide IdsOf, RowsOfRun, ChecksOfRun;
      assert IdsOf(listed, 0) == {};
      for i := 0 to |listed|
        invariant Valid() && runs == old(runs)
        invariant done == IdsOf(listed, i)
        invariant Executed(runners, outcome, was, checks, done)
      {
        var check := listed[i];
        ghost var before := checks;
        IdsNext(listed, i);
        assert check in listed && check.id !in done;
        done := done + {check.id};
        if check.status != Pending { continue; }
        assert checks[check.id] == check;
        hide Executed, FinalStatus;
        ExecuteCheck(check, outcome);
        ExecutedOne(runners, outcome, was, before, checks, done - {check.id}, check);
        assert done - {check.id} + {check.id} == done;
      }
      AllListed(was, runId);
      ok := FinalizePipelineRun(runId);
    }
  }

  ghost function IdsOf(rows: seq<CheckRun>, n: nat): set<nat>
    requires n <= |rows|
  {
    set k | 0 <= k < n :: rows[k].id
  }

  lemma IdsNext(rows: seq<CheckRun>, n: nat)
    requires n < |rows| && InOrder(rows)
    ensures IdsOf(rows, n + 1) == IdsOf(rows, n) + {rows[n].id} && rows[n].id !in IdsOf(rows, n)
  {
  }

  lemma AllListed(was: seq<CheckRun>, runId: nat)
    requires IdsArePositions(was)
    ensures var listed := ChecksOfRun(was, runId); IdsOf(listed, |listed|) == RowsOfRun(was, runId)
  {
    var listed := ChecksOfRun(was, runId);
    ListedInOrder(was, runId);
    forall j: nat | j < |was| && was[j].runId == runId
      ensures j in IdsOf(listed, |listed|)
    {
      assert was[j] in listed;
    }
    forall k: nat | k < |listed|
      ensures listed[k].id in RowsOfRun(was, runId)
    {
      assert listed[k] in listed;
    }
  }

  lemma ExecutedOne(runners: set<string>, outcome: Runners, was: seq<CheckRun>, rows: seq<CheckRun>,
                    rows': seq<CheckRun>, done: set<nat>, check: CheckRun)
    requires Executed(runners, outcome, was, rows, done) && check.id < |was| && was[check.id] == check
    requires |rows'| == |rows| && rows' == rows[check.id := rows'[check.id]] && check.status == Pending
    requires rows'[check.id].status == FinalStatus(runners, outcome, check) && SameButStatus(rows'[check.id], check)
    ensures Executed(runners, outcome, was, rows', done + {check.id})
  {
    hide FinalStatus;
  }

  // ----- What an execution amounts to -----

  /**
   Executing a run whose checks are all pending, with runners that keep to the documented statuses,
   leaves every check passed, failed or skipped; the three counts add up to the number of checks; and
   the run is failed exactly when some check is.
   */
  lemma ExecutionOutcome(runners: set<string>, outcome: Runners, was: seq<CheckRun>, rows: seq<CheckRun>,
                         runId: nat, run: PipelineRun, runWas: PipelineRun)
    requires IdsArePositions(was) && IdsArePositions(rows)
    requires Executed(runners, outcome, was, rows, RowsOfRun(was, runId))
    requires Finalized(run, runWas, ChecksOfRun(rows, runId))
    requires forall c :: c in ChecksOfRun(was, runId) ==> c.status == Pending && AllDocumented(runners, outcome, c)
    ensures forall c :: c in ChecksOfRun(rows, runId) ==> Terminal(c.status)
    ensures run.passed + run.failed + run.skipped == |ChecksOfRun(rows, runId)| == |ChecksOfRun(was, runId)|
    ensures run.status == RunFailed <==> exists c :: c in ChecksOfRun(rows, runId) && c.status == Failed
    ensures (run.status == RunCompleted || run.status == RunFailed) && run.checkCount == runWas.checkCount
  {
    SameCount(was, rows, runId);
    forall c | c in ChecksOfRun(rows, runId)
      ensures Terminal(c.status)
    {
      ListedTerminal(runners, outcome, was, rows, runId, c);
      hide *;
    }
    hide Executed, IdsArePositions, ChecksOfRun, RowsOfRun, CountStatus, Documented;
    TerminalCounts(ChecksOfRun(rows, runId));
  }

  lemma TerminalCounts(checks: seq<CheckRun>)
    requires forall c :: c in checks ==> Terminal(c.status)
    ensures CountStatus(checks, {Passed}) + CountStatus(checks, {Failed, Error}) + CountStatus(checks, {Skipped})
      == |checks|
    ensures CountStatus(checks, {Failed, Error}) > 0 <==> exists c :: c in checks && c.status == Failed
  {
    hide CountStatus;
    CountSplits(checks, {Passed}, {Failed, Error});
    CountSplits(checks, {Passed} + {Failed, Error}, {Skipped});
    CountAll(checks, {Passed} + {Failed, Error} + {Skipped});
    CountPositive(checks, {Failed, Error});
  }

  /**
   What becomes of each check: it is given the local runner when its type is empty or says that it is deterministic and
   that runner is registered, else the runner registered for its type, and without one it is skipped.
   */
  lemma EndsAsItsRunnerSays(
    runners: set<string>, outcome: Runners, was: seq<CheckRun>, rows: seq<CheckRun>, runId: nat, i: nat)
    requires Executed(runners, outcome, was, rows, RowsOfRun(was, runId)) && i < |was| && was[i].runId == runId
    requires was[i].status == Pending
    ensures var c := was[i];
      var local := (c.runnerType == "" || c.runnerType == "deterministic") && "local-deterministic" in runners;
      var has := local || c.runnerType in runners;
      var said := outcome(if local then "local-deterministic" else c.runnerType, c);
      && i < |rows|
      && (rows[i].status == Skipped <==> !has || (said.Result? && said.status == Skipped))
      && (rows[i].status == Passed <==> has && said.Result? && said.status == Passed)
      && (rows[i].status == Failed <==>
            has && (said.RunnerError? || said.status == Failed || said.status == Error))
      && (rows[i].status == Running <==> has && said.Result? && said.status in {Pending, Running, Cancelled})
      && (has ==> (Documented(said) <==> rows[i].status != Running))
      && (Terminal(rows[i].status) || rows[i].status == Running)
  {
    assert i in RowsOfRun(was, runId);
  }

  /** The check has a runner, and that breaks down or says that the check failed. */
  predicate RunnerFails(runners: set<string>, outcome: Runners, c: CheckRun) {
    var local := (c.runnerType == "" || c.runnerType == "deterministic") && "local-deterministic" in runners;
    var said := outcome(if local then "local-deterministic" else c.runnerType, c);
    (local || c.runnerType in runners) && (said.RunnerError? || said.status == Failed || said.status == Error)
  }

  lemma ListedEnds(
    runners: set<string>, outcome: Runners, was: seq<CheckRun>, rows: seq<CheckRun>, runId: nat, i: nat)
    requires Executed(runners, outcome, was, rows, RowsOfRun(was, runId))
    requires forall c :: c in ChecksOfRun(was, runId) ==> c.status == Pending && AllDocumented(runners, outcome, c)
    requires i < |was| && was[i].runId == runId
    ensures i < |rows| && rows[i] in ChecksOfRun(rows, runId) && was[i] in ChecksOfRun(was, runId)
    ensures Terminal(rows[i].status) && (rows[i].status == Failed <==> RunnerFails(runners, outcome, was[i]))
  {
    assert was[i] in was && was[i] in ChecksOfRun(was, runId) && AllDocumented(runners, outcome, was[i]);
    EndsAsItsRunnerSays(runners, outcome, was, rows, runId, i);
    assert SameButStatus(rows[i], was[i]) && rows[i] in rows;
    hide Executed, AllDocumented, FinalStatus;
  }

  lemma ListedWas(rows: seq<CheckRun>, runId: nat, c: CheckRun)
    requires IdsArePositions(rows) && c in ChecksOfRun(rows, runId)
    ensures c.id < |rows| && rows[c.id] == c && c.runId == runId
  {
    ListedInOrder(rows, runId);
  }

  /** So the run fails exactly when the runner of some check does. */
  lemma RunFailsByRunner(
    runners: set<string>, outcome: Runners, was: seq<CheckRun>, rows: seq<CheckRun>, runId: nat, run: PipelineRun,
    runWas: PipelineRun)
    requires IdsArePositions(was) && IdsArePositions(rows)
    requires Executed(runners, outcome, was, rows, RowsOfRun(was, runId))
    requires Finalized(run, runWas, ChecksOfRun(rows, runId))
    requires forall c :: c in ChecksOfRun(was, runId) ==> c.status == Pending && AllDocumented(runners, outcome, c)
    ensures run.status == RunFailed <==> exists c :: c in ChecksOfRun(was, runId) && RunnerFails(runners, outcome, c)
  {
    ExecutionOutcome(runners, outcome, was, rows, runId, run, runWas);
    assert |rows| == |was| && forall i :: 0 <= i < |was| ==> rows[i].runId == was[i].runId;
    hide Executed, Finalized, AllDocumented, RunnerFails, ChecksOfRun, IdsArePositions;
    if run.status == RunFailed {
      var c :| c in ChecksOfRun(rows, runId) && c.status == Failed;
      ListedWas(rows, runId, c);
      ListedEnds(runners, outcome, was, rows, runId, c.id);
      assert RunnerFails(runners, outcome, was[c.id]);
    } else if c :| c in ChecksOfRun(was, runId) && RunnerFails(runners, outcome, c) {
      ListedWas(was, runId, c);
      ListedEnds(runners, outcome, was, rows, runId, c.id);
    }
  }

  lemma ListedTerminal(runners: set<string>, outcome: Runners, was: seq<CheckRun>, rows: seq<CheckRun>,
                       runId: nat, c: CheckRun)
    requires IdsArePositions(was) && IdsArePositions(rows)
    requires Executed(runners, outcome, was, rows, RowsOfRun(was, runId))
    requires forall c :: c in ChecksOfRun(was, runId) ==> c.status == Pending && AllDocumented(runners, outcome, c)
    requires c in ChecksOfRun(rows, runId)
    ensures Terminal(c.status)
  {
    assert |rows| == |was| && forall i :: 0 <= i < |was| ==> rows[i].runId == was[i].runId;
    hide Executed, AllDocumented, RunnerFails, ChecksOfRun, IdsArePositions;
    ListedWas(rows, runId, c);
    ListedEnds(runners, outcome, was, rows, runId, c.id);
  }

  lemma {:induction false} SameCount(was: seq<CheckRun>, rows: seq<CheckRun>, runId: nat)
    requires |was| == |rows| && forall i :: 0 <= i < |was| ==> rows[i].runId == was[i].runId
    ensures |ChecksOfRun(rows, runId)| == |ChecksOfRun(was, runId)|
  {
    if was != [] {
      SameCount(was[..|was| - 1], rows[..|rows| - 1], runId);
    }
  }

  /**
   The gates agree with a completed run: its checks satisfy the all-passed and no-critical rules, and
   the required-passed rule exactly when some blocking check passed.
   */
  lemma CompletedRunMeetsGates(runners: set<string>, outcome: Runners, was: seq<CheckRun>,
    rows: seq<CheckRun>,
                               runId: nat, run: PipelineRun, runWas: PipelineRun)
    requires IdsArePositions(was) && IdsArePositions(rows)
    requires Executed(runners, outcome, was, rows, RowsOfRun(was, runId))
    requires Finalized(run, runWas, ChecksOfRun(rows, runId))
    requires forall c :: c in ChecksOfRun(was, runId) ==> c.status == Pending && AllDocumented(runners, outcome, c)
    requires run.status == RunCompleted
    ensures Gates.Verdict(Gates.AllPassed, ChecksOfRun(rows, runId))
    ensures Gates.Verdict(Gates.NoCritical, ChecksOfRun(rows, runId))
    ensures Gates.Verdict(Gates.RequiredPassed, ChecksOfRun(rows, runId))
       <==> exists c :: c in ChecksOfRun(rows, runId) && Gates.BlockingPass(c)
  {
    ExecutionOutcome(runners, outcome, was, rows, runId, run, runWas);
  }
}
