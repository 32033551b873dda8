/**
 The executor as an uninterrupted sequence of protocol steps: what `Executor` does to the tables is what the worker
 of `Protocol` does when every call succeeds and nobody else steps in between.
 */
module ExecutorSteps {
  import opened Wrappers
  import opened AgentCI
  import opened Protocol
  import Executor
  import Gates

  lemma {:induction false} AfterConcat(runners: set<string>, s: State, a: seq<Action>, b: seq<Action>)
    ensures After(runners, s, a + b) == After(runners, After(runners, s, a), b)
    decreases |a|
  {
    if a == [] {
      assert a + b == b;
    } else {
      assert (a + b)[1..] == a[1..] + b;
      AfterConcat(runners, Step(runners, s, a[0]), a[1..], b);
    }
  }

  /** One more step. */
  lemma Then(runners: set<string>, s: State, more: seq<Action>, a: Action) returns (more': seq<Action>)
    ensures After(runners, s, more') == Step(runners, After(runners, s, more), a)
  {
    more' := more + [a];
    AfterConcat(runners, s, more, [a]);
    assert [a][1..] == [];
    assert After(runners, Step(runners, After(runners, s, more), a), []) == Step(runners, After(runners, s, more), a);
  }

  ghost predicate MarkingAt(s: State, w: nat, k: Worker, p: Phase) {
    && p.Marking? && p.stage.Reading? && p.check.id < |s.checks|
    && k.Executing? && k.phase == p && w in s.workers && s.workers[w] == k
  }

  /** The calls of one Mark operation, all successful. */
  lemma MarkInARow(runners: set<string>, s: State, w: nat, k: Worker, p: Phase) returns (more: seq<Action>)
    requires MarkingAt(s, w, k, p)
    ensures p.target == Running ==>
      After(runners, s, more) == s.(checks := s.checks[p.check.id := s.checks[p.check.id].(status := Running)],
                                    workers := s.workers[w := k.(phase := AtRunner(p.todo, p.check))])
    ensures p.target != Running ==>
      After(runners, s, more) ==
        s.(checks := s.checks[p.check.id := s.checks[p.check.id].(status := p.target, summary := Some(""))],
           workers := s.workers[w := k.(phase := Walking(p.todo))])
  {
    var id := p.check.id;
    var row := s.checks[id].(status := p.target);
    assert After(runners, s, []) == s;
    ReadInARow(runners, s, w, k, p, row);
    WriteInARow(runners, s, w, k, p, row);
    hide Step, After;
    more := Then(runners, s, [], MarkCall(w, true, false));
    more := Then(runners, s, more, MarkCall(w, true, false));
    if p.target != Running {
      more := Then(runners, s, more, MarkCall(w, true, false));
    }
  }

  /** The worker at a later stage of its Mark operation. */
  ghost function AtStage(s: State, w: nat, k: Worker, p: Phase, stage: Stage): State
    requires k.Executing? && p.Marking?
  {
    s.(workers := s.workers[w := k.(phase := p.(stage := stage))])
  }

  lemma ReadInARow(runners: set<string>, s: State, w: nat, k: Worker, p: Phase, row: CheckRun)
    requires MarkingAt(s, w, k, p) && row == s.checks[p.check.id].(status := p.target)
    ensures Step(runners, s, MarkCall(w, true, false)) == AtStage(s, w, k, p, Writing(row))
  {
  }

  /** The write of the status, and of the summary unless the check is only started. */
  lemma WriteInARow(runners: set<string>, s: State, w: nat, k: Worker, p: Phase, row: CheckRun)
    requires MarkingAt(s, w, k, p)
    ensures var s2 := Step(runners, AtStage(s, w, k, p, Writing(row)), MarkCall(w, true, false));
      if p.target == Running then
        s2 == s.(checks := s.checks[p.check.id := row],
          workers := s.workers[w := k.(phase := AtRunner(p.todo, p.check))])
      else
        Step(runners, s2, MarkCall(w, true, false)) ==
          s.(checks := s.checks[p.check.id := row.(summary := Some(""))],
            workers := s.workers[w := k.(phase := Walking(p.todo))])
  {
    var s1 := AtStage(s, w, k, p, Writing(row));
    var s2 := Step(runners, s1, MarkCall(w, true, false));
    if p.target != Running {
      var last := row.(summary := Some(""));
      assert s2 == AtStage(s, w, k, p, Rewriting(last)).(checks := s.checks[p.check.id := row]);
      hide Step;
      RewriteInARow(runners, s, w, k, p, row, last);
    }
  }

  lemma RewriteInARow(runners: set<string>, s: State, w: nat, k: Worker, p: Phase, row: CheckRun, last: CheckRun)
    requires MarkingAt(s, w, k, p) && p.target != Running
    ensures Step(runners, AtStage(s, w, k, p, Rewriting(last)).(checks := s.checks[p.check.id := row]),
      MarkCall(w, true, false))
      == s.(checks := s.checks[p.check.id := last], workers := s.workers[w := k.(phase := Walking(p.todo))])
  {
    assert s.checks[p.check.id := row][p.check.id := last] == s.checks[p.check.id := last];
  }

  /** What a runner's outcome is to the protocol. */
  function VerdictOf(o: Executor.Outcome): Option<CheckStatus> {
    match o
    case RunnerError(_) => None
    case Result(status, _) => Some(status)
  }

  ghost predicate WalkingAt(s: State, w: nat, k: Worker, todo: seq<CheckRun>) {
    k.Executing? && k.phase == Walking(todo) && w in s.workers && s.workers[w] == k
  }

  /** The steps of one pending check do to its row what `ExecuteCheck` does, and nothing else. */
  lemma CheckInARow(runners: set<string>, outcome: Executor.Runners, s: State, w: nat, k: Worker,
    todo: seq<CheckRun>)
    returns (more: seq<Action>, row: CheckRun)
    requires WalkingAt(s, w, k, todo) && todo != []
    requires todo[0].id < |s.checks| && s.checks[todo[0].id] == todo[0] && todo[0].status == Pending
    ensures row.status == Executor.FinalStatus(runners, outcome, todo[0]) && SameButStatus(row, todo[0])
    ensures After(runners, s, more) ==
      s.(checks := s.checks[todo[0].id := row], workers := s.workers[w := k.(phase := Walking(todo[1..]))],
         runnerCalls := After(runners, s, more).runnerCalls)
  {
    var check, rest := todo[0], todo[1..];
    var runner := FindRunner(runners, check.runnerType);
    var target := if runner == None then Skipped else Running;
    var k1 := k.(phase := Marking(rest, check, target, Reading));
    var s1 := s.(workers := s.workers[w := k1]);
    assert After(runners, s, []) == s;
    assert Step(runners, s, NextCheck(w)) == s1;
    hide Step, After, FindRunner;
    var next := Then(runners, s, [], NextCheck(w));
    var marks := MarkInARow(runners, s1, w, k1, k1.phase);
    AfterConcat(runners, s, next, marks);
    more := next + marks;
    if target == Skipped {
      row := check.(status := Skipped, summary := Some(""));
      assert s1.workers[w := k.(phase := Walking(rest))] == s.workers[w := k.(phase := Walking(rest))];
    } else {
      var more2;
      more2, row := StartedInARow(runners, outcome(runner.value, check), s, s1, w, k, k1, check, rest);
      AfterConcat(runners, s, more, more2);
      more := more + more2;
    }
  }

  /** The rest of a check that has been started. */
  lemma StartedInARow(runners: set<string>, o: Executor.Outcome, s: State, s1: State, w: nat, k: Worker, k1: Worker,
                      check: CheckRun, rest: seq<CheckRun>)
    returns (more: seq<Action>, row: CheckRun)
    requires k.Executing? && w in s.workers && check.id < |s.checks| && s.checks[check.id] == check
    requires s1 == s.(workers := s.workers[w := k1])
    ensures row.status == Executor.Ended(o) && SameButStatus(row, check)
    ensures
      var started := s1.(checks := s1.checks[check.id := s1.checks[check.id].(status := Running)],
                         workers := s1.workers[w := k.(phase := AtRunner(rest, check))]);
      After(runners, started, more) ==
        s.(checks := s.checks[check.id := row], workers := s.workers[w := k.(phase := Walking(rest))],
           runnerCalls := After(runners, started, more).runnerCalls)
  {
    var k2 := k.(phase := AtRunner(rest, check));
    var running := check.(status := Running);
    var s2 := s.(checks := s.checks[check.id := running], workers := s.workers[w := k2]);
    assert s1.workers[w := k2] == s2.workers;
    hide After;
    more, row := RunInARow(runners, o, s2, w, k2);
    assert s2.checks[check.id := row] == s.checks[check.id := row];
    assert s2.workers[w := k.(phase := Walking(rest))] == s.workers[w := k.(phase := Walking(rest))];
  }

  lemma RunInARow(runners: set<string>, o: Executor.Outcome, s: State, w: nat, k: Worker)
    returns (more: seq<Action>, row: CheckRun)
    requires k.Executing? && k.phase.AtRunner? && w in s.workers && s.workers[w] == k
    requires k.phase.check.id < |s.checks| && s.checks[k.phase.check.id].status == Running
    ensures row.status == Executor.Ended(o) && SameButStatus(row, s.checks[k.phase.check.id])
    ensures After(runners, s, more) ==
      s.(checks := s.checks[k.phase.check.id := row], workers := s.workers[w := k.(phase := Walking(k.phase.todo))],
         runnerCalls := After(runners, s, more).runnerCalls)
  {
    var id, todo := k.phase.check.id, k.phase.todo;
    var p := AfterRunner(k.phase, VerdictOf(o));
    var k1 := k.(phase := p);
    var s1 := s.(runnerCalls := s.runnerCalls + multiset{id}, workers := s.workers[w := k1]);
    assert Step(runners, s, RunCheck(w, VerdictOf(o))) == s1;
    assert After(runners, s, []) == s;
    EndsAs(k.phase, o);
    hide Step, After, AfterRunner, VerdictOf, Executor.Ended;
    more := Then(runners, s, [], RunCheck(w, VerdictOf(o)));
    row := s.checks[id];
    if p.Marking? {
      var marks := MarkInARow(runners, s1, w, k1, p);
      AfterConcat(runners, s, more, marks);
      more := more + marks;
      row := row.(status := p.target, summary := Some(""));
      assert s1.workers[w := k.(phase := Walking(todo))] == s.workers[w := k.(phase := Walking(todo))];
    } else {
      assert s.checks[id := row] == s.checks;
    }
  }

  /** The verdict takes the worker to mark the status that the executor gives the check. */
  lemma EndsAs(at: Phase, o: Executor.Outcome)
    requires at.AtRunner?
    ensures var p := AfterRunner(at, VerdictOf(o));
      if p.Marking? then
        && p.todo == at.todo && p.check == at.check && p.stage == Reading
        && p.target == Executor.Ended(o) && p.target != Running
      else
        p == Walking(at.todo) && Executor.Ended(o) == Running
  {
  }

  /** A snapshot of pending rows, each listed once. */
  ghost predicate PendingRows(rows: seq<CheckRun>, todo: seq<CheckRun>) {
    && (forall c :: c in todo ==> c.id < |rows| && rows[c.id] == c && c.status == Pending)
    && (forall i, j :: 0 <= i < j < |todo| ==> todo[i].id != todo[j].id)
  }

  lemma RestPending(rows: seq<CheckRun>, todo: seq<CheckRun>, row: CheckRun)
    requires PendingRows(rows, todo) && todo != []
    ensures todo[0].id < |rows| && rows[todo[0].id] == todo[0] && todo[0].status == Pending
    ensures PendingRows(rows[todo[0].id := row], todo[1..])
    ensures forall c :: c in todo[1..] ==> c.id != todo[0].id
  {
    assert todo[0] in todo;
    assert forall c :: c in todo[1..] ==> c in todo;
  }

  /** The steps of all checks still to visit, in a row. */
  lemma {:induction false} WalkInARow(runners: set<string>, outcome: Executor.Runners, s: State, w: nat,
    k: Worker, todo: seq<CheckRun>)
    returns (more: seq<Action>)
    requires WalkingAt(s, w, k, todo) && PendingRows(s.checks, todo)
    ensures var s' := After(runners, s, more);
      && s' == s.(checks := s'.checks, workers := s.workers[w := k.(phase := Walking([]))],
           runnerCalls := s'.runnerCalls)
      && Visited(runners, outcome, s.checks, s'.checks, todo)
    decreases |todo|
  {
    if todo == [] {
      more := [];
      assert s.workers[w := k] == s.workers;
    } else {
      var check, rest := todo[0], todo[1..];
      assert todo[0] in todo;
      var row;
      more, row := CheckInARow(runners, outcome, s, w, k, todo);
      RestPending(s.checks, todo, row);
      var s1, k1 := After(runners, s, more), k.(phase := Walking(rest));
      hide Step, After, PendingRows, Visited;
      var walk := WalkInARow(runners, outcome, s1, w, k1, rest);
      AfterConcat(runners, s, more, walk);
      more := more + walk;
      assert s1.workers[w := k.(phase := Walking([]))] == s.workers[w := k.(phase := Walking([]))];
      VisitedFirst(runners, outcome, s.checks, After(runners, s, more).checks, todo, row);
    }
  }

  /** The rows after the checks of `todo` have been dealt with. */
  ghost predicate Visited(
    runners: set<string>, outcome: Executor.Runners, was: seq<CheckRun>, rows: seq<CheckRun>,
      todo: seq<CheckRun>)
  {
    && |rows| == |was|
    && (forall i :: 0 <= i < |was| && (forall c :: c in todo ==> c.id != i) ==> rows[i] == was[i])
    && (forall c :: c in todo ==> c.id < |rows| && SameButStatus(rows[c.id], c))
    && (forall c :: c in todo ==> rows[c.id].status == Executor.FinalStatus(runners, outcome, c))
  }

  lemma VisitedFirst(runners: set<string>, outcome: Executor.Runners, was: seq<CheckRun>,
    rows: seq<CheckRun>,
                     todo: seq<CheckRun>, row: CheckRun)
    requires todo != [] && todo[0].id < |was| && (forall c :: c in todo[1..] ==> c.id != todo[0].id)
    requires row.status == Executor.FinalStatus(runners, outcome, todo[0]) && SameButStatus(row, todo[0])
    requires Visited(runners, outcome, was[todo[0].id := row], rows, todo[1..])
    ensures Visited(runners, outcome, was, rows, todo)
  {
    hide Executor.FinalStatus;
    assert todo == [todo[0]] + todo[1..];
    assert rows[todo[0].id] == row;
  }

  /**
   A worker that has claimed a run and not listed its checks can execute it without interruption; it leaves behind
   the rows and the record that `Executor.Service.ExecutePipelineRun` promises.
   */
  lemma ExecutedInARow(runners: set<string>, outcome: Executor.Runners, s: State, w: nat, k: Worker)
    returns (more: seq<Action>)
    requires Inv(s) && w in s.workers && s.workers[w] == k && k.Executing? && k.phase == Listing && k.run < |s.runs|
    ensures var s' := After(runners, s, more);
      && |s'.runs| == |s.runs|
      && s' == s.(checks := s'.checks, runs := s.runs[k.run := s'.runs[k.run]],
           workers := s.workers[w := Polled(k.queue)],
                  runnerCalls := s'.runnerCalls)
      && Executor.Executed(runners, outcome, s.checks, s'.checks, Executor.RowsOfRun(s.checks, k.run))
      && Executor.Finalized(s'.runs[k.run], s.runs[k.run], ChecksOfRun(s'.checks, k.run))
  {
    more := ListedInARow(runners, outcome, s, w, k);
    hide Inv;
    var s2 := After(runners, s, more);
    hide After, Executor.Executed, Executor.RowsOfRun;
    var last := FinalizedInARow(runners, s2, w, k.(phase := Walking([])));
    AfterConcat(runners, s, more, last);
    more := more + last;
    assert s2.workers[w := Polled(k.queue)] == s.workers[w := Polled(k.queue)];
  }

  lemma ListedInARow(runners: set<string>, outcome: Executor.Runners, s: State, w: nat, k: Worker)
    returns (more: seq<Action>)
    requires Inv(s) && w in s.workers && s.workers[w] == k && k.Executing? && k.phase == Listing
    ensures var s' := After(runners, s, more);
      && s' == s.(checks := s'.checks, workers := s.workers[w := k.(phase := Walking([]))],
           runnerCalls := s'.runnerCalls)
      && Executor.Executed(runners, outcome, s.checks, s'.checks, Executor.RowsOfRun(s.checks, k.run))
  {
    var todo := ChecksOfRun(s.checks, k.run);
    assert WorkerOk(s, k);
    ListedPending(s, k.run);
    hide Inv, WorkerOk;
    assert After(runners, s, []) == s;
    more := Then(runners, s, [], ListChecks(w, true));
    var k1 := k.(phase := Walking(todo));
    var s1 := s.(workers := s.workers[w := k1]);
    assert After(runners, s, more) == s1;
    hide Step;
    var walk := WalkInARow(runners, outcome, s1, w, k1, todo);
    AfterConcat(runners, s, more, walk);
    more := more + walk;
    assert s1.workers[w := k.(phase := Walking([]))] == s.workers[w := k.(phase := Walking([]))];
    VisitedIsExecuted(runners, outcome, s.checks, After(runners, s, more).checks, k.run);
  }

  lemma ListedPending(s: State, r: nat)
    requires Inv(s) && PhaseOk(s, r, Listing)
    ensures PendingRows(s.checks, ChecksOfRun(s.checks, r)) && IdsArePositions(s.checks)
  {
    assert IdsArePositions(s.checks) by {
      forall i | 0 <= i < |s.checks|
        ensures s.checks[i].id == i
      {
        assert CheckOk(s, i);
      }
    }
    ListedInOrder(s.checks, r);
    forall c | c in ChecksOfRun(s.checks, r)
      ensures c.status == Pending
    {
      assert Untouched(s, c.id);
    }
  }

  lemma VisitedIsExecuted(
    runners: set<string>, outcome: Executor.Runners, was: seq<CheckRun>, rows: seq<CheckRun>, r: nat)
    requires Visited(runners, outcome, was, rows, ChecksOfRun(was, r)) && IdsArePositions(was)
    requires forall c :: c in ChecksOfRun(was, r) ==> c.status == Pending
    ensures Executor.Executed(runners, outcome, was, rows, Executor.RowsOfRun(was, r))
  {
    hide Executor.FinalStatus;
    forall i: nat | i < |was|
      ensures was[i].runId == r ==> was[i] in ChecksOfRun(was, r)
      ensures was[i].runId != r ==> forall c :: c in ChecksOfRun(was, r) ==> c.id != i
    {
      assert was[i] in was;
    }
  }

  /** The record the executor writes. */
  function FinalRecord(was: PipelineRun, checks: seq<CheckRun>): PipelineRun {
    var failed := CountStatus(checks, {Failed, Error});
    was.(passed := CountStatus(checks, {Passed}), failed := failed, skipped := CountStatus(checks, {Skipped}),
         status := if failed > 0 then RunFailed else RunCompleted)
  }

  /** The count, the read and the write that end an execution. */
  lemma FinalizedInARow(runners: set<string>, s: State, w: nat, k: Worker) returns (more: seq<Action>)
    requires WalkingAt(s, w, k, []) && k.run < |s.runs|
    ensures After(runners, s, more) ==
      s.(runs := s.runs[k.run := FinalRecord(s.runs[k.run], ChecksOfRun(s.checks, k.run))],
         workers := s.workers[w := Polled(k.queue)])
  {
    var checks, run := ChecksOfRun(s.checks, k.run), s.runs[k.run];
    hide ChecksOfRun, CountStatus;
    var record := FinalRecord(run, checks);
    assert After(runners, s, []) == s;
    more := Then(runners, s, [], NextCheck(w));
    var k1 := k.(phase := Finalizing);
    var s1 := s.(workers := s.workers[w := k1]);
    assert After(runners, s, more) == s1;
    more := Then(runners, s, more, FinalizeCall(w, true, false));
    var k2 := k.(phase := FinalizingRun(record.passed, record.failed, record.skipped));
    var s2 := s.(workers := s.workers[w := k2]);
    assert After(runners, s, more) == s2;
    more := FinalizedRest(runners, s, more, s2, w, k2, record);
  }

  lemma FinalizedRest(
    runners: set<string>, s: State, before: seq<Action>, s2: State, w: nat, k2: Worker, record: PipelineRun)
    returns (more: seq<Action>)
    requires After(runners, s, before) == s2 && k2.Executing? && k2.run < |s2.runs|
    requires k2.phase == FinalizingRun(record.passed, record.failed, record.skipped)
    requires s2 == s.(workers := s.workers[w := k2])
    requires record == s2.runs[k2.run].(
      passed := record.passed, failed := record.failed, skipped := record.skipped,
      status := if record.failed > 0 then RunFailed else RunCompleted)
    ensures After(runners, s, more) == s.(runs := s.runs[k2.run := record], workers := s.workers[w := Polled(k2.queue)])
  {
    var s3 := s.(workers := s.workers[w := k2.(phase := FinalWrite(record))]);
    assert Step(runners, s2, FinalizeCall(w, true, false)) == s3;
    RecordWritten(runners, s3, w, k2, record);
    assert s3.workers[w := Polled(k2.queue)] == s.workers[w := Polled(k2.queue)];
    hide Step, After;
    more := Then(runners, s, before, FinalizeCall(w, true, false));
    more := Then(runners, s, more, FinalizeCall(w, true, false));
  }

  lemma RecordWritten(runners: set<string>, s: State, w: nat, k: Worker, record: PipelineRun)
    requires k.Executing? && w in s.workers && s.workers[w] == k.(phase := FinalWrite(record)) && k.run < |s.runs|
    ensures Step(runners, s, FinalizeCall(w, true, false))
      == s.(runs := s.runs[k.run := record], workers := s.workers[w := Polled(k.queue)])
  {
  }

  // ----- A record that is finalized too early -----

  /**
   A run with two blocking steps, executed after its first check was inserted: once the second one is inserted the
   record says COMPLETED, a blocking check is PENDING, and the all-passed rule fails.
   */
  lemma CompletedWithPendingCheck() returns (actions: seq<Action>)
    ensures var s := After({}, INITIAL, actions);
      && |s.runs| == 1 && s.runs[0].status == RunCompleted
      && (exists c :: c in ChecksOfRun(s.checks, 0) && c.blocking && c.status == Pending)
      && !Gates.Verdict(Gates.AllPassed, ChecksOfRun(s.checks, 0))
  {
    var s: State;
    actions, s := ClaimedEarly();
    InitialInv();
    AfterKeepsInv({}, INITIAL, actions);
    hide Inv;
    var outcome := (name: string, c: CheckRun) => Executor.RunnerError("never called");
    var more := ExecutedInARow({}, outcome, s, 1, Executing([], 0, Listing));
    AfterConcat({}, INITIAL, actions, more);
    actions := actions + more;
    var s1 := After({}, s, more);
    EarlyCompleted(outcome, s.checks, s1.checks, s1.runs[0], s.runs[0]);
    hide After, Executor.Executed, Executor.Finalized;
    assert s1.triggers == s.triggers && |s1.runs| == 1;
    LateCheck(s1);
    hide Inv, Step;
    actions := Then({}, INITIAL, actions, TriggerCheck(0));
  }

  /** The trigger inserts its last check. */
  lemma LateCheck(s: State)
    requires s.triggers == map[0 := Trigger(0, None, None, 1, [PipelineStep("step", "none", None)])]
    ensures var s' := Step({}, s, TriggerCheck(0));
      && s'.runs == s.runs
      && (exists c :: c in ChecksOfRun(s'.checks, 0) && c.blocking && c.status == Pending)
      && !Gates.Verdict(Gates.AllPassed, ChecksOfRun(s'.checks, 0))
  {
    var s' := Step({}, s, TriggerCheck(0));
    var late := s'.checks[|s'.checks| - 1];
    assert late in s'.checks && late in ChecksOfRun(s'.checks, 0);
    assert late.blocking && late.status == Pending;
  }

  /** One of two checks is inserted. */
  lemma InsertedOne(step: PipelineStep, check: CheckRun) returns (actions: seq<Action>)
    requires check
      == CheckRun(0, 0, None, None, step.name, step.runnerType, Pending, step.blocking != Some(false), None)
    ensures After({}, INITIAL, actions) ==
      INITIAL.(runs := [PipelineRun(RunPending, 0, 0, 0, 0)], checks := [check],
               triggers := map[0 := Trigger(0, None, None, 1, [step])])
  {
    actions := Then({}, INITIAL, [], TriggerCreate(0, None, None, [step, step]));
    var s := INITIAL.(runs := [PipelineRun(RunPending, 0, 0, 0, 0)],
      triggers := map[0 := Trigger(0, None, None, 0, [step, step])]);
    assert After({}, INITIAL, actions) == s;
    actions := Then({}, INITIAL, actions, TriggerCheck(0));
    assert [step, step][1..] == [step];
  }

  /** The run is claimed while its trigger has one check left to insert. */
  lemma ClaimedEarly() returns (actions: seq<Action>, s: State)
    ensures After({}, INITIAL, actions) == s
    ensures s.runs == [PipelineRun(RunRunning, 0, 0, 0, 0)] && s.workers == map[1 := Executing([], 0, Listing)]
    ensures |s.checks| == 1 && s.checks[0].runId == 0 && s.checks[0].status == Pending
    ensures s.triggers == map[0 := Trigger(0, None, None, 1, [PipelineStep("step", "none", None)])]
  {
    var step := PipelineStep("step", "none", None);
    var check := CheckRun(0, 0, None, None, "step", "none", Pending, true, None);
    actions := InsertedOne(step, check);
    var s1 := After({}, INITIAL, actions);
    OnlyRunClaimed(s1);
    s := Step({}, Step({}, s1, Poll(1, [0])), Claim(1, true, true));
    hide After, Step;
    actions := Then({}, INITIAL, actions, Poll(1, [0]));
    actions := Then({}, INITIAL, actions, Claim(1, true, true));
  }

  /** The first worker polls and claims the only run. */
  lemma OnlyRunClaimed(s: State)
    requires s.runs == [PipelineRun(RunPending, 0, 0, 0, 0)] && s.workers == map[]
    ensures var s' := Step({}, Step({}, s, Poll(1, [0])), Claim(1, true, true));
      && s'.runs == [PipelineRun(RunRunning, 0, 0, 0, 0)] && s'.workers == map[1 := Executing([], 0, Listing)]
      && s'.checks == s.checks && s'.triggers == s.triggers
  {
    var s1 := Step({}, s, Poll(1, [0]));
    assert s1 == s.(workers := map[1 := Polled([0])]);
    assert [0][1..] == [];
  }

  /** Without runners every check is skipped, so the record says COMPLETED. */
  lemma EarlyCompleted(outcome: Executor.Runners, was: seq<CheckRun>, rows: seq<CheckRun>,
    run: PipelineRun, runWas: PipelineRun)
    requires |was| == 1 && was[0].runId == 0 && was[0].status == Pending
    requires Executor.Executed({}, outcome, was, rows, Executor.RowsOfRun(was, 0))
    requires Executor.Finalized(run, runWas, ChecksOfRun(rows, 0))
    ensures run.status == RunCompleted
  {
    CountPositive(ChecksOfRun(rows, 0), {Failed, Error});
    assert rows[0].status == Skipped;
  }
}
