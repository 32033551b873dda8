/**
 Triggers and workers sharing the pipeline tables. Every repository call is one action; an interleaving
 is any sequence of actions of any number of triggers and workers, each of which may stop for good
 between two calls or see a call fail.
 */
module Protocol {
  import opened Wrappers
  import opened AgentCI
  import Gates

  // ----- State -----

  /** A pipeline step as configured; a step that does not say is blocking. */
  datatype PipelineStep = PipelineStep(name: string, runnerType: string, blocking: Option<bool>)

  /** A trigger that has created its run and still has these check rows to insert. */
  datatype Trigger = Trigger(run: nat, versionId: Option<int>, releaseId: Option<int>, created: nat,
    todo: seq<PipelineStep>)

  /** The calls of a Mark operation: read the row, write its status, write its summary. */
  datatype Stage = Reading | Writing(row: CheckRun) | Rewriting(row: CheckRun)

  /** Where an executor is between two repository calls. `todo` is its snapshot of the checks still to visit. */
  datatype Phase =
    | Listing
    | Walking(todo: seq<CheckRun>)
    | Marking(todo: seq<CheckRun>, check: CheckRun, target: CheckStatus, stage: Stage)
    | AtRunner(todo: seq<CheckRun>, check: CheckRun)
    | Finalizing
    | FinalizingRun(passed: nat, failed: nat, skipped: nat)
    | FinalWrite(row: PipelineRun)

  datatype Worker = Idle | Polled(queue: seq<nat>) | Executing(queue: seq<nat>, run: nat, phase: Phase)

  /** The tables, the processes, and two histories: the successful claims and the calls of a runner. */
  datatype State = State(
    runs: seq<PipelineRun>, checks: seq<CheckRun>,
    triggers: map<nat, Trigger>, workers: map<nat, Worker>,
    claims: multiset<nat>, runnerCalls: multiset<nat>)

  const INITIAL := State([], [], map[], map[], multiset{}, multiset{})

  /** `effective` tells whether a write that reports an error reached the table. */
  datatype Action =
    | TriggerCreate(t: nat, versionId: Option<int>, releaseId: Option<int>, steps: seq<PipelineStep>)
    | TriggerCheck(t: nat)
    | TriggerFinish(t: nat)
    | Poll(w: nat, pending: seq<nat>)
    | Claim(w: nat, reached: bool, readBack: bool)
    | ListChecks(w: nat, ok: bool)
    | NextCheck(w: nat)
    | MarkCall(w: nat, ok: bool, effective: bool)
    | RunCheck(w: nat, verdict: Option<CheckStatus>)
    | FinalizeCall(w: nat, ok: bool, effective: bool)

  // ----- Triggers -----

  function NewCheck(s: State, tr: Trigger): CheckRun
    requires tr.todo != []
  {
    var step := tr.todo[0];
    CheckRun(|s.checks|, tr.run, tr.versionId, tr.releaseId, step.name, step.runnerType, Pending,
             step.blocking != Some(false), None)
  }

  /** A trigger inserts its run as PENDING, then its checks one by one, then overwrites the run as RUNNING. */
  function TriggerStep(s: State, a: Action): State
    requires a.TriggerCreate? || a.TriggerCheck? || a.TriggerFinish?
  {
    match a
    case TriggerCreate(t, versionId, releaseId, steps) =>
      if t in s.triggers then s
      else s.(runs := s.runs + [PipelineRun(RunPending, 0, 0, 0, 0)],
              triggers := s.triggers[t := Trigger(|s.runs|, versionId, releaseId, 0, steps)])
    case TriggerCheck(t) =>
      if t !in s.triggers || s.triggers[t].todo == [] then s
      else
        var tr := s.triggers[t];
        s.(checks := s.checks + [NewCheck(s, tr)],
           triggers := s.triggers[t := tr.(created := tr.created + 1, todo := tr.todo[1..])])
    case TriggerFinish(t) =>
      if t !in s.triggers || s.triggers[t].todo != [] || s.triggers[t].run >= |s.runs| then s
      else
        var tr := s.triggers[t];
        s.(runs := s.runs[tr.run := PipelineRun(RunRunning, tr.created, 0, 0, 0)],
           triggers := s.triggers - {t})
  }

  // ----- Workers -----

  function WorkerOf(s: State, w: nat): Worker {
    if w in s.workers then s.workers[w] else Idle
  }

  function WithWorker(s: State, w: nat, k: Worker): State {
    s.(workers := s.workers[w := k])
  }

  function WithPhase(s: State, w: nat, k: Worker, phase: Phase): State
    requires k.Executing?
  {
    WithWorker(s, w, k.(phase := phase))
  }

  predicate PendingRun(s: State, r: nat) {
    r < |s.runs| && s.runs[r].status == RunPending
  }

  function PollStep(s: State, w: nat, pending: seq<nat>): State {
    if WorkerOf(s, w) != Idle || |pending| > 10 || exists r :: r in pending && !PendingRun(s, r) then s
    else WithWorker(s, w, Polled(pending))
  }

  /**
   The conditional update: only a PENDING run is claimed. The update may not reach the table, and reading
   the claimed run back may fail; either way the worker goes on to the next run.
   */
  function ClaimStep(s: State, w: nat, reached: bool, readBack: bool): State {
    var k := WorkerOf(s, w);
    if !k.Polled? then s
    else if k.queue == [] then WithWorker(s, w, Idle)
    else
      var r := k.queue[0];
      if !reached || !PendingRun(s, r) then WithWorker(s, w, Polled(k.queue[1..]))
      else
        var claimed := s.(runs := s.runs[r := s.runs[r].(status := RunRunning)], claims := s.claims + multiset{r});
        WithWorker(claimed, w, if readBack then Executing(k.queue[1..], r, Listing) else Polled(k.queue[1..]))
  }

  function ListStep(s: State, w: nat, ok: bool): State {
    var k := WorkerOf(s, w);
    if !(k.Executing? && k.phase.Listing?) then s
    else if !ok then WithWorker(s, w, Polled(k.queue))
    else WithPhase(s, w, k, Walking(ChecksOfRun(s.checks, k.run)))
  }

  function NextStep(runners: set<string>, s: State, w: nat): State {
    var k := WorkerOf(s, w);
    if !(k.Executing? && k.phase.Walking?) then s
    else if k.phase.todo == [] then WithPhase(s, w, k, Finalizing)
    else
      var check, rest := k.phase.todo[0], k.phase.todo[1..];
      if check.status != Pending then WithPhase(s, w, k, Walking(rest))
      else
        var target := if FindRunner(runners, check.runnerType) == None then Skipped else Running;
        WithPhase(s, w, k, Marking(rest, check, target, Reading))
  }

  /** What follows a Mark operation: an error while starting a check ends the execution, any other is ignored. */
  function AfterMark(k: Worker, ok: bool): Worker
    requires k.Executing? && k.phase.Marking?
  {
    var p := k.phase;
    if p.target == Running then
      if ok then k.(phase := AtRunner(p.todo, p.check)) else Polled(k.queue)
    else
      k.(phase := Walking(p.todo))
  }

  function MarkStep(s: State, w: nat, ok: bool, effective: bool): State {
    var k := WorkerOf(s, w);
    if !(k.Executing? && k.phase.Marking?) then s
    else
      var p := k.phase;
      var id := p.check.id;
      if id >= |s.checks| then WithWorker(s, w, AfterMark(k, false))
      else
        match p.stage
        case Reading =>
          if !ok then WithWorker(s, w, AfterMark(k, false))
          else WithPhase(s, w, k, p.(stage := Writing(s.checks[id].(status := p.target))))
        case Writing(row) =>
          var s' := if ok || effective then s.(checks := s.checks[id := row]) else s;
          if !ok then WithWorker(s', w, AfterMark(k, false))
          else if p.target == Running then WithWorker(s', w, AfterMark(k, true))
          else WithPhase(s', w, k, p.(stage := Rewriting(row.(summary := Some("")))))
        case Rewriting(row) =>
          var s' := if ok || effective then s.(checks := s.checks[id := row]) else s;
          WithWorker(s', w, AfterMark(k, ok))
  }

  /** Where the verdict of the runner takes the worker; `None` is an error of the runner itself. */
  function AfterRunner(p: Phase, verdict: Option<CheckStatus>): Phase
    requires p.AtRunner?
  {
    match verdict
    case None => Marking(p.todo, p.check, Failed, Reading)
    case Some(Passed) => Marking(p.todo, p.check, Passed, Reading)
    case Some(Failed) => Marking(p.todo, p.check, Failed, Reading)
    case Some(Error) => Marking(p.todo, p.check, Failed, Reading)
    case Some(Skipped) => Marking(p.todo, p.check, Skipped, Reading)
    case Some(_) => Walking(p.todo)
  }

  function RunCheckStep(s: State, w: nat, verdict: Option<CheckStatus>): State {
    var k := WorkerOf(s, w);
    if !(k.Executing? && k.phase.AtRunner?) then s
    else
      var s' := s.(runnerCalls := s.runnerCalls + multiset{k.phase.check.id});
      WithPhase(s', w, k, AfterRunner(k.phase, verdict))
  }

  function FinalizeStep(s: State, w: nat, ok: bool, effective: bool): State {
    var k := WorkerOf(s, w);
    if !k.Executing? then s
    else
      match k.phase
      case Finalizing =>
        if !ok then WithWorker(s, w, Polled(k.queue))
        else
          var rows := ChecksOfRun(s.checks, k.run);
          WithPhase(s, w, k, FinalizingRun(CountStatus(rows, {Passed}), CountStatus(rows, {Failed, Error}),
                                           CountStatus(rows, {Skipped})))
      case FinalizingRun(passed, failed, skipped) =>
        if !ok || k.run >= |s.runs| then WithWorker(s, w, Polled(k.queue))
        else
          WithPhase(s, w, k, FinalWrite(s.runs[k.run].(
            passed := passed, failed := failed, skipped := skipped,
            status := if failed > 0 then RunFailed else RunCompleted)))
      case FinalWrite(row) =>
        var s' := if (ok || effective) && k.run < |s.runs| then s.(runs := s.runs[k.run := row]) else s;
        WithWorker(s', w, Polled(k.queue))
      case _ => s
  }

  function Step(runners: set<string>, s: State, a: Action): State {
    match a
    case Poll(w, pending) => PollStep(s, w, pending)
    case Claim(w, reached, readBack) => ClaimStep(s, w, reached, readBack)
    case ListChecks(w, ok) => ListStep(s, w, ok)
    case NextCheck(w) => NextStep(runners, s, w)
    case MarkCall(w, ok, effective) => MarkStep(s, w, ok, effective)
    case RunCheck(w, verdict) => RunCheckStep(s, w, verdict)
    case FinalizeCall(w, ok, effective) => FinalizeStep(s, w, ok, effective)
    case _ => TriggerStep(s, a)
  }

  /** The state an interleaving leads to. */
  function After(runners: set<string>, s: State, actions: seq<Action>): State
    decreases |actions|
  {
    if actions == [] then s
    else After(runners, Step(runners, s, actions[0]), actions[1..])
  }

  // ----- The invariant -----

  /** Nothing has happened to a check yet. */
  ghost predicate Untouched(s: State, i: nat) {
    i < |s.checks| && s.checks[i].status == Pending && i !in s.runnerCalls
  }

  /** The tables and the histories. */
  ghost predicate CheckOk(s: State, i: nat)
    requires i < |s.checks|
  {
    var c := s.checks[i];
    && c.id == i && c.runId < |s.runs|
    && (!Untouched(s, i) ==> c.runId in s.claims)
    && s.runnerCalls[i] <= 1
    && c.status in {Pending, Running, Passed, Failed, Skipped}
    && (c.status == Pending ==> i !in s.runnerCalls)
    && (c.status == Passed || c.status == Failed ==> i in s.runnerCalls)
  }

  ghost predicate RunOk(s: State, r: nat) {
    s.claims[r] <= 1 && (r in s.claims ==> r < |s.runs| && s.runs[r].status != RunPending)
  }

  ghost predicate TablesOk(s: State) {
    && (forall i: nat :: i < |s.checks| ==> CheckOk(s, i))
    && (forall r: nat :: RunOk(s, r))
    && (forall i: nat :: i in s.runnerCalls ==> i < |s.checks|)
    && (forall t :: t in s.triggers ==> s.triggers[t].run < |s.runs|)
  }

  /** A snapshot of checks of run `r` that nobody has touched since. */
  ghost predicate Fresh(s: State, r: nat, todo: seq<CheckRun>) {
    && (forall c :: c in todo ==> Untouched(s, c.id) && s.checks[c.id] == c && c.runId == r)
    && (forall j, k :: 0 <= j < k < |todo| ==> todo[j].id != todo[k].id)
  }

  /** The check a worker is busy with, and how far it has got. */
  ghost predicate MarkOk(s: State, check: CheckRun, target: CheckStatus, stage: Stage) {
    && check.id < |s.checks| && target in {Running, Passed, Failed, Skipped}
    && var row := s.checks[check.id];
    && (stage.Reading? || stage.Writing? ==>
          if target == Running then Untouched(s, check.id)
          else if check.id in s.runnerCalls then row.status == Running
          else Untouched(s, check.id) && target == Skipped)
    && (stage.Writing? ==> stage.row == row.(status := target))
    && (stage.Rewriting? ==>
          target != Running && row.status == target && SameButStatus(stage.row, row) && stage.row.status == target)
  }

  ghost predicate PhaseOk(s: State, r: nat, phase: Phase) {
    match phase
    case Listing => forall i: nat :: i < |s.checks| && s.checks[i].runId == r ==> Untouched(s, i)
    case Walking(todo) => Fresh(s, r, todo)
    case Marking(todo, check, target, stage) =>
      && Fresh(s, r, todo) && (forall c :: c in todo ==> c.id != check.id)
      && MarkOk(s, check, target, stage) && s.checks[check.id].runId == r
    case AtRunner(todo, check) =>
      && Fresh(s, r, todo) && (forall c :: c in todo ==> c.id != check.id)
      && check.id < |s.checks| && s.checks[check.id].runId == r
      && s.checks[check.id].status == Running && check.id !in s.runnerCalls
    case FinalWrite(row) => row.status != RunPending
    case _ => true
  }

  ghost predicate WorkerOk(s: State, k: Worker) {
    k.Executing? ==> k.run in s.claims && PhaseOk(s, k.run, k.phase)
  }

  /** No two workers execute the same run. */
  ghost predicate Exclusive(workers: map<nat, Worker>) {
    forall w, v :: w in workers && v in workers && w != v && workers[w].Executing? && workers[v].Executing? ==>
      workers[w].run != workers[v].run
  }

  ghost predicate Inv(s: State) {
    && TablesOk(s) && Exclusive(s.workers)
    && forall w :: w in s.workers ==> WorkerOk(s, s.workers[w])
  }

  // ----- Each action keeps it -----

  /** Everything about run `r` is as before; its new checks are untouched. */
  ghost predicate RunUntouched(s: State, s': State, r: nat) {
    && |s.checks| <= |s'.checks|
    && (forall i: nat :: i < |s.checks| && s.checks[i].runId == r ==>
          s'.checks[i] == s.checks[i] && (i in s'.runnerCalls <==> i in s.runnerCalls))
    && (forall i: nat :: i < |s.checks| ==> s'.checks[i].runId == s.checks[i].runId)
    && (forall i: nat :: |s.checks| <= i < |s'.checks| && s'.checks[i].runId == r ==> Untouched(s', i))
    && (r in s.claims ==> r in s'.claims)
  }

  lemma WorkerUndisturbed(s: State, s': State, k: Worker)
    requires WorkerOk(s, k) && (k.Executing? ==> RunUntouched(s, s', k.run))
    ensures WorkerOk(s', k)
  {
    if k.Executing? && k.phase.Listing? {
      forall i: nat | i < |s'.checks| && s'.checks[i].runId == k.run
        ensures Untouched(s', i)
      {
        assert i < |s.checks| ==> Untouched(s, i);
      }
    }
  }

  /** A worker's action: it may change the checks of its own run only. */
  lemma WorkerMoves(s: State, s': State, w: nat, k: Worker)
    requires Inv(s) && TablesOk(s')
    requires s'.workers == s.workers[w := k] && WorkerOk(s', k)
    requires forall v :: v in s.workers && v != w && s.workers[v].Executing? ==>
      RunUntouched(s, s', s.workers[v].run) && (k.Executing? ==> k.run != s.workers[v].run)
    ensures Inv(s')
  {
    forall v | v in s'.workers
      ensures WorkerOk(s', s'.workers[v])
    {
      if v != w {
        WorkerUndisturbed(s, s', s.workers[v]);
      }
    }
  }

  lemma TablesFrame(s: State, s': State)
    requires TablesOk(s) && s'.runs == s.runs && s'.checks == s.checks && s'.triggers == s.triggers
    requires s'.claims == s.claims && s'.runnerCalls == s.runnerCalls
    ensures TablesOk(s')
    ensures forall r: nat :: RunUntouched(s, s', r)
    ensures forall k: Worker :: WorkerOk(s', k) == WorkerOk(s, k)
  {
    forall i: nat | i < |s'.checks|
      ensures CheckOk(s', i)
    {
      assert CheckOk(s, i);
    }
    forall r: nat
      ensures RunOk(s', r)
    {
      assert RunOk(s, r);
    }
    forall i: nat
      ensures Untouched(s', i) == Untouched(s, i)
    {
    }
  }

  /** An action that only moves the worker on, without claiming a run for it. */
  lemma OnlyMoves(s: State, w: nat, k: Worker)
    requires Inv(s) && WorkerOk(s, k)
    requires k.Executing? ==> w in s.workers && s.workers[w].Executing? && s.workers[w].run == k.run
    ensures Inv(WithWorker(s, w, k))
  {
    hide TablesOk, WorkerOk, RunUntouched;
    TablesFrame(s, WithWorker(s, w, k));
    WorkerMoves(s, WithWorker(s, w, k), w, k);
  }

  lemma TriggerCreateKeeps(s: State, a: Action)
    requires Inv(s) && a.TriggerCreate?
    ensures Inv(TriggerStep(s, a))
  {
    var s' := TriggerStep(s, a);
    forall i: nat | i < |s'.checks|
      ensures CheckOk(s', i)
    {
      assert CheckOk(s, i);
      assert Untouched(s', i) == Untouched(s, i);
    }
    forall r: nat
      ensures RunOk(s', r)
    {
      assert RunOk(s, r);
    }
    WorkersUndisturbed(s, s');
  }

  lemma WorkersUndisturbed(s: State, s': State)
    requires Inv(s) && TablesOk(s') && s'.workers == s.workers
    requires forall w :: w in s.workers && s.workers[w].Executing? ==> RunUntouched(s, s', s.workers[w].run)
    ensures Inv(s')
  {
    forall w | w in s'.workers
      ensures WorkerOk(s', s'.workers[w])
    {
      WorkerUndisturbed(s, s', s.workers[w]);
    }
  }

  lemma TriggerCheckKeeps(s: State, a: Action)
    requires Inv(s) && a.TriggerCheck?
    ensures Inv(TriggerStep(s, a))
  {
    var s' := TriggerStep(s, a);
    forall i: nat | i < |s'.checks|
      ensures CheckOk(s', i)
    {
      if i < |s.checks| {
        assert CheckOk(s, i);
        assert Untouched(s', i) == Untouched(s, i);
      } else {
        assert Untouched(s', i);
      }
    }
    forall r: nat
      ensures RunOk(s', r)
    {
      assert RunOk(s, r);
    }
    forall i: nat | |s.checks| <= i < |s'.checks|
      ensures Untouched(s', i)
    {
    }
    WorkersUndisturbed(s, s');
  }

  /** Overwriting a run with anything but PENDING; a trigger may end with it. */
  lemma RunWriteKeepsTables(s: State, s': State, r: nat, row: PipelineRun)
    requires TablesOk(s) && r < |s.runs| && row.status != RunPending
    requires s'.runs == s.runs[r := row] && s'.checks == s.checks
    requires s'.claims == s.claims && s'.runnerCalls == s.runnerCalls
    requires forall t :: t in s'.triggers ==> t in s.triggers && s'.triggers[t] == s.triggers[t]
    ensures TablesOk(s')
    ensures forall q: nat :: RunUntouched(s, s', q)
  {
    forall i: nat | i < |s'.checks|
      ensures CheckOk(s', i)
    {
      assert CheckOk(s, i);
      assert Untouched(s', i) == Untouched(s, i);
    }
    forall q: nat
      ensures RunOk(s', q)
    {
      assert RunOk(s, q);
    }
  }

  lemma TriggerFinishKeeps(s: State, a: Action)
    requires Inv(s) && a.TriggerFinish?
    ensures Inv(TriggerStep(s, a))
  {
    var t := a.t;
    if t in s.triggers && s.triggers[t].todo == [] && s.triggers[t].run < |s.runs| {
      var tr := s.triggers[t];
      var s' := TriggerStep(s, a);
      RunWriteKeepsTables(s, s', tr.run, PipelineRun(RunRunning, tr.created, 0, 0, 0));
      WorkersUndisturbed(s, s');
    }
  }

  lemma ClaimKeeps(s: State, w: nat, reached: bool, readBack: bool)
    requires Inv(s)
    ensures Inv(ClaimStep(s, w, reached, readBack))
  {
    var k := WorkerOf(s, w);
    if !k.Polled? { return; }
    if k.queue == [] {
      OnlyMoves(s, w, Idle);
      return;
    }
    var r := k.queue[0];
    if !reached || !PendingRun(s, r) {
      OnlyMoves(s, w, Polled(k.queue[1..]));
      return;
    }
    var s' := ClaimStep(s, w, reached, readBack);
    assert RunOk(s, r);
    ClaimKeepsTables(s, s', r);
    var k' := s'.workers[w];
    assert WorkerOk(s', k') by {
      forall i: nat | i < |s'.checks| && s'.checks[i].runId == r
        ensures Untouched(s', i)
      {
        assert CheckOk(s, i);
        assert Untouched(s, i);
      }
    }
    WorkerMoves(s, s', w, k');
  }

  lemma ClaimKeepsTables(s: State, s': State, r: nat)
    requires TablesOk(s) && r < |s.runs| && r !in s.claims
    requires s'.runs == s.runs[r := s.runs[r].(status := RunRunning)] && s'.claims == s.claims + multiset{r}
    requires s'.checks == s.checks && s'.triggers == s.triggers && s'.runnerCalls == s.runnerCalls
    ensures TablesOk(s')
    ensures forall q: nat :: RunUntouched(s, s', q)
  {
    forall i: nat | i < |s'.checks|
      ensures CheckOk(s', i)
    {
      assert CheckOk(s, i);
      assert Untouched(s', i) == Untouched(s, i);
    }
    forall q: nat
      ensures RunOk(s', q)
    {
      assert RunOk(s, q);
      assert s'.claims[q] == if q == r then 1 else s.claims[q];
    }
  }

  lemma ListKeeps(s: State, w: nat, ok: bool)
    requires Inv(s)
    ensures Inv(ListStep(s, w, ok))
  {
    var k := WorkerOf(s, w);
    if k.Executing? && k.phase.Listing? {
      if !ok {
        OnlyMoves(s, w, Polled(k.queue));
      } else {
        assert WorkerOk(s, k);
        assert Fresh(s, k.run, ChecksOfRun(s.checks, k.run)) by {
          assert IdsArePositions(s.checks) by {
            forall i | 0 <= i < |s.checks|
              ensures s.checks[i].id == i
            {
              assert CheckOk(s, i);
            }
          }
          ListedInOrder(s.checks, k.run);
        }
        OnlyMoves(s, w, k.(phase := Walking(ChecksOfRun(s.checks, k.run))));
      }
    }
  }

  lemma FreshRest(s: State, r: nat, todo: seq<CheckRun>)
    requires Fresh(s, r, todo) && todo != []
    ensures Fresh(s, r, todo[1..])
    ensures Untouched(s, todo[0].id) && s.checks[todo[0].id] == todo[0] && todo[0].runId == r
    ensures forall c :: c in todo[1..] ==> c.id != todo[0].id
  {
    assert todo[0] in todo;
    assert forall c :: c in todo[1..] ==> c in todo;
  }

  lemma NextKeeps(runners: set<string>, s: State, w: nat)
    requires Inv(s)
    ensures Inv(NextStep(runners, s, w))
  {
    var k := WorkerOf(s, w);
    if k.Executing? && k.phase.Walking? {
      assert WorkerOk(s, k);
      if k.phase.todo == [] {
        OnlyMoves(s, w, k.(phase := Finalizing));
      } else {
        FreshRest(s, k.run, k.phase.todo);
        OnlyMoves(s, w, NextStep(runners, s, w).workers[w]);
      }
    }
  }

  /** Writing a check row that its worker may write. */
  lemma RowWriteKeepsTables(s: State, s': State, i: nat, row: CheckRun)
    requires TablesOk(s) && i < |s.checks| && SameButStatus(row, s.checks[i])
    requires s.checks[i].runId in s.claims && row.status in {Running, Passed, Failed, Skipped}
    requires row.status == Passed || row.status == Failed ==> i in s.runnerCalls
    requires s'.checks == s.checks[i := row] && s'.runs == s.runs && s'.triggers == s.triggers
    requires s'.claims == s.claims && s'.runnerCalls == s.runnerCalls
    ensures TablesOk(s')
    ensures forall r: nat :: r != s.checks[i].runId ==> RunUntouched(s, s', r)
  {
    assert CheckOk(s, i);
    forall j: nat | j < |s'.checks|
      ensures CheckOk(s', j)
    {
      assert CheckOk(s, j);
      assert j != i ==> Untouched(s', j) == Untouched(s, j);
    }
    forall r: nat
      ensures RunOk(s', r)
    {
      assert RunOk(s, r);
    }
  }

  /** Only the check the worker is busy with has changed, so what it still has to visit is still fresh. */
  lemma FreshFrame(s: State, s': State, r: nat, todo: seq<CheckRun>, i: nat)
    requires Fresh(s, r, todo) && forall c :: c in todo ==> c.id != i
    requires |s'.checks| == |s.checks|
    requires forall j: nat :: j < |s.checks| && j != i ==>
      s'.checks[j] == s.checks[j] && (j in s'.runnerCalls <==> j in s.runnerCalls)
    ensures Fresh(s', r, todo)
  {
    forall c | c in todo
      ensures Untouched(s', c.id) && s'.checks[c.id] == c && c.runId == r
    {
      assert Untouched(s, c.id);
    }
  }

  /** A Mark operation writes its row and the worker goes on as `k`. */
  lemma WriteAndMove(s: State, w: nat, k: Worker, row: CheckRun, k': Worker)
    requires Inv(s) && w in s.workers && s.workers[w] == k && k.Executing? && k.phase.Marking?
    requires MarkOk(s, k.phase.check, k.phase.target, k.phase.stage) && !k.phase.stage.Reading?
      && row == k.phase.stage.row
    requires k'.Executing? ==> k'.run == k.run
    requires WorkerOk(s.(checks := s.checks[k.phase.check.id := row]), k')
    ensures Inv(WithWorker(s.(checks := s.checks[k.phase.check.id := row]), w, k'))
  {
    var i := k.phase.check.id;
    var s1 := s.(checks := s.checks[i := row]);
    var s' := WithWorker(s1, w, k');
    assert WorkerOk(s, k);
    assert CheckOk(s, i);
    RowWriteKeepsTables(s, s', i, row);
    RowWriteKeepsTables(s, s1, i, row);
    TablesFrame(s1, s');
    WorkerMoves(s, s', w, k');
  }

  lemma MarkReadKeeps(s: State, w: nat, ok: bool)
    requires Inv(s) && w in s.workers && s.workers[w].Executing? && s.workers[w].phase.Marking?
    requires s.workers[w].phase.stage.Reading?
    ensures Inv(MarkStep(s, w, ok, false))
  {
    var k := s.workers[w];
    var p := k.phase;
    assert WorkerOk(s, k);
    if ok {
      OnlyMoves(s, w, k.(phase := p.(stage := Writing(s.checks[p.check.id].(status := p.target)))));
    } else {
      OnlyMoves(s, w, AfterMark(k, false));
    }
  }

  lemma MarkWriteKeeps(s: State, w: nat, ok: bool, effective: bool)
    requires Inv(s) && w in s.workers && s.workers[w].Executing? && s.workers[w].phase.Marking?
    requires !s.workers[w].phase.stage.Reading?
    ensures Inv(MarkStep(s, w, ok, effective))
  {
    var k := s.workers[w];
    var p := k.phase;
    var i := p.check.id;
    assert WorkerOk(s, k);
    if !ok && !effective {
      OnlyMoves(s, w, AfterMark(k, false));
    } else {
      var row := p.stage.row;
      var s1 := s.(checks := s.checks[i := row]);
      assert CheckOk(s, i);
      FreshFrame(s, s1, k.run, p.todo, i);
      WriteAndMove(s, w, k, row, MarkStep(s, w, ok, effective).workers[w]);
    }
  }

  lemma MarkKeeps(s: State, w: nat, ok: bool, effective: bool)
    requires Inv(s)
    ensures Inv(MarkStep(s, w, ok, effective))
  {
    var k := WorkerOf(s, w);
    if k.Executing? && k.phase.Marking? {
      assert WorkerOk(s, k);
      hide Inv;
      if k.phase.stage.Reading? {
        MarkReadKeeps(s, w, ok);
      } else {
        MarkWriteKeeps(s, w, ok, effective);
      }
    }
  }

  lemma RunnerCallKeepsTables(s: State, s': State, i: nat)
    requires TablesOk(s) && i < |s.checks| && s.checks[i].status == Running && i !in s.runnerCalls
    requires s'.checks == s.checks && s'.runs == s.runs && s'.triggers == s.triggers && s'.claims == s.claims
    requires s'.runnerCalls == s.runnerCalls + multiset{i}
    ensures TablesOk(s')
    ensures forall r: nat :: r != s.checks[i].runId ==> RunUntouched(s, s', r)
  {
    assert CheckOk(s, i);
    forall j: nat | j < |s'.checks|
      ensures CheckOk(s', j)
    {
      assert CheckOk(s, j);
      assert s'.runnerCalls[j] == if j == i then 1 else s.runnerCalls[j];
      assert Untouched(s', j) == Untouched(s, j);
    }
    forall r: nat
      ensures RunOk(s', r)
    {
      assert RunOk(s, r);
    }
  }

  lemma AfterRunnerOk(s: State, s': State, r: nat, p: Phase, verdict: Option<CheckStatus>)
    requires p.AtRunner? && PhaseOk(s, r, p) && s'.checks == s.checks
    requires s'.runnerCalls == s.runnerCalls + multiset{p.check.id}
    ensures PhaseOk(s', r, AfterRunner(p, verdict))
  {
    FreshFrame(s, s', r, p.todo, p.check.id);
    hide Fresh;
  }

  lemma RunCheckKeeps(s: State, w: nat, verdict: Option<CheckStatus>)
    requires Inv(s)
    ensures Inv(RunCheckStep(s, w, verdict))
  {
    var k := WorkerOf(s, w);
    if k.Executing? && k.phase.AtRunner? {
      var s' := RunCheckStep(s, w, verdict);
      assert WorkerOk(s, k);
      RunnerCallKeepsTables(s, s', k.phase.check.id);
      hide TablesOk, RunUntouched, Exclusive;
      AfterRunnerOk(s, s', k.run, k.phase, verdict);
      hide PhaseOk, AfterRunner;
      WorkerMoves(s, s', w, s'.workers[w]);
    }
  }

  lemma FinalizeKeeps(s: State, w: nat, ok: bool, effective: bool)
    requires Inv(s)
    ensures Inv(FinalizeStep(s, w, ok, effective))
  {
    var k := WorkerOf(s, w);
    if k.Executing? {
      assert WorkerOk(s, k);
      var s' := FinalizeStep(s, w, ok, effective);
      if k.phase.FinalWrite? && (ok || effective) && k.run < |s.runs| {
        RunWriteKeepsTables(s, s', k.run, k.phase.row);
        WorkerMoves(s, s', w, Polled(k.queue));
      } else if k.phase.Finalizing? || k.phase.FinalizingRun? || k.phase.FinalWrite? {
        OnlyMoves(s, w, s'.workers[w]);
      }
    }
  }

  lemma StepKeepsInv(runners: set<string>, s: State, a: Action)
    requires Inv(s)
    ensures Inv(Step(runners, s, a))
  {
    hide Inv;
    match a
    case TriggerCreate(_, _, _, _) => TriggerCreateKeeps(s, a);
    case TriggerCheck(_) => TriggerCheckKeeps(s, a);
    case TriggerFinish(_) => TriggerFinishKeeps(s, a);
    case Poll(w, pending) => PollKeeps(s, w, pending);
    case Claim(w, reached, readBack) => ClaimKeeps(s, w, reached, readBack);
    case ListChecks(w, ok) => ListKeeps(s, w, ok);
    case NextCheck(w) => NextKeeps(runners, s, w);
    case MarkCall(w, ok, effective) => MarkKeeps(s, w, ok, effective);
    case RunCheck(w, verdict) => RunCheckKeeps(s, w, verdict);
    case FinalizeCall(w, ok, effective) => FinalizeKeeps(s, w, ok, effective);
  }

  lemma PollKeeps(s: State, w: nat, pending: seq<nat>)
    requires Inv(s)
    ensures Inv(PollStep(s, w, pending))
  {
    OnlyMoves(s, w, Polled(pending));
  }

  lemma {:induction false} AfterKeepsInv(runners: set<string>, s: State, actions: seq<Action>)
    requires Inv(s)
    ensures Inv(After(runners, s, actions))
    decreases |actions|
  {
    if actions != [] {
      hide Inv;
      StepKeepsInv(runners, s, actions[0]);
      AfterKeepsInv(runners, Step(runners, s, actions[0]), actions[1..]);
    }
  }

  lemma InitialInv()
    ensures Inv(INITIAL)
  {
  }

  // ----- What holds in every interleaving -----

  /**
   However triggers and workers interleave, a run is claimed at most once and a check handed to a runner at most once.
   */
  lemma ClaimedAndRunAtMostOnce(runners: set<string>, actions: seq<Action>, run: nat, check: nat)
    ensures After(runners, INITIAL, actions).claims[run] <= 1
    ensures After(runners, INITIAL, actions).runnerCalls[check] <= 1
  {
    InitialInv();
    AfterKeepsInv(runners, INITIAL, actions);
    var s := After(runners, INITIAL, actions);
    assert RunOk(s, run);
    if check in s.runnerCalls {
      assert CheckOk(s, check);
    }
  }

  /** A status only advances: from PENDING, or from RUNNING to its end. */
  predicate Advances(a: CheckStatus, b: CheckStatus) {
    a == b || (a == Pending && b in {Running, Passed, Failed, Skipped}) || (a == Running && Terminal(b))
  }

  /** The only changes of a status that a single repository call makes. */
  predicate SingleChange(a: CheckStatus, b: CheckStatus) {
    a == b || (a == Pending && b in {Running, Skipped}) || (a == Running && Terminal(b))
  }

  lemma MarkChangesStatus(s: State, w: nat, ok: bool, effective: bool, i: nat)
    requires Inv(s) && i < |s.checks|
    ensures var s' := MarkStep(s, w, ok, effective);
      && i < |s'.checks| && SameButStatus(s'.checks[i], s.checks[i])
      && SingleChange(s.checks[i].status, s'.checks[i].status)
  {
    var k := WorkerOf(s, w);
    if k.Executing? && k.phase.Marking? {
      assert WorkerOk(s, k);
      hide TablesOk, Fresh, Exclusive;
      assert MarkOk(s, k.phase.check, k.phase.target, k.phase.stage);
    }
  }

  lemma StepChangesStatus(runners: set<string>, s: State, a: Action, i: nat)
    requires Inv(s) && i < |s.checks|
    ensures var s' := Step(runners, s, a);
      && i < |s'.checks| && SameButStatus(s'.checks[i], s.checks[i])
      && SingleChange(s.checks[i].status, s'.checks[i].status)
  {
    hide Inv;
    match a
    case MarkCall(w, ok, effective) => MarkChangesStatus(s, w, ok, effective, i);
    case _ => assert Step(runners, s, a).checks[i] == s.checks[i];
  }

  /**
   In every continuation of every interleaving a check keeps its identity and its status only advances, one
   of PENDING -> RUNNING, RUNNING -> terminal and PENDING -> SKIPPED at a time; so a terminal status is final.
   */
  lemma {:induction false} StatusOnlyAdvances(runners: set<string>, s: State, actions: seq<Action>, i: nat)
    requires Inv(s) && i < |s.checks|
    ensures var s' := After(runners, s, actions);
      && i < |s'.checks| && SameButStatus(s'.checks[i], s.checks[i])
      && Advances(s.checks[i].status, s'.checks[i].status)
      && (Terminal(s.checks[i].status) ==> s'.checks[i].status == s.checks[i].status)
    decreases |actions|
  {
    if actions != [] {
      hide Inv;
      StepKeepsInv(runners, s, actions[0]);
      StepChangesStatus(runners, s, actions[0], i);
      StatusOnlyAdvances(runners, Step(runners, s, actions[0]), actions[1..], i);
    }
  }

  // ----- Gates over reachable states -----

  /**
   Once a blocking check of a version or a release has failed, all three rules fail for that version or
   release in every later state, whatever later triggers, workers and runs do.
   */
  lemma FailedGateStaysClosed(runners: set<string>, before: seq<Action>, after: seq<Action>, subject: Gates.Subject,
    c: CheckRun)
    requires c in Gates.ChecksAbout(After(runners, INITIAL, before).checks, subject) && Gates.BlockingFailure(c)
    ensures var checks := Gates.ChecksAbout(After(runners, After(runners, INITIAL, before), after).checks, subject);
      && !Gates.Verdict(Gates.AllPassed, checks)
      && !Gates.Verdict(Gates.RequiredPassed, checks)
      && !Gates.Verdict(Gates.NoCritical, checks)
  {
    InitialInv();
    AfterKeepsInv(runners, INITIAL, before);
    hide Inv, After;
    var s := After(runners, INITIAL, before);
    var i :| 0 <= i < |s.checks| && s.checks[i] == c;
    StatusOnlyAdvances(runners, s, after, i);
    var s' := After(runners, s, after);
    assert s'.checks[i] in Gates.ChecksAbout(s'.checks, subject);
    Gates.BlockingFailureFailsAll(Gates.ChecksAbout(s'.checks, subject), s'.checks[i]);
  }

  // ----- Accepted runs that are never executed -----

  lemma FinalizeKeepsUnclaimed(s: State, w: nat, ok: bool, effective: bool, r: nat)
    requires Inv(s) && r < |s.runs| && s.runs[r].status != RunPending && r !in s.claims
    ensures var s' := FinalizeStep(s, w, ok, effective);
      r < |s'.runs| && s'.runs[r].status != RunPending && r !in s'.claims
  {
    var k := WorkerOf(s, w);
    if k.Executing? {
      assert WorkerOk(s, k);
    }
  }

  lemma StepKeepsUnclaimed(runners: set<string>, s: State, a: Action, r: nat)
    requires Inv(s) && r < |s.runs| && s.runs[r].status != RunPending && r !in s.claims
    ensures var s' := Step(runners, s, a);
      r < |s'.runs| && s'.runs[r].status != RunPending && r !in s'.claims
  {
    hide Inv;
    match a
    case FinalizeCall(w, ok, effective) => FinalizeKeepsUnclaimed(s, w, ok, effective, r);
    case _ =>
  }

  lemma {:induction false} UnclaimedForever(runners: set<string>, s: State, actions: seq<Action>, r: nat)
    requires Inv(s) && r < |s.runs| && s.runs[r].status != RunPending && r !in s.claims
    ensures r !in After(runners, s, actions).claims && Inv(After(runners, s, actions))
    decreases |actions|
  {
    if actions != [] {
      hide Inv;
      StepKeepsInv(runners, s, actions[0]);
      StepKeepsUnclaimed(runners, s, actions[0], r);
      UnclaimedForever(runners, Step(runners, s, actions[0]), actions[1..], r);
    }
  }

  /**
   A trigger overwrites its own run as RUNNING when it ends. When no worker has claimed the run by then,
   none ever will, and every check of the run stays as it was inserted.
   */
  lemma FinishedUnclaimedNeverRuns(runners: set<string>, before: seq<Action>, t: nat, after: seq<Action>)
    requires var s := After(runners, INITIAL, before);
      t in s.triggers && s.triggers[t].todo == [] && s.triggers[t].run !in s.claims
    ensures var s := After(runners, INITIAL, before);
      var s' := After(runners, Step(runners, s, TriggerFinish(t)), after);
      && s.triggers[t].run !in s'.claims
      && forall i: nat :: i < |s'.checks| && s'.checks[i].runId == s.triggers[t].run ==> Untouched(s', i)
  {
    InitialInv();
    AfterKeepsInv(runners, INITIAL, before);
    hide After;
    var s := After(runners, INITIAL, before);
    var r := s.triggers[t].run;
    StepKeepsInv(runners, s, TriggerFinish(t));
    UnclaimedForever(runners, Step(runners, s, TriggerFinish(t)), after, r);
    var s' := After(runners, Step(runners, s, TriggerFinish(t)), after);
    forall i: nat | i < |s'.checks| && s'.checks[i].runId == r
      ensures Untouched(s', i)
    {
      assert CheckOk(s', i);
    }
  }

  // ----- Claimed runs that are never executed -----

  /** Run `r` is claimed, RUNNING, and no worker executes it. */
  ghost predicate Abandoned(s: State, r: nat) {
    && r < |s.runs| && s.runs[r].status == RunRunning && r in s.claims
    && forall w :: w in s.workers && s.workers[w].Executing? ==> s.workers[w].run != r
  }

  /** The checks of run `r` that were there are as they were. */
  ghost predicate SameChecks(s: State, s': State, r: nat) {
    forall i: nat :: i < |s.checks| && s.checks[i].runId == r ==>
      i < |s'.checks| && s'.checks[i] == s.checks[i] && s'.runnerCalls[i] == s.runnerCalls[i]
  }

  lemma FinalizeKeepsAbandoned(s: State, w: nat, ok: bool, effective: bool, r: nat)
    requires Inv(s) && Abandoned(s, r)
    ensures Abandoned(FinalizeStep(s, w, ok, effective), r)
    ensures SameChecks(s, FinalizeStep(s, w, ok, effective), r)
  {
    hide Inv, ChecksOfRun, CountStatus;
  }

  lemma MarkKeepsAbandoned(s: State, w: nat, ok: bool, effective: bool, r: nat)
    requires Inv(s) && Abandoned(s, r)
    ensures Abandoned(MarkStep(s, w, ok, effective), r) && SameChecks(s, MarkStep(s, w, ok, effective), r)
  {
    var k := WorkerOf(s, w);
    if k.Executing? && k.phase.Marking? {
      assert WorkerOk(s, k);
      assert s.checks[k.phase.check.id].runId == k.run;
    }
    hide Inv, WorkerOk, PhaseOk;
  }

  lemma RunCheckKeepsAbandoned(s: State, w: nat, verdict: Option<CheckStatus>, r: nat)
    requires Inv(s) && Abandoned(s, r)
    ensures Abandoned(RunCheckStep(s, w, verdict), r) && SameChecks(s, RunCheckStep(s, w, verdict), r)
  {
    var k := WorkerOf(s, w);
    if k.Executing? && k.phase.AtRunner? {
      assert WorkerOk(s, k);
      assert s.checks[k.phase.check.id].runId == k.run;
    }
    hide Inv, WorkerOk, PhaseOk, AfterRunner;
  }

  lemma TriggerKeepsAbandoned(s: State, a: Action, r: nat)
    requires Abandoned(s, r) && (a.TriggerCreate? || a.TriggerCheck? || a.TriggerFinish?)
    ensures Abandoned(TriggerStep(s, a), r) && SameChecks(s, TriggerStep(s, a), r)
  {
    hide NewCheck;
  }

  lemma OtherKeepsAbandoned(runners: set<string>, s: State, a: Action, r: nat)
    requires Abandoned(s, r) && (a.Poll? || a.Claim? || a.ListChecks? || a.NextCheck?)
    ensures Abandoned(Step(runners, s, a), r) && SameChecks(s, Step(runners, s, a), r)
  {
    hide ChecksOfRun, FindRunner;
  }

  lemma StepKeepsAbandoned(runners: set<string>, s: State, a: Action, r: nat)
    requires Inv(s) && Abandoned(s, r)
    ensures Abandoned(Step(runners, s, a), r) && SameChecks(s, Step(runners, s, a), r)
  {
    hide Inv, Abandoned, SameChecks;
    match a
    case FinalizeCall(w, ok, effective) => FinalizeKeepsAbandoned(s, w, ok, effective, r);
    case MarkCall(w, ok, effective) => MarkKeepsAbandoned(s, w, ok, effective, r);
    case RunCheck(w, verdict) => RunCheckKeepsAbandoned(s, w, verdict, r);
    case TriggerCreate(_, _, _, _) => TriggerKeepsAbandoned(s, a, r);
    case TriggerCheck(_) => TriggerKeepsAbandoned(s, a, r);
    case TriggerFinish(_) => TriggerKeepsAbandoned(s, a, r);
    case _ => OtherKeepsAbandoned(runners, s, a, r);
  }

  lemma {:induction false} AbandonedForever(runners: set<string>, s: State, actions: seq<Action>, r: nat)
    requires Inv(s) && Abandoned(s, r)
    ensures Abandoned(After(runners, s, actions), r) && SameChecks(s, After(runners, s, actions), r)
    decreases |actions|
  {
    if actions != [] {
      hide Inv, Abandoned;
      StepKeepsInv(runners, s, actions[0]);
      StepKeepsAbandoned(runners, s, actions[0], r);
      AbandonedForever(runners, Step(runners, s, actions[0]), actions[1..], r);
    }
  }

  /**
   A worker whose claim succeeds but that cannot read the claimed run back goes on to the next run. The run it leaves
   says RUNNING for ever, and the checks inserted by then stay PENDING without ever reaching a runner.
   */
  lemma UnreadClaimNeverRuns(runners: set<string>, before: seq<Action>, w: nat, after: seq<Action>)
    requires var s := After(runners, INITIAL, before);
      && w in s.workers && s.workers[w].Polled? && s.workers[w].queue != []
      && s.workers[w].queue[0] < |s.runs| && s.runs[s.workers[w].queue[0]].status == RunPending
    ensures var s := After(runners, INITIAL, before);
      var r := s.workers[w].queue[0];
      var s' := After(runners, Step(runners, s, Claim(w, true, false)), after);
      && r < |s'.runs| && s'.runs[r].status == RunRunning && s'.claims[r] == 1
      && forall i: nat :: i < |s.checks| && s.checks[i].runId == r ==>
          i < |s'.checks| && s'.checks[i] == s.checks[i] && s'.checks[i].status == Pending && i !in s'.runnerCalls
  {
    InitialInv();
    AfterKeepsInv(runners, INITIAL, before);
    var s := After(runners, INITIAL, before);
    var r := s.workers[w].queue[0];
    var s1 := Step(runners, s, Claim(w, true, false));
    UnreadClaimAbandons(runners, s, w);
    StepKeepsInv(runners, s, Claim(w, true, false));
    hide After, Step, Inv, Untouched;
    AbandonedForever(runners, s1, after, r);
    AfterKeepsInv(runners, s1, after);
    var s' := After(runners, s1, after);
    ClaimedOnce(s', r);
    forall i: nat | i < |s.checks| && s.checks[i].runId == r
      ensures i < |s'.checks| && s'.checks[i] == s.checks[i] && i !in s'.runnerCalls
    {
      assert s1.checks[i].runId == r && s1.runnerCalls[i] == 0;
    }
  }

  lemma ClaimedOnce(s: State, r: nat)
    requires Inv(s) && r in s.claims
    ensures s.claims[r] == 1
  {
    assert RunOk(s, r);
  }

  lemma UnreadClaimAbandons(runners: set<string>, s: State, w: nat)
    requires Inv(s) && w in s.workers && s.workers[w].Polled? && s.workers[w].queue != []
    requires PendingRun(s, s.workers[w].queue[0])
    ensures var r := s.workers[w].queue[0];
      var s' := Step(runners, s, Claim(w, true, false));
      && Abandoned(s', r) && s'.checks == s.checks && s'.runnerCalls == s.runnerCalls
      && forall i: nat :: i < |s.checks| && s.checks[i].runId == r ==>
          s.checks[i].status == Pending && i !in s.runnerCalls
  {
    var r := s.workers[w].queue[0];
    assert RunOk(s, r);
    forall i: nat | i < |s.checks| && s.checks[i].runId == r
      ensures Untouched(s, i)
    {
      assert CheckOk(s, i);
    }
    forall v | v in s.workers && s.workers[v].Executing?
      ensures s.workers[v].run != r
    {
      assert WorkerOk(s, s.workers[v]);
    }
  }

  // ----- Polls -----

  /** Worker `w` holds at most ten runs. */
  ghost predicate ShortQueue(s: State, w: nat) {
    w in s.workers && !s.workers[w].Idle? ==> |s.workers[w].queue| <= 10
  }

  lemma StepKeepsQueue(runners: set<string>, s: State, a: Action, w: nat)
    requires ShortQueue(s, w)
    ensures ShortQueue(Step(runners, s, a), w)
  {
    match a
    case MarkCall(v, ok, effective) => MarkKeepsQueue(s, v, ok, effective, w);
    case FinalizeCall(v, ok, effective) => FinalizeKeepsQueue(s, v, ok, effective, w);
    case TriggerCreate(_, _, _, _) => TriggerKeepsWorkers(s, a);
    case TriggerCheck(_) => TriggerKeepsWorkers(s, a);
    case TriggerFinish(_) => TriggerKeepsWorkers(s, a);
    case Claim(v, reached, readBack) => ClaimKeepsQueue(s, v, reached, readBack, w);
    case _ => hide ChecksOfRun, FindRunner, AfterRunner, ClaimStep, MarkStep, FinalizeStep, TriggerStep;
  }

  lemma ClaimKeepsQueue(s: State, v: nat, reached: bool, readBack: bool, w: nat)
    requires ShortQueue(s, w)
    ensures ShortQueue(ClaimStep(s, v, reached, readBack), w)
  {
    hide PendingRun;
  }

  lemma TriggerKeepsWorkers(s: State, a: Action)
    requires a.TriggerCreate? || a.TriggerCheck? || a.TriggerFinish?
    ensures TriggerStep(s, a).workers == s.workers
  {
  }

  lemma FinalizeKeepsQueue(s: State, v: nat, ok: bool, effective: bool, w: nat)
    requires ShortQueue(s, w)
    ensures ShortQueue(FinalizeStep(s, v, ok, effective), w)
  {
    hide ChecksOfRun, CountStatus;
  }

  lemma MarkKeepsQueue(s: State, v: nat, ok: bool, effective: bool, w: nat)
    requires ShortQueue(s, w)
    ensures ShortQueue(MarkStep(s, v, ok, effective), w)
  {
  }

  lemma {:induction false} QueueStaysShort(runners: set<string>, s: State, actions: seq<Action>, w: nat)
    requires ShortQueue(s, w)
    ensures ShortQueue(After(runners, s, actions), w)
    decreases |actions|
  {
    if actions != [] {
      StepKeepsQueue(runners, s, actions[0], w);
      hide Step, ShortQueue;
      QueueStaysShort(runners, Step(runners, s, actions[0]), actions[1..], w);
    }
  }

  /** No worker ever holds more than ten runs besides the one that it executes. */
  lemma QueueBound(runners: set<string>, actions: seq<Action>, w: nat)
    ensures var s := After(runners, INITIAL, actions);
      w in s.workers && !s.workers[w].Idle? ==> |s.workers[w].queue| <= 10
  {
    QueueStaysShort(runners, INITIAL, actions, w);
  }
}
