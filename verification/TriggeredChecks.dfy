/**
 What a trigger inserts: one check for each step, as it was configured, for the version and the release it was given.
 */
module TriggeredChecks {
  import opened Wrappers
  import opened AgentCI
  import opened Protocol
  import Gates

  /** A row for this step, whatever its status has become. */
  predicate IsFor(c: CheckRun, versionId: Option<int>, releaseId: Option<int>, step: PipelineStep) {
    && c.versionId == versionId && c.releaseId == releaseId
    && c.name == step.name && c.runnerType == step.runnerType
    && (c.blocking <==> step.blocking == None || step.blocking == Some(true))
  }

  ghost predicate RowsFor(
    rows: seq<CheckRun>, versionId: Option<int>, releaseId: Option<int>, steps: seq<PipelineStep>)
  {
    |rows| <= |steps| && forall k :: 0 <= k < |rows| ==> IsFor(rows[k], versionId, releaseId, steps[k])
  }

  /** The trigger of run `n`, as long as it is there, has inserted the first `k` steps and not the others. */
  ghost predicate TriggerAt(
    triggers: map<nat, Trigger>, n: nat, versionId: Option<int>, releaseId: Option<int>,
    steps: seq<PipelineStep>, k: nat)
  {
    && k <= |steps|
    && (forall t :: t in triggers && triggers[t].run == n ==>
          triggers[t] == Trigger(n, versionId, releaseId, k, steps[k..]))
    && (forall t, u :: t in triggers && u in triggers && triggers[t].run == n && triggers[u].run == n ==> t == u)
    && ((forall t :: t in triggers ==> triggers[t].run != n) ==> k == |steps|)
  }

  /** The rows of run `n` are those of the first steps, and its trigger has the others to insert. */
  ghost predicate Made(s: State, n: nat, versionId: Option<int>, releaseId: Option<int>, steps: seq<PipelineStep>) {
    var rows := ChecksOfRun(s.checks, n);
    n < |s.runs| && RowsFor(rows, versionId, releaseId, steps)
    && TriggerAt(s.triggers, n, versionId, releaseId, steps, |rows|)
  }

  /** The rows listed for a run stay what they are when only statuses and summaries change. */
  lemma {:induction false} ListedFrame(rows: seq<CheckRun>, rows': seq<CheckRun>, n: nat)
    requires |rows'| == |rows| && forall i :: 0 <= i < |rows| ==> SameButStatus(rows'[i], rows[i])
    ensures var listed, listed' := ChecksOfRun(rows, n), ChecksOfRun(rows', n);
      |listed'| == |listed| && forall k :: 0 <= k < |listed| ==> SameButStatus(listed'[k], listed[k])
  {
    if rows != [] {
      ListedFrame(rows[..|rows| - 1], rows'[..|rows| - 1], n);
      assert SameButStatus(rows'[|rows| - 1], rows[|rows| - 1]);
    }
  }

  lemma ListedAppend(rows: seq<CheckRun>, row: CheckRun, n: nat)
    ensures ChecksOfRun(rows + [row], n) == ChecksOfRun(rows, n) + if row.runId == n then [row] else []
  {
    assert (rows + [row])[..|rows|] == rows;
  }

  lemma {:induction false} NoneListed(rows: seq<CheckRun>, n: nat)
    requires forall i :: 0 <= i < |rows| ==> rows[i].runId != n
    ensures ChecksOfRun(rows, n) == []
  {
    if rows != [] {
      NoneListed(rows[..|rows| - 1], n);
    }
  }

  /** A new run has no checks, and its trigger all of them to insert. */
  lemma CreateMakes(s: State, t: nat, versionId: Option<int>, releaseId: Option<int>, steps: seq<PipelineStep>)
    requires Inv(s) && t !in s.triggers
    ensures Made(TriggerStep(s, TriggerCreate(t, versionId, releaseId, steps)), |s.runs|, versionId, releaseId, steps)
  {
    forall i: nat | i < |s.checks|
      ensures s.checks[i].runId != |s.runs|
    {
      assert CheckOk(s, i);
    }
    NoneListed(s.checks, |s.runs|);
    var s' := TriggerStep(s, TriggerCreate(t, versionId, releaseId, steps));
    assert t in s'.triggers && s'.triggers[t].run == |s.runs|;
    assert steps[0..] == steps;
  }

  lemma TriggerKeepsMade(s: State, a: Action, n: nat, versionId: Option<int>, releaseId: Option<int>,
    steps: seq<PipelineStep>)
    requires a.TriggerCreate? || a.TriggerFinish?
    requires Made(s, n, versionId, releaseId, steps)
    ensures Made(TriggerStep(s, a), n, versionId, releaseId, steps)
  {
    hide RowsFor;
    var s' := TriggerStep(s, a);
    var rows := ChecksOfRun(s.checks, n);
    if a.TriggerFinish? && a.t in s.triggers && s.triggers[a.t].run == n && s.triggers[a.t].todo == [] {
      assert steps[|rows|..] == [];
    } else {
      forall t | t in s.triggers && s.triggers[t].run == n
        ensures t in s'.triggers && s'.triggers[t] == s.triggers[t]
      {
      }
    }
  }

  lemma TriggerNext(
    triggers: map<nat, Trigger>, t: nat, n: nat, versionId: Option<int>, releaseId: Option<int>,
    steps: seq<PipelineStep>, k: nat)
    requires TriggerAt(triggers, n, versionId, releaseId, steps, k) && t in triggers && triggers[t].run == n
      && k < |steps|
    ensures TriggerAt(
      triggers[t := Trigger(n, versionId, releaseId, k + 1, steps[k + 1..])], n, versionId, releaseId, steps, k + 1)
  {
    var triggers' := triggers[t := Trigger(n, versionId, releaseId, k + 1, steps[k + 1..])];
    assert t in triggers' && triggers'[t].run == n;
  }

  lemma OwnInsertKeepsMade(
    s: State, t: nat, n: nat, versionId: Option<int>, releaseId: Option<int>, steps: seq<PipelineStep>)
    requires Made(s, n, versionId, releaseId, steps)
    requires t in s.triggers && s.triggers[t].todo != [] && s.triggers[t].run == n
    ensures Made(TriggerStep(s, TriggerCheck(t)), n, versionId, releaseId, steps)
  {
    var tr, rows := s.triggers[t], ChecksOfRun(s.checks, n);
    var row := NewCheck(s, tr);
    BlocksUnlessTold(tr.todo[0]);
    assert tr == Trigger(n, versionId, releaseId, |rows|, steps[|rows|..]);
    assert tr.todo[0] == steps[|rows|] && tr.todo[1..] == steps[|rows| + 1..];
    assert IsFor(row, versionId, releaseId, steps[|rows|]) && row.runId == n;
    assert RowsFor(rows + [row], versionId, releaseId, steps);
    hide RowsFor, TriggerAt, ChecksOfRun, IsFor, NewCheck;
    ListedAppend(s.checks, row, n);
    TriggerNext(s.triggers, t, n, versionId, releaseId, steps, |rows|);
  }

  lemma OtherInsertKeepsMade(
    s: State, t: nat, n: nat, versionId: Option<int>, releaseId: Option<int>, steps: seq<PipelineStep>)
    requires Made(s, n, versionId, releaseId, steps)
    requires t in s.triggers && s.triggers[t].todo != [] && s.triggers[t].run != n
    ensures Made(TriggerStep(s, TriggerCheck(t)), n, versionId, releaseId, steps)
  {
    var s', rows := TriggerStep(s, TriggerCheck(t)), ChecksOfRun(s.checks, n);
    ListedAppend(s.checks, NewCheck(s, s.triggers[t]), n);
    assert rows + [] == rows;
    forall u | u in s.triggers
      ensures u in s'.triggers && s'.triggers[u].run == s.triggers[u].run
    {
    }
    hide ChecksOfRun, RowsFor, NewCheck;
  }

  lemma BlocksUnlessTold(step: PipelineStep)
    ensures step.blocking != Some(false) <==> step.blocking == None || step.blocking == Some(true)
  {
    if step.blocking.Some? {
      assert step.blocking.value == true || step.blocking.value == false;
    }
  }

  lemma StatusKeepsMade(s: State, s': State, n: nat, versionId: Option<int>, releaseId: Option<int>,
    steps: seq<PipelineStep>)
    requires Made(s, n, versionId, releaseId, steps)
    requires s'.triggers == s.triggers && |s'.runs| == |s.runs| && |s'.checks| == |s.checks|
    requires forall i: nat :: i < |s.checks| ==> SameButStatus(s'.checks[i], s.checks[i])
    ensures Made(s', n, versionId, releaseId, steps)
  {
    ListedFrame(s.checks, s'.checks, n);
    hide ChecksOfRun;
  }

  /** No other step touches triggers or inserts rows. */
  lemma OtherInsertsNothing(runners: set<string>, s: State, a: Action)
    requires !a.TriggerCreate? && !a.TriggerCheck? && !a.TriggerFinish?
    ensures var s' := Step(runners, s, a);
      s'.triggers == s.triggers && |s'.runs| == |s.runs| && |s'.checks| == |s.checks|
  {
    match a
    case MarkCall(w, ok, effective) => MarkInsertsNothing(s, w, ok, effective);
    case FinalizeCall(w, ok, effective) => FinalizeInsertsNothing(s, w, ok, effective);
    case _ => hide ChecksOfRun, AfterRunner, FindRunner;
  }

  lemma MarkInsertsNothing(s: State, w: nat, ok: bool, effective: bool)
    ensures var s' := MarkStep(s, w, ok, effective);
      s'.triggers == s.triggers && |s'.runs| == |s.runs| && |s'.checks| == |s.checks|
  {
    hide AfterMark;
  }

  lemma FinalizeInsertsNothing(s: State, w: nat, ok: bool, effective: bool)
    ensures var s' := FinalizeStep(s, w, ok, effective);
      s'.triggers == s.triggers && |s'.runs| == |s.runs| && |s'.checks| == |s.checks|
  {
    hide ChecksOfRun, CountStatus;
  }

  lemma StepKeepsMade(
    runners: set<string>, s: State, a: Action, n: nat, versionId: Option<int>, releaseId: Option<int>,
    steps: seq<PipelineStep>)
    requires Inv(s) && Made(s, n, versionId, releaseId, steps)
    ensures Made(Step(runners, s, a), n, versionId, releaseId, steps)
  {
    if a.TriggerCreate? || a.TriggerFinish? {
      TriggerKeepsMade(s, a, n, versionId, releaseId, steps);
      hide *;
    } else if a.TriggerCheck? {
      if a.t in s.triggers && s.triggers[a.t].todo != [] {
        if s.triggers[a.t].run == n {
          OwnInsertKeepsMade(s, a.t, n, versionId, releaseId, steps);
        } else {
          OtherInsertKeepsMade(s, a.t, n, versionId, releaseId, steps);
        }
      }
      hide Made, Inv;
    } else {
      OtherInsertsNothing(runners, s, a);
      hide Made, Inv, Step;
      var s' := Step(runners, s, a);
      forall i: nat | i < |s.checks|
        ensures SameButStatus(s'.checks[i], s.checks[i])
      {
        StepChangesStatus(runners, s, a, i);
      }
      StatusKeepsMade(s, s', n, versionId, releaseId, steps);
    }
  }

  lemma {:induction false} AfterKeepsMade(
    runners: set<string>, s: State, actions: seq<Action>, n: nat, versionId: Option<int>, releaseId: Option<int>,
    steps: seq<PipelineStep>)
    requires Inv(s) && Made(s, n, versionId, releaseId, steps)
    ensures Made(After(runners, s, actions), n, versionId, releaseId, steps)
    decreases |actions|
  {
    if actions != [] {
      hide Inv, Made;
      StepKeepsInv(runners, s, actions[0]);
      StepKeepsMade(runners, s, actions[0], n, versionId, releaseId, steps);
      AfterKeepsMade(runners, Step(runners, s, actions[0]), actions[1..], n, versionId, releaseId, steps);
    }
  }

  /**
   In every interleaving, the checks of the run that a trigger has created are those of its first steps, in order, for
   its version and its release; a step blocks unless it says that it does not. All of them are there once the trigger
   has ended.
   */
  lemma TriggerInsertsSteps(
    runners: set<string>, before: seq<Action>, t: nat, versionId: Option<int>, releaseId: Option<int>,
    steps: seq<PipelineStep>, after: seq<Action>)
    requires t !in After(runners, INITIAL, before).triggers
    ensures var was := After(runners, INITIAL, before);
      var s := After(runners, Step(runners, was, TriggerCreate(t, versionId, releaseId, steps)), after);
      var rows := ChecksOfRun(s.checks, |was.runs|);
      && |rows| <= |steps|
      && (forall k :: 0 <= k < |rows| ==>
            && rows[k].versionId == versionId && rows[k].releaseId == releaseId
            && rows[k].name == steps[k].name && rows[k].runnerType == steps[k].runnerType
            && rows[k].blocking == (steps[k].blocking == None || steps[k].blocking == Some(true)))
      && ((forall u :: u in s.triggers ==> s.triggers[u].run != |was.runs|) ==> |rows| == |steps|)
  {
    var was := After(runners, INITIAL, before);
    var a := TriggerCreate(t, versionId, releaseId, steps);
    InitialInv();
    AfterKeepsInv(runners, INITIAL, before);
    CreateMakes(was, t, versionId, releaseId, steps);
    StepKeepsInv(runners, was, a);
    hide Inv, After, TriggerStep;
    AfterKeepsMade(runners, Step(runners, was, a), after, |was.runs|, versionId, releaseId, steps);
  }

  /** So the gates of that version and of that release look at every one of them. */
  lemma GatesSeeTriggered(
    runners: set<string>, before: seq<Action>, t: nat, versionId: Option<int>, releaseId: Option<int>,
    steps: seq<PipelineStep>, after: seq<Action>, c: CheckRun)
    requires t !in After(runners, INITIAL, before).triggers
    requires var was := After(runners, INITIAL, before);
      c in ChecksOfRun(
        After(runners, Step(runners, was, TriggerCreate(t, versionId, releaseId, steps)), after).checks, |was.runs|)
    ensures var was := After(runners, INITIAL, before);
      var s := After(runners, Step(runners, was, TriggerCreate(t, versionId, releaseId, steps)), after);
      && (versionId.Some? ==> c in Gates.ChecksAbout(s.checks, Gates.OfVersion(versionId.value)))
      && (releaseId.Some? ==> c in Gates.ChecksAbout(s.checks, Gates.OfRelease(releaseId.value)))
  {
    TriggerInsertsSteps(runners, before, t, versionId, releaseId, steps, after);
    hide After, Step;
  }

  /** The record a trigger leaves: RUNNING, with as many checks as there are steps. */
  lemma TriggerEndsWithCount(
    runners: set<string>, before: seq<Action>, t: nat, versionId: Option<int>, releaseId: Option<int>,
    steps: seq<PipelineStep>, after: seq<Action>)
    requires t !in After(runners, INITIAL, before).triggers
    ensures var was := After(runners, INITIAL, before);
      var s := After(runners, Step(runners, was, TriggerCreate(t, versionId, releaseId, steps)), after);
      t in s.triggers && s.triggers[t].run == |was.runs| && s.triggers[t].todo == [] ==>
        var s' := Step(runners, s, TriggerFinish(t));
        |was.runs| < |s'.runs| && s'.runs[|was.runs|] == PipelineRun(RunRunning, |steps|, 0, 0, 0)
  {
    var was := After(runners, INITIAL, before);
    var a := TriggerCreate(t, versionId, releaseId, steps);
    InitialInv();
    AfterKeepsInv(runners, INITIAL, before);
    CreateMakes(was, t, versionId, releaseId, steps);
    StepKeepsInv(runners, was, a);
    hide Inv, After;
    AfterKeepsMade(runners, Step(runners, was, a), after, |was.runs|, versionId, releaseId, steps);
  }
}
