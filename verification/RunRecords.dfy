/**
 What the record of a pipeline run says about its checks while triggers and workers interleave, which runs can
 still be claimed, and which records can still be overwritten.
 */
module RunRecords {
  import opened Wrappers
  import opened AgentCI
  import opened Protocol
  import Gates

  // ----- Which runs can be claimed -----

  function PendingRuns(s: State): (runs: set<nat>)
    ensures forall r :: r in runs <==> PendingRun(s, r)
  {
    set r: nat | r < |s.runs| && PendingRun(s, r)
  }

  /**
   What a poll can be answered: the ten oldest PENDING runs, or all if they are fewer. The times of creation are
   those of the triggers' clocks, so they may be in any order.
   */
  ghost predicate IsOldest(s: State, createdAt: nat -> int, found: seq<nat>) {
    && |found| <= 10 && (forall r :: r in found ==> PendingRun(s, r))
    && (forall i, j :: 0 <= i < j < |found| ==> found[i] != found[j] && createdAt(found[i]) <= createdAt(found[j]))
    && (forall r :: r in PendingRuns(s) && r !in found ==>
          |found| == 10 && forall f :: f in found ==> createdAt(f) <= createdAt(r))
  }

  /** Every poll gets such an answer. */
  ghost predicate OldestFirst(runners: set<string>, createdAt: nat -> int, s: State, actions: seq<Action>)
    decreases |actions|
  {
    actions != [] ==>
      && (actions[0].Poll? ==> IsOldest(s, createdAt, actions[0].pending))
      && OldestFirst(runners, createdAt, Step(runners, s, actions[0]), actions[1..])
  }

  ghost predicate CanBeClaimed(runners: set<string>, createdAt: nat -> int, s: State, r: nat) {
    exists more :: OldestFirst(runners, createdAt, s, more) && r in After(runners, s, more).claims
  }

  /** In every reachable state, an unclaimed run is claimed in some continuation exactly when it is still PENDING. */
  lemma ClaimableIff(runners: set<string>, createdAt: nat -> int, actions: seq<Action>, r: nat)
    requires r < |After(runners, INITIAL, actions).runs| && r !in After(runners, INITIAL, actions).claims
    ensures CanBeClaimed(runners, createdAt, After(runners, INITIAL, actions), r)
       <==> After(runners, INITIAL, actions).runs[r].status == RunPending
  {
    var s := After(runners, INITIAL, actions);
    InitialInv();
    AfterKeepsInv(runners, INITIAL, actions);
    if s.runs[r].status == RunPending {
      var more := PendingIsClaimed(runners, createdAt, s, r);
    } else {
      forall more
        ensures r !in After(runners, s, more).claims
      {
        UnclaimedForever(runners, s, more, r);
      }
    }
  }

  lemma {:induction false} Earliest(runs: set<nat>, createdAt: nat -> int) returns (first: nat)
    requires runs != {}
    ensures first in runs && forall r :: r in runs ==> createdAt(first) <= createdAt(r)
  {
    var some :| some in runs;
    var rest := runs - {some};
    first := some;
    if rest != {} {
      var next := Earliest(rest, createdAt);
      if createdAt(next) < createdAt(some) {
        first := next;
      }
    }
    forall r | r in runs
      ensures createdAt(first) <= createdAt(r)
    {
      assert r == some || r in rest;
    }
  }

  /** There always is an answer, and it is empty only if no run is PENDING. */
  lemma OldestRuns(s: State, createdAt: nat -> int) returns (found: seq<nat>)
    ensures IsOldest(s, createdAt, found) && (PendingRuns(s) != {} ==> found != [])
  {
    found := [];
    var rest := PendingRuns(s);
    while rest != {} && |found| < 10
      invariant |found| <= 10 && rest <= PendingRuns(s)
      invariant forall r :: r in found ==> r in PendingRuns(s) && r !in rest
      invariant forall r :: r in PendingRuns(s) ==> r in found || r in rest
      invariant forall i, j :: 0 <= i < j < |found| ==>
        found[i] != found[j] && createdAt(found[i]) <= createdAt(found[j])
      invariant forall f, r :: f in found && r in rest ==> createdAt(f) <= createdAt(r)
      invariant rest == {} ==> PendingRuns(s) == {} || found != []
      decreases rest
    {
      var first := Earliest(rest, createdAt);
      found, rest := found + [first], rest - {first};
    }
  }

  /** A new worker claims the oldest PENDING run, and so on, until it is the turn of `r`. */
  lemma {:induction false} PendingIsClaimed(runners: set<string>, createdAt: nat -> int, s: State, r: nat)
    returns (more: seq<Action>)
    requires PendingRun(s, r)
    ensures OldestFirst(runners, createdAt, s, more) && r in After(runners, s, more).claims
    decreases |PendingRuns(s)|
  {
    var found := OldestRuns(s, createdAt);
    assert r in PendingRuns(s);
    var w := Unused(s.workers.Keys);
    var s1 := Step(runners, s, Poll(w, found));
    var s2 := Step(runners, s1, Claim(w, true, true));
    assert forall f :: f in found ==> PendingRun(s, f);
    ClaimsFirst(runners, s, w, found);
    var rest := [];
    assert After(runners, s2, []) == s2 && OldestFirst(runners, createdAt, s2, []);
    assert r in PendingRuns(s2) ==> PendingRun(s2, r);
    hide *;
    if found[0] != r {
      SubsetSize(PendingRuns(s2), PendingRuns(s) - {found[0]});
      rest := PendingIsClaimed(runners, createdAt, s2, r);
    }
    more := [Poll(w, found), Claim(w, true, true)] + rest;
    PollAndClaim(runners, createdAt, s, w, found, rest);
  }

  lemma PollAndClaim(runners: set<string>, createdAt: nat -> int, s: State, w: nat, found: seq<nat>, rest: seq<Action>)
    requires IsOldest(s, createdAt, found)
    requires OldestFirst(runners, createdAt, Step(runners, Step(runners, s, Poll(w, found)), Claim(w, true, true)),
      rest)
    ensures var more := [Poll(w, found), Claim(w, true, true)] + rest;
      && OldestFirst(runners, createdAt, s, more)
      && After(runners, s, more)
           == After(runners, Step(runners, Step(runners, s, Poll(w, found)), Claim(w, true, true)), rest)
  {
    hide IsOldest, Step;
    var more := [Poll(w, found), Claim(w, true, true)] + rest;
    assert more[1..] == [Claim(w, true, true)] + rest && more[1..][1..] == rest;
  }

  lemma ClaimsFirst(runners: set<string>, s: State, w: nat, found: seq<nat>)
    requires w !in s.workers && 0 < |found| <= 10 && forall r :: r in found ==> PendingRun(s, r)
    ensures var s2 := Step(runners, Step(runners, s, Poll(w, found)), Claim(w, true, true));
      && found[0] in s2.claims && found[0] in PendingRuns(s) && PendingRuns(s2) == PendingRuns(s) - {found[0]}
  {
    assert found[0] in found;
    assert Step(runners, s, Poll(w, found)) == WithWorker(s, w, Polled(found));
  }

  /** A trigger that ends before any worker has polled: its run is not PENDING and not claimed. */
  lemma TriggerEndsUnclaimed(runners: set<string>, step: PipelineStep) returns (actions: seq<Action>)
    ensures var s := After(runners, INITIAL, actions);
      && s.runs == [PipelineRun(RunRunning, 1, 0, 0, 0)] && s.triggers == map[] && 0 !in s.claims
      && |s.checks| == 1 && s.checks[0].status == Pending
  {
    actions := [TriggerCreate(0, None, None, [step]), TriggerCheck(0), TriggerFinish(0)];
    var s1 := Step(runners, INITIAL, actions[0]);
    var s2 := Step(runners, s1, actions[1]);
    assert s2.triggers[0].todo == [];
    var s3 := Step(runners, s2, actions[2]);
    assert s3.triggers == map[];
    assert actions[1..][1..] == [actions[2]] && [actions[2]][1..] == [];
    assert After(runners, s2, [actions[2]]) == s3;
    assert After(runners, s1, actions[1..]) == s3;
  }

  // ----- The counts of a finalized run -----

  ghost predicate CountsMatch(rows: seq<CheckRun>, r: nat, passed: nat, failed: nat, skipped: nat) {
    && CountStatus(ChecksOfRun(rows, r), {Passed}) == passed
    && CountStatus(ChecksOfRun(rows, r), {Failed, Error}) == failed
    && CountStatus(ChecksOfRun(rows, r), {Skipped}) == skipped
  }

  predicate FinalizedRow(run: PipelineRun) {
    run.status == RunCompleted || run.status == RunFailed
  }

  ghost predicate RowOk(s: State, r: nat)
    requires r < |s.runs|
  {
    var run := s.runs[r];
    FinalizedRow(run) ==>
      CountsMatch(s.checks, r, run.passed, run.failed, run.skipped) && (run.status == RunFailed <==> run.failed > 0)
  }

  /** A worker executes a run that is RUNNING; from the count on, the counts stay right. */
  ghost predicate CountingOk(s: State, k: Worker) {
    k.Executing? ==>
      && k.run < |s.runs| && s.runs[k.run].status == RunRunning
      && match k.phase
         case FinalizingRun(passed, failed, skipped) => CountsMatch(s.checks, k.run, passed, failed, skipped)
         case FinalWrite(row) =>
           && FinalizedRow(row) && (row.status == RunFailed <==> row.failed > 0)
           && CountsMatch(s.checks, k.run, row.passed, row.failed, row.skipped)
         case _ => true
  }

  ghost predicate Recorded(s: State) {
    && (forall r: nat :: r < |s.runs| ==> RowOk(s, r))
    && (forall w :: w in s.workers ==> CountingOk(s, s.workers[w]))
  }

  /** Row `n` keeps its run and, in run `r`, its status; a new row is PENDING. */
  ghost predicate SameStatus(rows: seq<CheckRun>, rows': seq<CheckRun>, r: nat, n: nat)
    requires n < |rows'|
  {
    if n < |rows| then
      rows'[n].runId == rows[n].runId && (rows[n].runId == r ==> rows'[n].status == rows[n].status)
    else
      rows'[n].runId == r ==> rows'[n].status == Pending
  }

  /** The checks of run `r` keep their statuses; new ones are PENDING. */
  ghost predicate SameStatuses(rows: seq<CheckRun>, rows': seq<CheckRun>, r: nat) {
    |rows| <= |rows'| && forall i: nat :: i < |rows'| ==> SameStatus(rows, rows', r, i)
  }

  lemma {:induction false} CountFrame(rows: seq<CheckRun>, rows': seq<CheckRun>, r: nat, wanted: set<CheckStatus>)
    requires SameStatuses(rows, rows', r) && Pending !in wanted
    ensures CountStatus(ChecksOfRun(rows', r), wanted) == CountStatus(ChecksOfRun(rows, r), wanted)
    decreases |rows'|
  {
    hide CountStatus, ChecksOfRun;
    if rows' == [] {
      assert rows == rows';
    } else {
      var n := |rows'| - 1;
      SameStatusesBefore(rows, rows', r, n);
      assert SameStatus(rows, rows', r, n);
      hide SameStatuses;
      CountListed(rows', r, wanted);
      if |rows| == |rows'| {
        CountFrame(rows[..n], rows'[..n], r, wanted);
        CountListed(rows, r, wanted);
      } else {
        assert rows[..|rows|] == rows;
        CountFrame(rows, rows'[..n], r, wanted);
      }
    }
  }

  lemma SameStatusesBefore(rows: seq<CheckRun>, rows': seq<CheckRun>, r: nat, n: nat)
    requires SameStatuses(rows, rows', r) && n <= |rows'|
    ensures SameStatuses(rows[..if n < |rows| then n else |rows|], rows'[..n], r)
    ensures |rows| <= |rows'|
  {
    var before, before' := rows[..if n < |rows| then n else |rows|], rows'[..n];
    forall i: nat | i < n
      ensures SameStatus(before, before', r, i)
    {
      assert SameStatus(rows, rows', r, i);
    }
  }

  /** The last row adds to the count when it is listed and wanted. */
  lemma CountListed(rows: seq<CheckRun>, r: nat, wanted: set<CheckStatus>)
    requires rows != []
    ensures CountStatus(ChecksOfRun(rows, r), wanted)
         == CountStatus(ChecksOfRun(rows[..|rows| - 1], r), wanted)
            + if rows[|rows| - 1].runId == r && rows[|rows| - 1].status in wanted then 1 else 0
  {
    var init, last := ChecksOfRun(rows[..|rows| - 1], r), rows[|rows| - 1];
    if last.runId == r {
      assert (init + [last])[..|init|] == init;
    }
  }

  lemma CountsFrame(rows: seq<CheckRun>, rows': seq<CheckRun>, r: nat)
    requires SameStatuses(rows, rows', r)
    ensures forall p, f, k :: CountsMatch(rows', r, p, f, k) == CountsMatch(rows, r, p, f, k)
  {
    CountFrame(rows, rows', r, {Passed});
    CountFrame(rows, rows', r, {Failed, Error});
    CountFrame(rows, rows', r, {Skipped});
  }

  /** A Mark call changes statuses only in the run its worker executes. */
  lemma MarkKeepsStatuses(s: State, w: nat, ok: bool, effective: bool, r: nat)
    requires Inv(s)
    requires var k := WorkerOf(s, w); k.Executing? && k.phase.Marking? ==> k.run != r
    ensures SameStatuses(s.checks, MarkStep(s, w, ok, effective).checks, r)
  {
    var k := WorkerOf(s, w);
    if k.Executing? && k.phase.Marking? {
      assert WorkerOk(s, k);
      hide TablesOk, Fresh, Exclusive;
    }
  }

  lemma StepKeepsStatuses(runners: set<string>, s: State, a: Action, r: nat)
    requires Inv(s)
    requires a.MarkCall? ==> var k := WorkerOf(s, a.w); k.Executing? && k.phase.Marking? ==> k.run != r
    ensures SameStatuses(s.checks, Step(runners, s, a).checks, r)
  {
    hide Inv;
    if a.MarkCall? {
      MarkKeepsStatuses(s, a.w, a.ok, a.effective, r);
    } else if a.TriggerCheck? {
    } else {
      assert Step(runners, s, a).checks == s.checks;
    }
  }

  // ----- Every step keeps the records right -----

  lemma RowFrame(s: State, s': State, r: nat)
    requires r < |s.runs| && r < |s'.runs| && s'.runs[r] == s.runs[r] && RowOk(s, r)
    requires FinalizedRow(s.runs[r]) ==> SameStatuses(s.checks, s'.checks, r)
    ensures RowOk(s', r)
  {
    if FinalizedRow(s.runs[r]) {
      CountsFrame(s.checks, s'.checks, r);
    }
  }

  lemma CountingFrame(s: State, s': State, k: Worker)
    requires CountingOk(s, k)
    requires k.Executing? ==>
      k.run < |s'.runs| && s'.runs[k.run].status == RunRunning && SameStatuses(s.checks, s'.checks, k.run)
    ensures CountingOk(s', k)
  {
    if k.Executing? {
      CountsFrame(s.checks, s'.checks, k.run);
    }
  }

  /** Steps of triggers. */
  lemma TriggerKeepsRecorded(runners: set<string>, s: State, a: Action)
    requires Inv(s) && Recorded(s) && (a.TriggerCreate? || a.TriggerCheck? || a.TriggerFinish?)
    ensures Recorded(Step(runners, s, a))
  {
    var s' := Step(runners, s, a);
    forall r: nat
      ensures SameStatuses(s.checks, s'.checks, r)
    {
      StepKeepsStatuses(runners, s, a, r);
    }
    forall r: nat | r < |s'.runs|
      ensures RowOk(s', r)
    {
      if r < |s.runs| && s'.runs[r] == s.runs[r] {
        RowFrame(s, s', r);
      }
    }
    forall w | w in s'.workers
      ensures CountingOk(s', s'.workers[w])
    {
      CountingFrame(s, s', s.workers[w]);
    }
  }

  /** Steps of worker `w` that change no run: its own counts are given, the rest is framed. */
  lemma WorkerKeepsRecorded(s: State, s': State, w: nat, k': Worker)
    requires Inv(s) && Recorded(s) && s'.runs == s.runs && s'.workers == s.workers[w := k']
    requires CountingOk(s', k')
    requires forall r: nat :: !(WorkerOf(s, w).Executing? && WorkerOf(s, w).run == r) ==>
      SameStatuses(s.checks, s'.checks, r)
    ensures Recorded(s')
  {
    var k := WorkerOf(s, w);
    assert k.Executing? ==> CountingOk(s, k);
    forall r: nat | r < |s'.runs|
      ensures RowOk(s', r)
    {
      RowFrame(s, s', r);
    }
    forall v | v in s'.workers
      ensures CountingOk(s', s'.workers[v])
    {
      if v != w {
        CountingFrame(s, s', s.workers[v]);
      }
    }
  }

  /** A worker that is not counting: it executes the run it executed before, or none. */
  predicate Moved(k: Worker, k': Worker) {
    k'.Executing? ==>
      k.Executing? && k'.run == k.run && !k'.phase.FinalizingRun? && !k'.phase.FinalWrite?
  }

  /** Where a Mark call leads: never to counting. */
  lemma MarkMoves(s: State, w: nat, ok: bool, effective: bool)
    requires MarkStep(s, w, ok, effective) != s
    ensures var s' := MarkStep(s, w, ok, effective);
      && s'.runs == s.runs && w in s'.workers && s'.workers == s.workers[w := s'.workers[w]]
      && Moved(WorkerOf(s, w), s'.workers[w])
  {
    var k := WorkerOf(s, w);
    if k.Executing? && k.phase.Marking? {
      AfterMarkMoved(k, ok);
      AfterMarkMoved(k, false);
      AfterMarkMoved(k, true);
    }
    hide AfterMark;
  }

  lemma AfterMarkMoved(k: Worker, ok: bool)
    requires k.Executing? && k.phase.Marking?
    ensures Moved(k, AfterMark(k, ok))
  {
  }

  /** The other moves of an executor, between the checks. */
  lemma WalkMoves(runners: set<string>, s: State, a: Action)
    requires (a.ListChecks? || a.NextCheck? || a.RunCheck?) && Step(runners, s, a) != s
    ensures var s' := Step(runners, s, a);
      && s'.runs == s.runs && a.w in s'.workers && s'.workers == s.workers[a.w := s'.workers[a.w]]
      && Moved(WorkerOf(s, a.w), s'.workers[a.w])
  {
    hide ChecksOfRun, FindRunner;
  }

  lemma MovedCounts(s: State, s': State, k: Worker, k': Worker)
    requires CountingOk(s, k) && Moved(k, k') && s'.runs == s.runs
    ensures CountingOk(s', k')
  {
    hide CountsMatch;
  }

  /** Every worker step but the claim and the final write: the worker does not begin to count. */
  lemma OtherMoves(runners: set<string>, s: State, a: Action)
    requires Recorded(s) && (a.Poll? || a.ListChecks? || a.NextCheck? || a.MarkCall? || a.RunCheck?)
    requires Step(runners, s, a) != s
    ensures var s' := Step(runners, s, a);
      && s'.runs == s.runs && a.w in s'.workers && s'.workers == s.workers[a.w := s'.workers[a.w]]
      && CountingOk(s', s'.workers[a.w])
  {
    assert CountingOk(s, WorkerOf(s, a.w));
    hide Recorded, CountingOk;
    var s' := Step(runners, s, a);
    if a.Poll? {
      MovedCounts(s, s', Idle, s'.workers[a.w]);
    } else {
      if a.MarkCall? {
        MarkMoves(s, a.w, a.ok, a.effective);
      } else {
        WalkMoves(runners, s, a);
      }
      hide Step, Moved, WorkerOf, MarkStep;
      MovedCounts(s, s', WorkerOf(s, a.w), s'.workers[a.w]);
    }
  }

  lemma OtherKeepsRecorded(runners: set<string>, s: State, a: Action)
    requires Inv(s) && Recorded(s) && (a.Poll? || a.ListChecks? || a.NextCheck? || a.MarkCall? || a.RunCheck?)
    ensures Recorded(Step(runners, s, a))
  {
    hide Inv, Recorded, SameStatuses, CountingOk;
    var s' := Step(runners, s, a);
    if s' != s {
      OtherMoves(runners, s, a);
      forall r: nat | !(WorkerOf(s, a.w).Executing? && WorkerOf(s, a.w).run == r)
        ensures SameStatuses(s.checks, s'.checks, r)
      {
        StepKeepsStatuses(runners, s, a, r);
      }
      hide Step;
      WorkerKeepsRecorded(s, s', a.w, s'.workers[a.w]);
    }
  }

  lemma ClaimKeepsRecorded(s: State, w: nat, reached: bool, readBack: bool)
    requires Recorded(s)
    ensures Recorded(ClaimStep(s, w, reached, readBack))
  {
    hide CountsMatch;
    var s' := ClaimStep(s, w, reached, readBack);
    forall r: nat | r < |s'.runs|
      ensures RowOk(s', r)
    {
      assert RowOk(s, r);
    }
    forall v | v in s'.workers
      ensures CountingOk(s', s'.workers[v])
    {
      if v in s.workers {
        assert CountingOk(s, s.workers[v]);
      }
    }
  }

  /** The count of the checks, and the read of the record. */
  lemma CountKeepsRecorded(s: State, w: nat, ok: bool, effective: bool)
    requires Inv(s) && Recorded(s) && var k := WorkerOf(s, w); k.Executing? && !k.phase.FinalWrite?
    ensures Recorded(FinalizeStep(s, w, ok, effective))
  {
    var s', k := FinalizeStep(s, w, ok, effective), WorkerOf(s, w);
    assert CountingOk(s, k);
    if s' != s {
      CountedNow(s, k.run);
      hide CountsMatch, Inv, Recorded;
      assert s'.checks == s.checks && s'.runs == s.runs && s'.workers == s.workers[w := s'.workers[w]];
      assert CountingOk(s', s'.workers[w]);
      SameRows(s.checks);
      hide FinalizeStep, CountingOk, SameStatuses;
      WorkerKeepsRecorded(s, s', w, s'.workers[w]);
    }
  }

  lemma SameRows(rows: seq<CheckRun>)
    ensures forall r: nat :: SameStatuses(rows, rows, r)
  {
  }

  /** The final write: nobody else executes the run. */
  lemma WriteKeepsRecorded(s: State, w: nat, ok: bool, effective: bool)
    requires Inv(s) && Recorded(s) && var k := WorkerOf(s, w); k.Executing? && k.phase.FinalWrite?
    ensures Recorded(FinalizeStep(s, w, ok, effective))
  {
    var s', k := FinalizeStep(s, w, ok, effective), WorkerOf(s, w);
    assert CountingOk(s, k);
    hide CountsMatch, TablesOk, WorkerOk;
    forall r: nat | r < |s'.runs|
      ensures RowOk(s', r)
    {
      assert RowOk(s, r);
    }
    forall v | v in s'.workers
      ensures CountingOk(s', s'.workers[v])
    {
      if v != w {
        assert CountingOk(s, s.workers[v]);
      }
    }
  }

  lemma FinalizeKeepsRecorded(s: State, w: nat, ok: bool, effective: bool)
    requires Inv(s) && Recorded(s)
    ensures Recorded(FinalizeStep(s, w, ok, effective))
  {
    var k := WorkerOf(s, w);
    if k.Executing? {
      hide Inv, Recorded, FinalizeStep;
      if k.phase.FinalWrite? {
        WriteKeepsRecorded(s, w, ok, effective);
      } else {
        CountKeepsRecorded(s, w, ok, effective);
      }
    }
  }

  lemma CountedNow(s: State, r: nat)
    ensures var rows := ChecksOfRun(s.checks, r);
      CountsMatch(s.checks, r, CountStatus(rows, {Passed}), CountStatus(rows, {Failed, Error}),
        CountStatus(rows, {Skipped}))
  {
  }

  lemma StepKeepsRecorded(runners: set<string>, s: State, a: Action)
    requires Inv(s) && Recorded(s)
    ensures Recorded(Step(runners, s, a))
  {
    hide Inv, Recorded;
    match a
    case Claim(w, reached, readBack) => ClaimKeepsRecorded(s, w, reached, readBack);
    case FinalizeCall(w, ok, effective) => FinalizeKeepsRecorded(s, w, ok, effective);
    case TriggerCreate(_, _, _, _) => TriggerKeepsRecorded(runners, s, a);
    case TriggerCheck(_) => TriggerKeepsRecorded(runners, s, a);
    case TriggerFinish(_) => TriggerKeepsRecorded(runners, s, a);
    case _ => OtherKeepsRecorded(runners, s, a);
  }

  lemma {:induction false} AfterKeepsRecorded(runners: set<string>, s: State, actions: seq<Action>)
    requires Inv(s) && Recorded(s)
    ensures Inv(After(runners, s, actions)) && Recorded(After(runners, s, actions))
    decreases |actions|
  {
    if actions != [] {
      hide Inv, Recorded;
      StepKeepsInv(runners, s, actions[0]);
      StepKeepsRecorded(runners, s, actions[0]);
      AfterKeepsRecorded(runners, Step(runners, s, actions[0]), actions[1..]);
    }
  }

  // ----- What a finalized record says, in every interleaving -----

  /** A check that has not ended. */
  predicate Open(c: CheckRun) {
    c.status == Pending || c.status == Running
  }

  lemma StatusesInRange(s: State, r: nat, c: CheckRun)
    requires Inv(s) && c in ChecksOfRun(s.checks, r)
    ensures Open(c) || Terminal(c.status)
  {
    var i :| 0 <= i < |s.checks| && s.checks[i] == c;
    assert CheckOk(s, i);
  }

  lemma {:induction false} CountBelow(rows: seq<CheckRun>, wanted: set<CheckStatus>)
    ensures CountStatus(rows, wanted) <= |rows|
    ensures CountStatus(rows, wanted) == |rows| <==> forall c :: c in rows ==> c.status in wanted
  {
    if rows != [] {
      var init, last := rows[..|rows| - 1], rows[|rows| - 1];
      CountBelow(init, wanted);
      assert rows == init + [last];
    }
  }

  /**
   In every reachable state, a record that says COMPLETED belongs to a run without a FAILED check and one that says
   FAILED to a run with one; its three counts add up to the number of checks exactly when none of them is still
   PENDING or RUNNING.
   */
  lemma RecordTellsChecks(runners: set<string>, actions: seq<Action>, r: nat)
    requires r < |After(runners, INITIAL, actions).runs| && FinalizedRow(After(runners, INITIAL, actions).runs[r])
    ensures var s := After(runners, INITIAL, actions);
      var run, checks := s.runs[r], ChecksOfRun(s.checks, r);
      && (run.status == RunFailed <==> exists c :: c in checks && c.status == Failed)
      && (run.passed + run.failed + run.skipped == |checks| <==> forall c :: c in checks ==> !Open(c))
      && run.passed + run.failed + run.skipped <= |checks|
  {
    var s := After(runners, INITIAL, actions);
    InitialInv();
    AfterKeepsRecorded(runners, INITIAL, actions);
    assert RowOk(s, r);
    var run, checks := s.runs[r], ChecksOfRun(s.checks, r);
    forall c | c in checks
      ensures Open(c) || Terminal(c.status)
    {
      StatusesInRange(s, r, c);
    }
    hide Inv, Recorded, After, ChecksOfRun;
    CountsOfChecks(checks, run.passed, run.failed, run.skipped);
  }

  lemma CountsOfChecks(checks: seq<CheckRun>, passed: nat, failed: nat, skipped: nat)
    requires forall c :: c in checks ==> Open(c) || Terminal(c.status)
    requires CountStatus(checks, {Passed}) == passed && CountStatus(checks, {Failed, Error}) == failed
    requires CountStatus(checks, {Skipped}) == skipped
    ensures failed > 0 <==> exists c :: c in checks && c.status == Failed
    ensures passed + failed + skipped == |checks| <==> forall c :: c in checks ==> !Open(c)
    ensures passed + failed + skipped <= |checks|
  {
    CountPositive(checks, {Failed, Error});
    CountSplits(checks, {Passed}, {Failed, Error});
    CountSplits(checks, {Passed} + {Failed, Error}, {Skipped});
    CountBelow(checks, {Passed} + {Failed, Error} + {Skipped});
    hide CountStatus;
  }

  /**
   The gates for a run that says COMPLETED: no-critical holds, all-passed holds exactly when no blocking check is still
   PENDING or RUNNING, and required-passed exactly when some blocking check has passed.
   */
  lemma CompletedRecordAndGates(runners: set<string>, actions: seq<Action>, r: nat)
    requires r < |After(runners, INITIAL, actions).runs|
      && After(runners, INITIAL, actions).runs[r].status == RunCompleted
    ensures var checks := ChecksOfRun(After(runners, INITIAL, actions).checks, r);
      && Gates.Verdict(Gates.NoCritical, checks)
      && (Gates.Verdict(Gates.AllPassed, checks) <==> forall c :: c in checks && c.blocking ==> !Open(c))
      && (Gates.Verdict(Gates.RequiredPassed, checks) <==> exists c :: c in checks && Gates.BlockingPass(c))
  {
    var s := After(runners, INITIAL, actions);
    InitialInv();
    AfterKeepsInv(runners, INITIAL, actions);
    RecordTellsChecks(runners, actions, r);
    forall c | c in ChecksOfRun(s.checks, r)
      ensures Open(c) || Terminal(c.status)
    {
      StatusesInRange(s, r, c);
    }
  }

  // ----- When a finalized record is final -----

  ghost predicate InFlight(s: State, r: nat) {
    exists t :: t in s.triggers && s.triggers[t].run == r
  }

  ghost predicate CanBeOverwritten(runners: set<string>, s: State, r: nat)
    requires r < |s.runs|
  {
    exists more :: r < |After(runners, s, more).runs| && After(runners, s, more).runs[r] != s.runs[r]
  }

  lemma FinalizeKeepsFinal(s: State, w: nat, ok: bool, effective: bool, r: nat)
    requires Recorded(s) && r < |s.runs| && FinalizedRow(s.runs[r])
    ensures var s' := FinalizeStep(s, w, ok, effective);
      r < |s'.runs| && s'.runs[r] == s.runs[r] && s'.triggers == s.triggers
  {
    assert CountingOk(s, WorkerOf(s, w));
    hide Recorded, CountsMatch;
  }

  lemma TriggerKeepsFinal(s: State, a: Action, r: nat)
    requires a.TriggerCreate? || a.TriggerCheck? || a.TriggerFinish?
    requires r < |s.runs| && !InFlight(s, r)
    ensures var s' := TriggerStep(s, a); r < |s'.runs| && s'.runs[r] == s.runs[r] && !InFlight(s', r)
  {
  }

  lemma OtherKeepsFinal(runners: set<string>, s: State, a: Action)
    requires a.Poll? || a.ListChecks? || a.NextCheck? || a.MarkCall? || a.RunCheck?
    ensures var s' := Step(runners, s, a); s'.runs == s.runs && s'.triggers == s.triggers
  {
  }

  lemma StepKeepsFinal(runners: set<string>, s: State, a: Action, r: nat)
    requires Recorded(s) && r < |s.runs| && FinalizedRow(s.runs[r]) && !InFlight(s, r)
    ensures var s' := Step(runners, s, a);
      r < |s'.runs| && s'.runs[r] == s.runs[r] && !InFlight(s', r)
  {
    match a
    case FinalizeCall(w, ok, effective) =>
      FinalizeKeepsFinal(s, w, ok, effective, r);
      hide Recorded, FinalizeStep;
    case Claim(_, _, _) => hide Recorded;
    case TriggerCreate(_, _, _, _) =>
      TriggerKeepsFinal(s, a, r);
      hide *;
    case TriggerCheck(_) =>
      TriggerKeepsFinal(s, a, r);
      hide *;
    case TriggerFinish(_) =>
      TriggerKeepsFinal(s, a, r);
      hide *;
    case _ =>
      OtherKeepsFinal(runners, s, a);
      hide Recorded, Step;
  }

  lemma {:induction false} FinalForever(runners: set<string>, s: State, more: seq<Action>, r: nat)
    requires Inv(s) && Recorded(s) && r < |s.runs| && FinalizedRow(s.runs[r]) && !InFlight(s, r)
    ensures r < |After(runners, s, more).runs| && After(runners, s, more).runs[r] == s.runs[r]
    decreases |more|
  {
    if more != [] {
      hide Inv, Recorded;
      StepKeepsInv(runners, s, more[0]);
      StepKeepsRecorded(runners, s, more[0]);
      StepKeepsFinal(runners, s, more[0], r);
      hide Step, InFlight;
      FinalForever(runners, Step(runners, s, more[0]), more[1..], r);
    }
  }

  /** A trigger can always end, and then its run says RUNNING again. */
  lemma {:induction false} TriggerEnds(runners: set<string>, s: State, t: nat) returns (more: seq<Action>)
    requires t in s.triggers && s.triggers[t].run < |s.runs|
    ensures var s' := After(runners, s, more);
      s.triggers[t].run < |s'.runs| && s'.runs[s.triggers[t].run].status == RunRunning
    decreases |s.triggers[t].todo|
  {
    var a := if s.triggers[t].todo == [] then TriggerFinish(t) else TriggerCheck(t);
    var s' := Step(runners, s, a);
    if s.triggers[t].todo == [] {
      more := [];
    } else {
      more := TriggerEnds(runners, s', t);
    }
    assert ([a] + more)[1..] == more;
    more := [a] + more;
  }

  /**
   In every reachable state, a COMPLETED or FAILED record can still be overwritten exactly while its trigger is in
   flight.
   */
  lemma OverwrittenIff(runners: set<string>, actions: seq<Action>, r: nat)
    requires r < |After(runners, INITIAL, actions).runs| && FinalizedRow(After(runners, INITIAL, actions).runs[r])
    ensures CanBeOverwritten(runners, After(runners, INITIAL, actions), r)
      <==> InFlight(After(runners, INITIAL, actions), r)
  {
    var s := After(runners, INITIAL, actions);
    InitialInv();
    AfterKeepsRecorded(runners, INITIAL, actions);
    if t :| t in s.triggers && s.triggers[t].run == r {
      var more := TriggerEnds(runners, s, t);
      assert After(runners, s, more).runs[r] != s.runs[r];
    } else {
      forall more
        ensures r < |After(runners, s, more).runs| && After(runners, s, more).runs[r] == s.runs[r]
      {
        FinalForever(runners, s, more, r);
      }
    }
  }
}
