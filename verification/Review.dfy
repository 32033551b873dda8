/**
 Review tasks under optimistic locking. Reviewers and submitters interleave between the read of a task and
 the write that depends on it.
 */
module Review {
  import opened Wrappers

  datatype Status = Pending | Approved | Rejected

  datatype Task = Task(skillVersionId: nat, status: Status, version: nat, reviewedBy: Option<string>)

  /** A process that has read a pending task and is about to decide or to delete it. */
  datatype Process =
    | Deciding(id: nat, status: Status, reviewer: string, expected: nat)
    | Withdrawing(id: nat)

  datatype Decision = Decision(id: nat, status: Status, reviewer: string)

  /** The table, the processes, and the history of the decisions that were reported as successful. */
  datatype State = State(
    tasks: map<nat, Task>, nextId: nat, processes: map<nat, Process>, decisions: seq<Decision>)

  const INITIAL := State(map[], 0, map[], [])

  datatype Action =
    | Submit(skillVersionId: nat)
    | StartDecision(p: nat, id: nat, approve: bool, reviewer: string)
    | Decide(p: nat)
    | StartWithdraw(p: nat, skillVersionId: nat)
    | Withdraw(p: nat)

  // ----- The table -----

  predicate PendingFor(tasks: map<nat, Task>, id: nat, skillVersionId: nat) {
    id in tasks && tasks[id].skillVersionId == skillVersionId && tasks[id].status == Pending
  }

  predicate HasPending(tasks: map<nat, Task>, skillVersionId: nat) {
    exists id :: id in tasks && PendingFor(tasks, id, skillVersionId)
  }

  /** The conditional update: only a row that still has the version read is written. */
  function Updated(tasks: map<nat, Task>, id: nat, status: Status, reviewer: string, expected: nat): map<nat, Task> {
    if id in tasks && tasks[id].version == expected then
      tasks[id := tasks[id].(status := status, reviewedBy := Some(reviewer), version := expected + 1)]
    else tasks
  }

  class ReviewTaskRepo {
    var tasks: map<nat, Task>
    var nextId: nat

    /** The insert, guarded by the unique index on the pending tasks of a skill version. */
    method Save(skillVersionId: nat) returns (r: Option<nat>)
      requires nextId !in tasks
      modifies this
      ensures r.None? <==> HasPending(old(tasks), skillVersionId)
      ensures r.None? ==> tasks == old(tasks) && nextId == old(nextId)
      ensures r.Some? ==> r.value == old(nextId) && nextId == old(nextId) + 1
      ensures r.Some? ==> tasks == old(tasks)[old(nextId) := Task(skillVersionId, Pending, 1, None)]
    {
      if id :| id in tasks && PendingFor(tasks, id, skillVersionId) {
        return None;
      }
      r := Some(nextId);
      tasks := tasks[nextId := Task(skillVersionId, Pending, 1, None)];
      nextId := nextId + 1;
    }

    /** The number of rows affected tells whether the update took place. */
    method UpdateStatusWithVersion(id: nat, status: Status, reviewer: string, expected: nat) returns (rows: nat)
      modifies this`tasks
      ensures tasks == Updated(old(tasks), id, status, reviewer, expected)
      ensures rows == if tasks != old(tasks) then 1 else 0
    {
      rows := 0;
      if id in tasks && tasks[id].version == expected {
        tasks := tasks[id := tasks[id].(status := status, reviewedBy := Some(reviewer), version := expected + 1)];
        assert tasks[id].version != old(tasks)[id].version;
        rows := 1;
      }
    }

    method Delete(id: nat)
      modifies this`tasks
      ensures tasks == old(tasks) - {id}
    {
      tasks := tasks - {id};
    }
  }

  // ----- Steps -----

  function SubmitStep(s: State, skillVersionId: nat): State {
    if HasPending(s.tasks, skillVersionId) then s
    else s.(tasks := s.tasks[s.nextId := Task(skillVersionId, Pending, 1, None)], nextId := s.nextId + 1)
  }

  function DecideStep(s: State, p: nat): State {
    if p !in s.processes || !s.processes[p].Deciding? then s
    else
      var Deciding(id, status, reviewer, expected) := s.processes[p];
      var tasks := Updated(s.tasks, id, status, reviewer, expected);
      s.(tasks := tasks, processes := s.processes - {p},
         decisions := if tasks != s.tasks then s.decisions + [Decision(id, status, reviewer)] else s.decisions)
  }

  /** A step of the whole system; a withdrawer finds some pending task of the skill version. */
  ghost predicate Next(s: State, a: Action, s': State) {
    match a
    case Submit(v) => s' == SubmitStep(s, v)
    case StartDecision(p, id, approve, reviewer) =>
      if p in s.processes || id !in s.tasks || s.tasks[id].status != Pending then s' == s
      else
        var status := if approve then Approved else Rejected;
        s' == s.(processes := s.processes[p := Deciding(id, status, reviewer, s.tasks[id].version)])
    case Decide(p) => s' == DecideStep(s, p)
    case StartWithdraw(p, v) =>
      s' == s
      || exists id :: p !in s.processes && PendingFor(s.tasks, id, v)
           && s' == s.(processes := s.processes[p := Withdrawing(id)])
    case Withdraw(p) =>
      if p !in s.processes || !s.processes[p].Withdrawing? then s' == s
      else s' == s.(tasks := s.tasks - {s.processes[p].id}, processes := s.processes - {p})
  }

  ghost predicate Run(states: seq<State>, actions: seq<Action>) {
    && |states| == |actions| + 1 && states[0] == INITIAL
    && forall i :: 0 <= i < |actions| ==> NextAt(states, actions, i)
  }

  ghost predicate NextAt(states: seq<State>, actions: seq<Action>, i: nat)
    requires |states| == |actions| + 1 && i < |actions|
  {
    Next(states[i], actions[i], states[i + 1])
  }

  // ----- The invariant -----

  ghost predicate Decided(s: State, id: nat) {
    exists i :: 0 <= i < |s.decisions| && s.decisions[i].id == id
  }

  /** A task is pending at version 1 and undecided, or decided at version 2. */
  ghost predicate TaskOk(s: State, id: nat, t: Task) {
    && id < s.nextId
    && (t.status == Pending ==> t.version == 1 && !Decided(s, id))
    && (t.status != Pending ==> t.version == 2 && Decided(s, id))
  }

  /** What the decision said is what the task says, as long as the task exists. */
  predicate Stands(s: State, d: Decision) {
    && d.id < s.nextId
    && (d.id in s.tasks ==> s.tasks[d.id].status == d.status && s.tasks[d.id].reviewedBy == Some(d.reviewer))
  }

  /** Two tasks that the unique index does not allow together. */
  predicate BothPending(a: Task, b: Task) {
    a.status == Pending && b.status == Pending && a.skillVersionId == b.skillVersionId
  }

  ghost predicate OnePending(tasks: map<nat, Task>) {
    forall i, j :: i in tasks && j in tasks && BothPending(tasks[i], tasks[j]) ==> i == j
  }

  ghost predicate Inv(s: State) {
    && (forall id :: id in s.tasks ==> TaskOk(s, id, s.tasks[id]))
    && (forall i :: 0 <= i < |s.decisions| ==> Stands(s, s.decisions[i]))
    && (forall i, j :: 0 <= i < j < |s.decisions| ==> s.decisions[i].id != s.decisions[j].id)
    && (forall p :: p in s.processes && s.processes[p].Deciding? ==>
          s.processes[p].expected == 1 && s.processes[p].status != Pending)
    && OnePending(s.tasks)
  }

  /** One more decision. */
  lemma DecidedNext(s: State, s': State, d: Decision)
    requires s'.decisions == s.decisions + [d]
    ensures forall id :: Decided(s', id) <==> Decided(s, id) || id == d.id
  {
    assert s'.decisions[|s.decisions|] == d;
    forall id
      ensures Decided(s', id) <==> Decided(s, id) || id == d.id
    {
      if Decided(s, id) {
        var i :| 0 <= i < |s.decisions| && s.decisions[i].id == id;
        assert s'.decisions[i].id == id;
      }
    }
  }

  lemma DecideKeeps(s: State, p: nat)
    requires Inv(s)
    ensures Inv(DecideStep(s, p))
  {
    var s' := DecideStep(s, p);
    if s'.tasks != s.tasks {
      var k := s.processes[p];
      assert TaskOk(s, k.id, s.tasks[k.id]);
      assert forall i :: 0 <= i < |s.decisions| ==> s.decisions[i].id != k.id;
      DecidedNext(s, s', Decision(k.id, k.status, k.reviewer));
      FewerPending(s.tasks, k.id, s'.tasks);
      hide Decided, OnePending;
    }
  }

  lemma FewerPending(tasks: map<nat, Task>, id: nat, tasks': map<nat, Task>)
    requires OnePending(tasks) && id in tasks && id in tasks' && tasks' == tasks[id := tasks'[id]]
    requires tasks'[id].status != Pending
    ensures OnePending(tasks')
  {
  }

  /** No task is new or changed, and nobody decides otherwise than the first time or to pending. */
  ghost predicate NothingNew(s: State, s': State) {
    && s'.decisions == s.decisions && s'.nextId == s.nextId
    && (forall id :: id in s'.tasks ==> id in s.tasks && s'.tasks[id] == s.tasks[id])
    && (forall p :: p in s'.processes && s'.processes[p].Deciding? ==>
          s'.processes[p].expected == 1 && s'.processes[p].status != Pending)
  }

  lemma NothingNewKeeps(s: State, s': State)
    requires Inv(s) && NothingNew(s, s')
    ensures Inv(s')
  {
    assert forall id :: Decided(s', id) <==> Decided(s, id);
    hide Decided, BothPending;
  }

  lemma SubmitKeeps(s: State, skillVersionId: nat)
    requires Inv(s)
    ensures Inv(SubmitStep(s, skillVersionId))
  {
    var s' := SubmitStep(s, skillVersionId);
    assert forall id :: Decided(s', id) <==> Decided(s, id);
    assert forall id :: id in s.tasks ==> TaskOk(s, id, s.tasks[id]);
    assert forall i :: 0 <= i < |s.decisions| ==> Stands(s, s.decisions[i]);
    assert !Decided(s, s.nextId);
    hide Decided;
  }

  lemma ReadKeeps(s: State, a: Action, s': State)
    requires Inv(s) && Next(s, a, s') && (a.StartDecision? || a.StartWithdraw? || a.Withdraw?)
    ensures NothingNew(s, s')
  {
    if a.StartDecision? && a.id in s.tasks {
      assert TaskOk(s, a.id, s.tasks[a.id]);
    }
    hide Decided, OnePending, Stands, HasPending, PendingFor;
  }

  lemma NextKeepsInv(s: State, a: Action, s': State)
    requires Inv(s) && Next(s, a, s')
    ensures Inv(s')
  {
    match a
    case Decide(p) =>
      DecideKeeps(s, p);
      hide Inv;
    case Submit(v) =>
      SubmitKeeps(s, v);
      hide Inv;
    case _ =>
      ReadKeeps(s, a, s');
      hide Inv, Next;
      NothingNewKeeps(s, s');
  }

  lemma {:induction false} RunKeepsInv(states: seq<State>, actions: seq<Action>, n: nat)
    requires Run(states, actions) && n < |states|
    ensures Inv(states[n])
    decreases n
  {
    if n > 0 {
      RunKeepsInv(states, actions, n - 1);
      assert NextAt(states, actions, n - 1);
      NextKeepsInv(states[n - 1], actions[n - 1], states[n]);
    }
  }

  /** However reviewers and submitters interleave, each task is decided at most once, and the decision stands. */
  lemma DecidedOnce(states: seq<State>, actions: seq<Action>, n: nat, i: nat, j: nat)
    requires Run(states, actions) && n < |states|
    requires i < |states[n].decisions| && j < |states[n].decisions|
    ensures states[n].decisions[i].id == states[n].decisions[j].id ==> i == j
    ensures var d, tasks := states[n].decisions[i], states[n].tasks;
      d.id in tasks ==> tasks[d.id].status == d.status && tasks[d.id].reviewedBy == Some(d.reviewer)
  {
    RunKeepsInv(states, actions, n);
  }

  /** A task that exists is pending exactly when nobody has decided it; a skill version has one pending task. */
  lemma PendingIffUndecided(states: seq<State>, actions: seq<Action>, n: nat, id: nat)
    requires Run(states, actions) && n < |states| && id in states[n].tasks
    ensures states[n].tasks[id].status == Pending <==> !Decided(states[n], id)
    ensures OnePending(states[n].tasks)
  {
    RunKeepsInv(states, actions, n);
    assert TaskOk(states[n], id, states[n].tasks[id]);
  }

  // ----- What was decided is what was asked -----

  /** Among the first `n` actions, a reviewer has set out to decide the task that way. */
  ghost predicate Asked(actions: seq<Action>, n: nat, id: nat, status: Status, reviewer: string)
    requires n <= |actions|
  {
    exists i: nat :: i < n && actions[i].StartDecision? && actions[i].id == id && actions[i].reviewer == reviewer
      && status == if actions[i].approve then Approved else Rejected
  }

  ghost predicate AllAsked(actions: seq<Action>, n: nat, s: State)
    requires n <= |actions|
  {
    && (forall p :: p in s.processes && s.processes[p].Deciding? ==>
          Asked(actions, n, s.processes[p].id, s.processes[p].status, s.processes[p].reviewer))
    && (forall i :: 0 <= i < |s.decisions| ==>
          Asked(actions, n, s.decisions[i].id, s.decisions[i].status, s.decisions[i].reviewer))
  }

  lemma {:induction false} RunKeepsAsked(states: seq<State>, actions: seq<Action>, n: nat)
    requires Run(states, actions) && n < |states|
    ensures AllAsked(actions, n, states[n])
    decreases n
  {
    if n > 0 {
      RunKeepsAsked(states, actions, n - 1);
      assert NextAt(states, actions, n - 1);
      NextKeepsAsked(states[n - 1], actions, n - 1, states[n]);
    }
  }

  lemma NextKeepsAsked(s: State, actions: seq<Action>, n: nat, s': State)
    requires n < |actions| && Next(s, actions[n], s') && AllAsked(actions, n, s)
    ensures AllAsked(actions, n + 1, s')
  {
    forall id, status, reviewer
      ensures Asked(actions, n, id, status, reviewer) ==> Asked(actions, n + 1, id, status, reviewer)
    {
    }
    var a := actions[n];
    if a.StartDecision? {
      assert Asked(actions, n + 1, a.id, if a.approve then Approved else Rejected, a.reviewer);
    }
    hide Asked, Updated, HasPending, PendingFor;
  }

  /** A task is approved or rejected exactly as some reviewer asked for it, and under that reviewer's name. */
  lemma DecisionWasAsked(states: seq<State>, actions: seq<Action>, n: nat, i: nat)
    requires Run(states, actions) && n < |states| && i < |states[n].decisions|
    ensures var d := states[n].decisions[i];
      exists k: nat :: k < n && actions[k].StartDecision? && actions[k].id == d.id && actions[k].reviewer == d.reviewer
        && d.status == if actions[k].approve then Approved else Rejected
  {
    RunKeepsAsked(states, actions, n);
    var d := states[n].decisions[i];
    assert Asked(actions, n, d.id, d.status, d.reviewer);
  }

  // ----- When a decision can disappear -----

  /** A continuation of a run. */
  ghost predicate Continues(s: State, states: seq<State>, actions: seq<Action>) {
    && |states| == |actions| + 1 && states[0] == s
    && forall i :: 0 <= i < |actions| ==> NextAt(states, actions, i)
  }

  ghost predicate CanVanish(s: State, id: nat) {
    exists states: seq<State>, actions: seq<Action> :: Continues(s, states, actions) && id !in states[|actions|].tasks
  }

  /** Some process has read the task and is about to delete it. */
  ghost predicate BeingWithdrawn(s: State, id: nat) {
    exists p :: p in s.processes && s.processes[p] == Withdrawing(id)
  }

  /** A decided task that nobody is about to delete. */
  ghost predicate Kept(s: State, id: nat) {
    id in s.tasks && s.tasks[id].status != Pending && !BeingWithdrawn(s, id)
  }

  lemma NextKeepsKept(s: State, a: Action, s': State, id: nat)
    requires Inv(s) && Next(s, a, s') && Kept(s, id)
    ensures Kept(s', id)
  {
    assert TaskOk(s, id, s.tasks[id]);
    assert forall p :: p in s.processes ==> s.processes[p] != Withdrawing(id);
  }

  lemma {:induction false} KeptForever(s: State, states: seq<State>, actions: seq<Action>, id: nat, n: nat)
    requires Inv(s) && Kept(s, id) && Continues(s, states, actions) && n < |states|
    ensures Inv(states[n]) && Kept(states[n], id)
    decreases n
  {
    if n > 0 {
      hide Inv, Kept, Next;
      KeptForever(s, states, actions, id, n - 1);
      assert NextAt(states, actions, n - 1);
      NextKeepsInv(states[n - 1], actions[n - 1], states[n]);
      NextKeepsKept(states[n - 1], actions[n - 1], states[n], id);
    }
  }

  /**
   In every reachable state, a decided task can still disappear exactly when some process has read it while it was
   pending and is about to delete it.
   */
  lemma DecisionVanishesIff(states: seq<State>, actions: seq<Action>, n: nat, id: nat)
    requires Run(states, actions) && n < |states| && id in states[n].tasks && Decided(states[n], id)
    ensures CanVanish(states[n], id) <==> BeingWithdrawn(states[n], id)
  {
    var s := states[n];
    RunKeepsInv(states, actions, n);
    assert TaskOk(s, id, s.tasks[id]);
    hide Inv, Decided, Run;
    if p :| p in s.processes && s.processes[p] == Withdrawing(id) {
      var s' := s.(tasks := s.tasks - {id}, processes := s.processes - {p});
      assert Next(s, Withdraw(p), s');
      var more, acts := [s, s'], [Withdraw(p)];
      assert NextAt(more, acts, 0);
      assert Continues(s, more, acts) && id !in more[|acts|].tasks;
    } else if CanVanish(s, id) {
      var more: seq<State>, acts: seq<Action> :| Continues(s, more, acts) && id !in more[|acts|].tasks;
      KeptForever(s, more, acts, id, |acts|);
    }
  }

  /** A run in which one does: a withdrawal deletes whatever has become of the task it read. */
  lemma DecisionCanVanish() returns (states: seq<State>, actions: seq<Action>)
    ensures Run(states, actions)
    ensures var s := states[|actions|]; Decided(s, 0) && 0 !in s.tasks
  {
    var pending := map[0 := Task(7, Pending, 1, None)];
    var approved := map[0 := Task(7, Approved, 2, Some("rae"))];
    var deciding, withdrawing := Deciding(0, Approved, "rae", 1), Withdrawing(0);
    actions := [Submit(7), StartWithdraw(1, 7), StartDecision(2, 0, true, "rae"), Decide(2), Withdraw(1)];
    var decision := Decision(0, Approved, "rae");
    states := [
      INITIAL,
      State(pending, 1, map[], []),
      State(pending, 1, map[1 := withdrawing], []),
      State(pending, 1, map[1 := withdrawing, 2 := deciding], []),
      State(approved, 1, map[1 := withdrawing], [decision]),
      State(map[], 1, map[], [decision])
    ];
    BothRead(pending);
    Approves(pending, approved);
    hide Next, Updated, DecideStep;
    assert NextAt(states, actions, 0) && NextAt(states, actions, 1) && NextAt(states, actions, 2);
    assert NextAt(states, actions, 3) && NextAt(states, actions, 4);
    assert states[5].decisions[0].id == 0;
  }

  /** A task is submitted, and a withdrawer and a reviewer read it. */
  lemma BothRead(pending: map<nat, Task>)
    requires pending == map[0 := Task(7, Pending, 1, None)]
    ensures Next(INITIAL, Submit(7), State(pending, 1, map[], []))
    ensures Next(State(pending, 1, map[], []), StartWithdraw(1, 7), State(pending, 1, map[1 := Withdrawing(0)], []))
    ensures Next(State(pending, 1, map[1 := Withdrawing(0)], []), StartDecision(2, 0, true, "rae"),
                 State(pending, 1, map[1 := Withdrawing(0), 2 := Deciding(0, Approved, "rae", 1)], []))
  {
    assert PendingFor(pending, 0, 7);
  }

  /** The reviewer approves it, and then it is withdrawn. */
  lemma Approves(pending: map<nat, Task>, approved: map<nat, Task>)
    requires pending == map[0 := Task(7, Pending, 1, None)]
    requires approved == map[0 := Task(7, Approved, 2, Some("rae"))]
    ensures var decision, s := Decision(0, Approved, "rae"), State(
              pending, 1, map[1 := Withdrawing(0), 2 := Deciding(0, Approved, "rae", 1)], []);
      && Next(s, Decide(2), State(approved, 1, map[1 := Withdrawing(0)], [decision]))
      && Next(State(approved, 1, map[1 := Withdrawing(0)], [decision]), Withdraw(1), State(map[], 1, map[], [decision]))
  {
    assert Updated(pending, 0, Approved, "rae", 1) == approved && approved != pending by {
      assert approved[0] != pending[0];
    }
    assert map[1 := Withdrawing(0), 2 := Deciding(0, Approved, "rae", 1)] - {2} == map[1 := Withdrawing(0)];
    assert approved - {0} == map[] && map[1 := Withdrawing(0)] - {1} == map[];
  }
}
