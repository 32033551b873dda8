/** Pipeline runs, check runs and the records the agent CI service keeps about them. */
module AgentCI {
  import opened Wrappers

  datatype RunStatus = RunPending | RunRunning | RunCompleted | RunFailed | RunCancelled

  datatype CheckStatus = Pending | Running | Passed | Failed | Error | Skipped | Cancelled

  /** The zero counts are those of a run that has not been finalized. */
  datatype PipelineRun = PipelineRun(status: RunStatus, checkCount: nat, passed: nat, failed: nat, skipped: nat)

  datatype CheckRun = CheckRun(
    id: nat, runId: nat, versionId: Option<int>, releaseId: Option<int>,
    name: string, runnerType: string, status: CheckStatus, blocking: bool, summary: Option<string>)

  predicate Terminal(s: CheckStatus) {
    s == Passed || s == Failed || s == Skipped
  }

  predicate SameButStatus(a: CheckRun, b: CheckRun) {
    a == b.(status := a.status, summary := a.summary)
  }

  /** The runner a check is given, by name. */
  function FindRunner(runners: set<string>, runnerType: string): Option<string> {
    if (runnerType == "deterministic" || runnerType == "") && "local-deterministic" in runners then
      Some("local-deterministic")
    else if runnerType in runners then
      Some(runnerType)
    else
      None
  }

  /** The rows of a pipeline run, in the order of their ids. */
  function ChecksOfRun(rows: seq<CheckRun>, runId: nat): (r: seq<CheckRun>)
    ensures forall c :: c in r <==> c in rows && c.runId == runId
  {
    if rows == [] then []
    else
      var init := rows[..|rows| - 1];
      var last := rows[|rows| - 1];
      if last.runId == runId then ChecksOfRun(init, runId) + [last] else ChecksOfRun(init, runId)
  }

  ghost predicate IdsArePositions(rows: seq<CheckRun>) {
    forall i :: 0 <= i < |rows| ==> rows[i].id == i
  }

  ghost predicate InOrder(rows: seq<CheckRun>) {
    forall j, k :: 0 <= j < k < |rows| ==> rows[j].id < rows[k].id
  }

  /** The rows listed for a run are its rows of the table, in table order. */
  lemma {:induction false} ListedInOrder(rows: seq<CheckRun>, runId: nat)
    requires IdsArePositions(rows)
    ensures forall c :: c in ChecksOfRun(rows, runId) ==> c.id < |rows| && c == rows[c.id]
    ensures InOrder(ChecksOfRun(rows, runId))
  {
    if rows != [] {
      var init := rows[..|rows| - 1];
      ListedInOrder(init, runId);
      var listed := ChecksOfRun(init, runId);
      forall k | 0 <= k < |listed|
        ensures listed[k].id < |init|
      {
        assert listed[k] in listed;
      }
    }
  }

  function CountStatus(rows: seq<CheckRun>, wanted: set<CheckStatus>): nat {
    if rows == [] then 0
    else CountStatus(rows[..|rows| - 1], wanted) + if rows[|rows| - 1].status in wanted then 1 else 0
  }

  lemma CountNone(wanted: set<CheckStatus>)
    ensures CountStatus([], wanted) == 0
  {
  }

  lemma CountNext(rows: seq<CheckRun>, n: nat, wanted: set<CheckStatus>)
    requires n < |rows|
    ensures CountStatus(rows[..n + 1], wanted)
      == CountStatus(rows[..n], wanted) + if rows[n].status in wanted then 1 else 0
  {
    assert rows[..n + 1][..n] == rows[..n];
  }

  lemma {:induction false} CountPositive(rows: seq<CheckRun>, wanted: set<CheckStatus>)
    ensures CountStatus(rows, wanted) > 0 <==> exists c :: c in rows && c.status in wanted
  {
    if rows != [] {
      var init, last := rows[..|rows| - 1], rows[|rows| - 1];
      CountPositive(init, wanted);
      assert rows == init + [last];
      assert last in rows;
      assert forall c :: c in init ==> c in rows;
      if CountStatus(init, wanted) > 0 {
        var c :| c in init && c.status in wanted;
        assert c in rows;
      }
    }
  }

  /** Every row counts once when the wanted sets do not overlap. */
  lemma {:induction false} CountSplits(rows: seq<CheckRun>, a: set<CheckStatus>, b: set<CheckStatus>)
    requires a !! b
    ensures CountStatus(rows, a + b) == CountStatus(rows, a) + CountStatus(rows, b)
  {
    if rows != [] {
      CountSplits(rows[..|rows| - 1], a, b);
    }
  }

  lemma {:induction false} CountAll(rows: seq<CheckRun>, wanted: set<CheckStatus>)
    requires forall c :: c in rows ==> c.status in wanted
    ensures CountStatus(rows, wanted) == |rows|
  {
    if rows != [] {
      CountAll(rows[..|rows| - 1], wanted);
    }
  }
}
