/** Gate policies: three rules over the check runs of a version or a release. */
module Gates {
  import opened Wrappers
  import opened AgentCI

  datatype Rule = AllPassed | RequiredPassed | NoCritical | Unknown(name: string)

  datatype Policy = Policy(id: int, enabled: bool, rule: Rule)

  datatype PolicyResult = PolicyResult(policyId: int, passed: bool)

  /** A blocking check that has failed. */
  predicate BlockingFailure(c: CheckRun) {
    c.blocking && c.status == Failed
  }

  predicate BlockingPass(c: CheckRun) {
    c.blocking && c.status == Passed
  }

  /** What each rule asks of the checks; a rule nobody knows asks for nothing. */
  ghost predicate Verdict(rule: Rule, checks: seq<CheckRun>) {
    match rule
    case AllPassed => forall c :: c in checks && c.blocking ==> c.status == Passed || c.status == Skipped
    case RequiredPassed =>
      && (forall c :: c in checks ==> !BlockingFailure(c))
      && (exists c :: c in checks && BlockingPass(c))
    case NoCritical => forall c :: c in checks ==> c.status != Failed && c.status != Error
    case Unknown(_) => true
  }

  method EvaluateGatePolicy(rule: Rule, checks: seq<CheckRun>) returns (ok: bool)
    ensures ok == Verdict(rule, checks)
  {
    match rule {
      case AllPassed =>
        for i := 0 to |checks|
          invariant forall c :: c in checks[..i] && c.blocking ==> c.status == Passed || c.status == Skipped
        {
          if !checks[i].blocking { continue; }
          if checks[i].status != Passed && checks[i].status != Skipped {
            assert checks[i] in checks;
            return false;
          }
        }
        assert checks[..|checks|] == checks;
        return true;
      case RequiredPassed =>
        var hasRequired := false;
        for i := 0 to |checks|
          invariant forall c :: c in checks[..i] ==> !BlockingFailure(c)
          invariant hasRequired <==> exists c :: c in checks[..i] && BlockingPass(c)
        {
          assert checks[..i + 1] == checks[..i] + [checks[i]];
          if checks[i].blocking && checks[i].status == Failed {
            assert checks[i] in checks && BlockingFailure(checks[i]);
            return false;
          }
          if checks[i].blocking && checks[i].status == Passed {
            assert checks[i] in checks[..i + 1] && BlockingPass(checks[i]);
            hasRequired := true;
          }
        }
        assert checks[..|checks|] == checks;
        return hasRequired;
      case NoCritical =>
        for i := 0 to |checks|
          invariant forall c :: c in checks[..i] ==> c.status != Failed && c.status != Error
        {
          if checks[i].status == Failed || checks[i].status == Error {
            assert checks[i] in checks;
            return false;
          }
        }
        assert checks[..|checks|] == checks;
        return true;
      case Unknown(_) =>
        return true;
    }
  }

  /** The gate as a whole: every enabled policy is satisfied. */
  ghost predicate GatePassed(policies: seq<Policy>, checks: seq<CheckRun>) {
    forall p :: p in policies && p.enabled ==> Verdict(p.rule, checks)
  }

  ghost function Results(policies: seq<Policy>, checks: seq<CheckRun>): seq<PolicyResult> {
    if policies == [] then []
    else
      var last := policies[|policies| - 1];
      Results(policies[..|policies| - 1], checks)
      + if last.enabled then [PolicyResult(last.id, Verdict(last.rule, checks))] else []
  }

  method EvaluateGates(policies: seq<Policy>, checks: seq<CheckRun>) returns (passed: bool, results: seq<PolicyResult>)
    ensures passed == GatePassed(policies, checks)
    ensures results == Results(policies, checks)
  {
    passed, results := true, [];
    for i := 0 to |policies|
      invariant passed == GatePassed(policies[..i], checks)
      invariant results == Results(policies[..i], checks)
    {
      var p := policies[i];
      assert policies[..i + 1] == policies[..i] + [p];
      assert policies[..i + 1][..i] == policies[..i];
      if !p.enabled { continue; }
      var ok := EvaluateGatePolicy(p.rule, checks);
      if !ok {
        passed := false;
        assert p in policies[..i + 1];
      }
      results := results + [PolicyResult(p.id, ok)];
    }
    assert policies[..|policies|] == policies;
  }

  // ----- Which checks a gate looks at -----

  /** What a gate is evaluated for. */
  datatype Subject = OfVersion(id: int) | OfRelease(id: int)

  predicate About(subject: Subject, c: CheckRun) {
    match subject
    case OfVersion(id) => c.versionId == Some(id)
    case OfRelease(id) => c.releaseId == Some(id)
  }

  function ChecksAbout(rows: seq<CheckRun>, subject: Subject): (r: seq<CheckRun>)
    ensures forall c :: c in r <==> c in rows && About(subject, c)
  {
    if rows == [] then []
    else
      var init, last := rows[..|rows| - 1], rows[|rows| - 1];
      assert rows == init + [last];
      ChecksAbout(init, subject) + if About(subject, last) then [last] else []
  }

  /**
   A gate asked for a release looks at the release's checks, else at the version's, else at the skill's latest ones.
   */
  method ChecksForGate(
    rows: seq<CheckRun>, releaseId: Option<int>, versionId: Option<int>, latestOfSkill: seq<CheckRun>)
    returns (checks: seq<CheckRun>)
    ensures releaseId.Some? ==>
      checks == ChecksAbout(rows, OfRelease(releaseId.value))
      && forall c :: c in checks <==> c in rows && c.releaseId == releaseId
    ensures releaseId.None? && versionId.Some? ==>
      checks == ChecksAbout(rows, OfVersion(versionId.value))
      && forall c :: c in checks <==> c in rows && c.versionId == versionId
    ensures releaseId.None? && versionId.None? ==> checks == latestOfSkill
  {
    if releaseId.Some? {
      checks := FindAbout(rows, OfRelease(releaseId.value));
    } else if versionId.Some? {
      checks := FindAbout(rows, OfVersion(versionId.value));
    } else {
      checks := latestOfSkill;
    }
  }

  method FindAbout(rows: seq<CheckRun>, subject: Subject) returns (checks: seq<CheckRun>)
    ensures checks == ChecksAbout(rows, subject)
  {
    checks := [];
    for i := 0 to |rows|
      invariant checks == ChecksAbout(rows[..i], subject)
    {
      assert rows[..i + 1][..i] == rows[..i];
      if About(subject, rows[i]) {
        checks := checks + [rows[i]];
      }
    }
    assert rows[..|rows|] == rows;
  }

  // ----- Laws of the rules -----

  /** The order the repository lists the checks in does not matter. */
  lemma VerdictPermutation(rule: Rule, a: seq<CheckRun>, b: seq<CheckRun>)
    requires multiset(a) == multiset(b)
    ensures Verdict(rule, a) == Verdict(rule, b)
  {
    forall c: CheckRun
      ensures c in a <==> c in b
    {
      assert c in a <==> c in multiset(a);
      assert c in b <==> c in multiset(b);
    }
  }

  /** Two of the rules distribute over concatenated check lists; the third needs a pass in either list. */
  lemma VerdictConcat(a: seq<CheckRun>, b: seq<CheckRun>)
    ensures Verdict(AllPassed, a + b) == (Verdict(AllPassed, a) && Verdict(AllPassed, b))
    ensures Verdict(NoCritical, a + b) == (Verdict(NoCritical, a) && Verdict(NoCritical, b))
    ensures Verdict(RequiredPassed, a + b)
       <==> (forall c :: c in a + b ==> !BlockingFailure(c))
            && (Verdict(RequiredPassed, a) || Verdict(RequiredPassed, b))
  {
    assert forall c :: c in a ==> c in a + b;
    assert forall c :: c in b ==> c in a + b;
  }

  /** A failed blocking check fails all three rules, whatever else is in the list. */
  lemma BlockingFailureFailsAll(checks: seq<CheckRun>, c: CheckRun)
    requires c in checks && BlockingFailure(c)
    ensures !Verdict(AllPassed, checks) && !Verdict(RequiredPassed, checks) && !Verdict(NoCritical, checks)
  {
  }

  /** The verdict on a single check, by its status; with the laws above this fixes every verdict. */
  lemma VerdictOfOne(c: CheckRun)
    ensures Verdict(AllPassed, [c]) <==> !c.blocking || c.status in {Passed, Skipped}
    ensures Verdict(RequiredPassed, [c]) <==> c.blocking && c.status == Passed
    ensures Verdict(NoCritical, [c]) <==> c.status !in {Failed, Error}
    ensures forall name :: Verdict(Unknown(name), [c])
  {
    assert c in [c];
  }

  /** A check that does not decide: added to others, it leaves the rule's verdict as it is. */
  lemma IndifferentCheck(checks: seq<CheckRun>, c: CheckRun)
    ensures !c.blocking || c.status in {Passed, Skipped} ==>
      Verdict(AllPassed, checks + [c]) == Verdict(AllPassed, checks)
    ensures !c.blocking || c.status !in {Passed, Failed} ==>
      Verdict(RequiredPassed, checks + [c]) == Verdict(RequiredPassed, checks)
    ensures c.status !in {Failed, Error} ==> Verdict(NoCritical, checks + [c]) == Verdict(NoCritical, checks)
  {
    assert forall x :: x in checks ==> x in checks + [c];
  }

  /** Whether checks block is nothing to the no-critical rule, and those that do not block are nothing to the others. */
  lemma NoCriticalIgnoresBlocking(checks: seq<CheckRun>, other: seq<CheckRun>)
    requires |checks| == |other| && forall i :: 0 <= i < |checks| ==>
      other[i] == checks[i].(blocking := other[i].blocking)
    ensures Verdict(NoCritical, checks) == Verdict(NoCritical, other)
  {
    forall i | 0 <= i < |checks|
      ensures checks[i] in checks && other[i] in other && checks[i].status == other[i].status
    {
    }
  }

  // ----- Laws of the gate -----

  /** A gate with one policy: a disabled one asks for nothing and has no result. */
  lemma GateOfOne(p: Policy, checks: seq<CheckRun>)
    ensures GatePassed([p], checks) <==> !p.enabled || Verdict(p.rule, checks)
    ensures Results([p], checks) == if p.enabled then [PolicyResult(p.id, Verdict(p.rule, checks))] else []
  {
    assert p in [p] && [p][..0] == [];
    hide Verdict;
  }

  /** A gate is all its policies, in their order; it has passed exactly if all its results have. */
  lemma {:induction false} GateConcat(a: seq<Policy>, b: seq<Policy>, checks: seq<CheckRun>)
    ensures GatePassed(a + b, checks) <==> GatePassed(a, checks) && GatePassed(b, checks)
    ensures Results(a + b, checks) == Results(a, checks) + Results(b, checks)
    decreases |b|
  {
    hide Verdict;
    if b == [] {
      assert a + b == a && Results(a, checks) + [] == Results(a, checks);
    } else {
      var front, last := b[..|b| - 1], b[|b| - 1];
      GateConcat(a, front, checks);
      assert (a + b)[..|a + b| - 1] == a + front && (a + b)[|a + b| - 1] == last;
    }
    forall p
      ensures p in a + b <==> p in a || p in b
    {
    }
  }

  lemma {:induction false} PassedIffResults(policies: seq<Policy>, checks: seq<CheckRun>)
    ensures GatePassed(policies, checks) <==> forall r :: r in Results(policies, checks) ==> r.passed
  {
    hide Verdict;
    if policies != [] {
      var front, last := policies[..|policies| - 1], policies[|policies| - 1];
      PassedIffResults(front, checks);
      assert policies == front + [last];
      GateConcat(front, [last], checks);
      GateOfOne(last, checks);
      hide GatePassed, Results;
    }
  }
}
