/** Reviewing while applying comes to the same as reviewing first and then applying what was accepted. */
module Batches {
  import opened Wrappers
  import opened Plans
  import opened Review
  import opened Realms
  import opened Runs
  import opened Repair

  /** The operations of a run that were handed to Keycloak, and what happened to them. */
  function RanOps<T>(ops: seq<T>, run: seq<Event>): seq<T>
    requires |run| <= |ops|
  {
    if run == [] then []
    else
      var n := |run| - 1;
      RanOps(ops, run[..n]) + if run[n].Ran? then [ops[n]] else []
  }

  function Kept(run: seq<Event>): seq<Event> {
    if run == [] then []
    else
      var n := |run| - 1;
      Kept(run[..n]) + if run[n].Ran? then [run[n]] else []
  }

  lemma {:induction false} KeptStep(ops: seq<PlanOperation>, run: seq<Event>)
    requires 0 < |run| <= |ops|
    ensures var n := |run| - 1;
            if run[n].Ran? then Kept(run) == Kept(run[..n]) + [run[n]] &&
                RanOps(ops, run) == RanOps(ops, run[..n]) + [ops[n]]
            else Kept(run) == Kept(run[..n]) && RanOps(ops, run) == RanOps(ops, run[..n])
  {
  }

  /** The part of a plan that a review accepts, as a plan. */
  function AcceptedPart(plan: SyncPlan, s: State, policy: Option<Policy>): SyncPlan {
    plan.(operations := AcceptedOf(s, policy, plan.operations))
  }

  predicate AllRan(run: seq<Event>) {
    forall i | 0 <= i < |run| :: run[i].Ran?
  }

  // ----- dropping what was left out -----

  lemma {:induction false} KeptFacts(ops: seq<PlanOperation>, before: Realm, run: seq<Event>)
    requires |run| <= |ops|
    ensures AllRan(Kept(run)) && |Kept(run)| == |RanOps(ops, run)|
    ensures StateAfter(before, Kept(run)) == StateAfter(before, run)
  {
    if run != [] {
      var n := |run| - 1;
      KeptFacts(ops, before, run[..n]);
      KeptStep(ops, run);
      StateSnoc(before, Kept(run[..n]), run[n]);
    }
  }

  lemma {:induction false} KeptCounts(run: seq<Event>)
    ensures CountApplied(Kept(run)) == CountApplied(run) && CountFailed(Kept(run)) == CountFailed(run)
    ensures CountLeftOut(Kept(run)) == 0
  {
    if run != [] {
      var n := |run| - 1;
      KeptCounts(run[..n]);
      if run[n].Ran? {
        assert Kept(run) == Kept(run[..n]) + [run[n]];
        CountSnoc(Kept(run[..n]), run[n]);
      } else {
        assert Kept(run) == Kept(run[..n]);
      }
    }
  }

  /** A law that says nothing about operations that were left out. */
  ghost predicate Indulgent(law: Law) {
    forall op, r :: law(op, r, LeftOut)
  }

  /** Leaving the left-out operations out of the list as well makes no difference to what is lawful. */
  lemma {:induction false} KeptLawful(law: Law, ops: seq<PlanOperation>, before: Realm, run: seq<Event>)
    requires |run| <= |ops| && Indulgent(law)
    ensures |Kept(run)| == |RanOps(ops, run)|
    ensures Lawful(law, RanOps(ops, run), before, Kept(run)) <==> Lawful(law, ops, before, run)
  {
    KeptFacts(ops, before, run);
    if run != [] {
      var n := |run| - 1;
      KeptLawful(law, ops, before, run[..n]);
      KeptFacts(ops, before, run[..n]);
      KeptStep(ops, run);
      if run[n].Ran? {
        var all, init := RanOps(ops, run), RanOps(ops, run[..n]);
        LawfulSnoc(law, all, before, Kept(run[..n]), run[n]);
        LawfulPrefix(law, all, init, before, Kept(run[..n]));
      }
    }
  }

  /** Operations that come later do not matter. */
  lemma {:induction false} LawfulPrefix(
    law: Law, ops: seq<PlanOperation>, init: seq<PlanOperation>, before: Realm, run: seq<Event>)
    requires |run| <= |init| && init <= ops
    ensures Lawful(law, ops, before, run) <==> Lawful(law, init, before, run)
  {
    if run != [] {
      LawfulPrefix(law, ops, init, before, run[..|run| - 1]);
    }
  }

  /** Two laws that agree on the operations of a list agree on its runs. */
  lemma {:induction false} SameLaw(a: Law, b: Law, ops: seq<PlanOperation>, before: Realm, run: seq<Event>)
    requires |run| <= |ops| && forall i, r, e | 0 <= i < |ops| :: a(ops[i], r, e) <==> b(ops[i], r, e)
    ensures Lawful(a, ops, before, run) <==> Lawful(b, ops, before, run)
  {
    if run != [] {
      SameLaw(a, b, ops, before, run[..|run| - 1]);
    }
  }

  // ----- what ran is what was accepted -----

  /** At any point of a reviewed run, and so also when the reviewer's error ends it, exactly the operations accepted so
      far have been handed to Keycloak. */
  lemma {:induction false} RanAreAccepted(s: State, policy: Option<Policy>, ops: seq<PlanOperation>, run: seq<Event>)
    requires |run| <= |ops| && Heeds(s, policy, ops, run)
    ensures RanOps(ops, run) == AcceptedOf(s, policy, ops[..|run|])
  {
    if run != [] {
      var n := |run| - 1;
      RanAreAccepted(s, policy, ops, run[..n]);
      SnocSteps(s, policy, ops, n);
    } else {
      assert ops[..0] == [];
    }
  }

  /** A session that finished was not disturbed. */
  lemma {:induction false} FinishedUndisturbed(
    s: State, policy: Option<Policy>, ops: seq<PlanOperation>, run: seq<Event>)
    requires |run| <= |ops| && Heeds(s, policy, ops, run)
    ensures Undisturbed(s, policy, ops[..|run|])
  {
    if run != [] {
      var n := |run| - 1;
      FinishedUndisturbed(s, policy, ops, run[..n]);
      SnocSteps(s, policy, ops, n);
    } else {
      assert ops[..0] == [];
    }
  }

  lemma {:induction false} SameLaws(
    plan: SyncPlan, part: SyncPlan, ops: seq<PlanOperation>, before: Realm, run: seq<Event>)
    requires part.zone == plan.zone && |run| <= |ops|
    ensures Lawful(HappensIn(part), ops, before, run) <==> Lawful(HappensIn(plan), ops, before, run)
    ensures Lawful(FaultlessIn(part), ops, before, run) <==> Lawful(FaultlessIn(plan), ops, before, run)
  {
    forall i | 0 <= i < |ops| ensures Decode(part, ops[i]) == Decode(plan, ops[i]) {
    }
    SameLaw(HappensIn(part), HappensIn(plan), ops, before, run);
    SameLaw(FaultlessIn(part), FaultlessIn(plan), ops, before, run);
  }

  /** A reviewed run of a plan and the run of its accepted part that does the same. */
  ghost predicate SameWork(plan: SyncPlan, part: SyncPlan, before: Realm, run: seq<Event>, batch: seq<Event>) {
    && |run| == |plan.operations| && |batch| == |part.operations| && batch == Kept(run) && AllRan(batch)
    && (PlanRun(plan, before, run) <==> PlanRun(part, before, batch))
    && (PlanFaultless(plan, before, run) <==> PlanFaultless(part, before, batch))
    && StateAfter(before, run) == StateAfter(before, batch)
    && CountApplied(run) == CountApplied(batch) && CountFailed(run) == CountFailed(batch)
  }

  /** Every run reviewed on the way does the work of a run of the part that a review up front accepts. */
  lemma {:induction false} InterleavedIsBatch(
    plan: SyncPlan, s: State, policy: Option<Policy>, before: Realm, run: seq<Event>)
    requires |run| == |plan.operations| && Heeds(s, policy, plan.operations, run)
    ensures Undisturbed(s, policy, plan.operations)
    ensures SameWork(plan, AcceptedPart(plan, s, policy), before, run, Kept(run))
  {
    var ops, part := plan.operations, AcceptedPart(plan, s, policy);
    assert ops[..|ops|] == ops;
    RanAreAccepted(s, policy, ops, run);
    FinishedUndisturbed(s, policy, ops, run);
    KeptFacts(ops, before, run);
    KeptCounts(run);
    KeptLawful(HappensIn(plan), ops, before, run);
    KeptLawful(FaultlessIn(plan), ops, before, run);
    SameLaws(plan, part, part.operations, before, Kept(run));
  }

  function CountAccepted(accepted: nat -> bool, n: nat): nat {
    if n == 0 then 0 else CountAccepted(accepted, n - 1) + if accepted(n - 1) then 1 else 0
  }

  /** The events of a batch handed out to those of n operations that were accepted. */
  function Spread(accepted: nat -> bool, n: nat, batch: seq<Event>): seq<Event> {
    if n == 0 then []
    else
      var k := CountAccepted(accepted, n - 1);
      Spread(accepted, n - 1, batch) + [if accepted(n - 1) && k < |batch| then batch[k] else LeftOut]
  }

  lemma {:induction false} SpreadKept(accepted: nat -> bool, n: nat, batch: seq<Event>)
    requires CountAccepted(accepted, n) <= |batch| && AllRan(batch)
    ensures Kept(Spread(accepted, n, batch)) == batch[..CountAccepted(accepted, n)]
  {
    if n > 0 {
      var k := CountAccepted(accepted, n - 1);
      SpreadKept(accepted, n - 1, batch);
      KeptSnoc(Spread(accepted, n - 1, batch), if accepted(n - 1) then batch[k] else LeftOut);
      assert accepted(n - 1) ==> batch[..k + 1] == batch[..k] + [batch[k]];
    }
  }

  lemma {:induction false} SpreadRan(accepted: nat -> bool, n: nat, batch: seq<Event>)
    requires CountAccepted(accepted, n) <= |batch| && AllRan(batch)
    ensures |Spread(accepted, n, batch)| == n
    ensures forall i | 0 <= i < n :: Spread(accepted, n, batch)[i].Ran? <==> accepted(i)
  {
    if n > 0 {
      SpreadRan(accepted, n - 1, batch);
    }
  }

  lemma {:induction false} KeptSnoc(run: seq<Event>, e: Event)
    ensures Kept(run + [e]) == if e.Ran? then Kept(run) + [e] else Kept(run)
  {
    assert (run + [e])[..|run|] == run;
  }

  function AcceptedAt(s: State, policy: Option<Policy>, ops: seq<PlanOperation>): nat -> bool {
    (i: nat) => i < |ops| && VerdictAt(s, policy, ops, i).Accepted?
  }

  lemma {:induction false} AcceptedSize(s: State, policy: Option<Policy>, ops: seq<PlanOperation>, k: nat)
    requires k <= |ops|
    ensures CountAccepted(AcceptedAt(s, policy, ops), k) == |AcceptedOf(s, policy, ops[..k])|
  {
    if k > 0 {
      AcceptedSize(s, policy, ops, k - 1);
      SnocSteps(s, policy, ops, k - 1);
    }
  }

  lemma {:induction false} UndisturbedAt(s: State, policy: Option<Policy>, ops: seq<PlanOperation>, i: nat, k: nat)
    requires i < k <= |ops| && Undisturbed(s, policy, ops[..k])
    ensures !VerdictAt(s, policy, ops, i).Stopped?
  {
    SnocSteps(s, policy, ops, k - 1);
    if i < k - 1 {
      UndisturbedAt(s, policy, ops, i, k - 1);
    }
  }

  lemma {:induction false} HeedsAll(s: State, policy: Option<Policy>, ops: seq<PlanOperation>, run: seq<Event>)
    requires |run| <= |ops|
    requires forall i | 0 <= i < |run| ::
             VerdictAt(s, policy, ops, i) == if run[i].Ran? then Accepted else Verdict.Skipped
    ensures Heeds(s, policy, ops, run)
  {
    if run != [] {
      HeedsAll(s, policy, ops, run[..|run| - 1]);
    }
  }

  lemma {:induction false} SpreadHeeds(s: State, policy: Option<Policy>, ops: seq<PlanOperation>, run: seq<Event>)
    requires Undisturbed(s, policy, ops) && |run| == |ops|
    requires forall i | 0 <= i < |run| :: run[i].Ran? <==> AcceptedAt(s, policy, ops)(i)
    ensures Heeds(s, policy, ops, run)
  {
    assert ops[..|ops|] == ops;
    forall i | 0 <= i < |run|
      ensures VerdictAt(s, policy, ops, i) == if run[i].Ran? then Accepted else Verdict.Skipped
    {
      UndisturbedAt(s, policy, ops, i, |ops|);
    }
    HeedsAll(s, policy, ops, run);
  }

  /** And every run of the accepted part has a run reviewed on the way that does its work. */
  lemma {:induction false} BatchIsInterleaved(
    plan: SyncPlan, s: State, policy: Option<Policy>, before: Realm, batch: seq<Event>) returns (run: seq<Event>)
    requires Undisturbed(s, policy, plan.operations)
    requires |batch| == |AcceptedPart(plan, s, policy).operations| && AllRan(batch)
    ensures |run| == |plan.operations| && Heeds(s, policy, plan.operations, run)
    ensures SameWork(plan, AcceptedPart(plan, s, policy), before, run, batch)
  {
    var ops, accepted := plan.operations, AcceptedAt(s, policy, plan.operations);
    assert ops[..|ops|] == ops;
    run := Spread(accepted, |ops|, batch);
    AcceptedSize(s, policy, ops, |ops|);
    SpreadKept(accepted, |ops|, batch);
    SpreadRan(accepted, |ops|, batch);
    assert batch[..|batch|] == batch;
    SpreadHeeds(s, policy, ops, run);
    InterleavedIsBatch(plan, s, policy, before, run);
  }

  /** The results of the two agree on status and counts; only the skipped operations are not in the batch's report. */
  lemma {:induction false} SameReport(
    plan: SyncPlan, part: SyncPlan, before: Realm, run: seq<Event>, batch: seq<Event>, a: ApplyResult, b: ApplyResult)
    requires SameWork(plan, part, before, run, batch) && Reports(plan, run, a) && Reports(part, batch, b)
    ensures a.status == b.status && a.applied == b.applied && a.failed == b.failed && a.warningCount == b.warningCount
    ensures b.skipped == 0
  {
    KeptCounts(run);
  }

  /** With prompting off nothing is left out, whoever the reviewer is. */
  lemma {:induction false} UnpromptedRunsAll(shown: seq<PlanOperation>, policy: Option<Policy>, ops: seq<PlanOperation>,
                                             run: seq<Event>)
    requires |run| <= |ops| && Heeds(Start(Never, shown), policy, ops, run)
    ensures AllRan(run)
  {
    var s := Start(Never, shown);
    if run != [] {
      var n := |run| - 1;
      UnpromptedRunsAll(shown, policy, ops, run[..n]);
      assert ops[..0] == [];
      SettledStays(s, policy, ops, 0, n);
      forall i | 0 <= i < |run| ensures run[i].Ran? {
        if i < n {
          assert run[..n][i] == run[i];
        }
      }
    }
  }

  // ----- the accepted part passes validation -----

  lemma {:induction false} AcceptedPass(check: PlanOperation -> bool, id: PlanOperation -> string,
                                        s: State, policy: Option<Policy>, ops: seq<PlanOperation>)
    requires EachPasses(check, id, ops)
    ensures EachPasses(check, id, AcceptedOf(s, policy, ops))
    ensures IdsOf(id, AcceptedOf(s, policy, ops)) <= IdsOf(id, ops)
  {
    if ops != [] {
      var n := |ops| - 1;
      var init, last := ops[..n], ops[n];
      assert ops == init + [last];
      EachPassesSnoc(check, id, init, last);
      AcceptedPass(check, id, s, policy, init);
      EachPassesSnoc(check, id, AcceptedOf(s, policy, init), last);
    }
  }

  lemma {:induction false} SameValidation(plan: SyncPlan, part: SyncPlan, op: PlanOperation)
    requires plan.realm == part.realm && plan.zone == part.zone
    ensures ValidateOperation(part, op) == ValidateOperation(plan, op)
  {
  }

  lemma {:induction false} SameChecks(a: PlanOperation -> bool, b: PlanOperation -> bool, id: PlanOperation -> string,
                                      ops: seq<PlanOperation>)
    requires EachPasses(a, id, ops) && forall op :: a(op) == b(op)
    ensures EachPasses(b, id, ops)
  {
  }

  lemma {:induction false} SameVerdicts(plan: SyncPlan, part: SyncPlan, ops: seq<PlanOperation>)
    requires plan.realm == part.realm && plan.zone == part.zone && EachPasses(Check(plan), TrimmedId(), ops)
    ensures EachPasses(Check(part), TrimmedId(), ops)
  {
    forall op ensures Check(plan)(op) == Check(part)(op) {
      SameValidation(plan, part, op);
    }
    SameChecks(Check(plan), Check(part), TrimmedId(), ops);
  }

  lemma {:induction false} PartAcceptable(plan: SyncPlan, realm: string, zone: string, part: SyncPlan)
    requires Acceptable(plan, realm, zone) && part == plan.(operations := part.operations)
    requires EachPasses(Check(plan), TrimmedId(), part.operations)
    ensures Acceptable(part, realm, zone)
  {
    SameVerdicts(plan, part, part.operations);
  }

  /** The accepted part of an acceptable plan is acceptable. */
  lemma {:induction false} AcceptedPartAcceptable(
    plan: SyncPlan, realm: string, zone: string, s: State, policy: Option<Policy>, part: SyncPlan)
    requires Acceptable(plan, realm, zone) && part == AcceptedPart(plan, s, policy)
    ensures Acceptable(part, realm, zone)
  {
    AcceptedPass(Check(plan), TrimmedId(), s, policy, plan.operations);
    PartAcceptable(plan, realm, zone, part);
  }
}
