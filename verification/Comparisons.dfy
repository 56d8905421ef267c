/** Comparing runs of plans: exactly which orders of a plan succeed and can be repeated, and reviewing on the way
    against reviewing first. */
module Comparisons {
  import opened Wrappers
  import opened Realms
  import opened Plans
  import opened Review
  import opened Mirrors
  import opened Reach
  import opened Runs
  import opened Reruns
  import opened Repair
  import opened Orders
  import opened PlanRuns
  import opened Batches
  import opened Theorems

  // ----- orders -----

  /** The same operations, each with its difference, in another order. */
  ghost predicate Reordered(plan: SyncPlan, xs: seq<Item>, other: SyncPlan, ys: seq<Item>) {
    && other == plan.(operations := other.operations) && |other.operations| == |ys| && |plan.operations| == |xs|
    && Distinct(ys) && (forall x :: x in ys <==> x in xs)
    && forall i, j | 0 <= i < |xs| && 0 <= j < |ys| && xs[i] == ys[j] :: other.operations[j] == plan.operations[i]
  }

  lemma {:induction false} ReorderedAsks(s: Situation, plan: SyncPlan, xs: seq<Item>, other: SyncPlan, ys: seq<Item>)
    requires Asks(s, plan, xs) && Reordered(plan, xs, other, ys)
    ensures Asks(s, other, ys)
  {
    forall j | 0 <= j < |ys|
      ensures InDiff(s.irods, s.mirror, ys[j]) && Decode(other, other.operations[j]) == Ok(CallOf(s, ys[j]))
    {
      assert ys[j] in xs;
      var i :| 0 <= i < |xs| && xs[i] == ys[j];
      SameZoneSameCall(plan, other, other.operations[j]);
    }
  }

  /** A run over a whole plan with nothing left out and no faults. */
  ghost predicate FullRun(plan: SyncPlan, before: Realm, run: seq<Event>) {
    |run| == |plan.operations| && PlanRun(plan, before, run) && PlanFaultless(plan, before, run) && AllRan(run)
  }

  /** What stands behind a plan in another order, and behind its full runs. */
  lemma {:induction false} BehindReordered(
    plan: SyncPlan, xs: seq<Item>, irods: IrodsSnapshot, before: Realm, mirror: MirrorSnapshot,
    other: SyncPlan, ys: seq<Item>)
    requires Repairs(plan, xs, irods, before, mirror) && Reordered(plan, xs, other, ys)
    ensures var s := SituationIn(plan.zone, irods, before, mirror);
            Tidy(s) && Asks(s, other, ys) && forall x :: x in ys <==> InDiff(irods, mirror, x)
  {
    BehindThePlan(plan, xs, irods, before, mirror);
    ReorderedAsks(SituationIn(plan.zone, irods, before, mirror), plan, xs, other, ys);
  }

  lemma {:induction false} FullItemRun(s: Situation, plan: SyncPlan, xs: seq<Item>, before: Realm, run: seq<Event>)
    requires WellRead(s) && Asks(s, plan, xs) && FullRun(plan, before, run)
    ensures |run| == |xs| && ItemRun(s, xs, before, run) && Faultless(s, xs, before, run)
  {
    PlanRunIsItemRun(s, plan, xs, before, run);
    PlanFaultlessIsFaultless(s, plan, xs, before, run);
  }

  /** In any order, a run without faults applies the whole plan if and only if Keycloak knows the users to be added and
      every mirror is created before it is added to. */
  lemma {:induction false} ReorderedSucceeds(
    plan: SyncPlan, xs: seq<Item>, irods: IrodsSnapshot, before: Realm, mirror: MirrorSnapshot,
    other: SyncPlan, ys: seq<Item>, run: seq<Event>)
    requires Repairs(plan, xs, irods, before, mirror) && Reordered(plan, xs, other, ys) && FullRun(other, before, run)
    ensures var s := SituationIn(plan.zone, irods, before, mirror);
            AllApplied(run) <==> UsersKnown(s) && CreatesFirst(s, ys)
  {
    var s := SituationIn(plan.zone, irods, before, mirror);
    BehindReordered(plan, xs, irods, before, mirror, other, ys);
    FullItemRun(s, other, ys, before, run);
    AppliedIffOrdered(s, ys, run);
  }

  /** In any order, running the plan a second time changes nothing if and only if every mirror is created before it is
      added to. */
  lemma {:induction false} ReorderedRepeat(
    plan: SyncPlan, xs: seq<Item>, irods: IrodsSnapshot, before: Realm, mirror: MirrorSnapshot,
    other: SyncPlan, ys: seq<Item>, run: seq<Event>, again: seq<Event>)
    requires Repairs(plan, xs, irods, before, mirror) && Reordered(plan, xs, other, ys)
    requires UsersKnown(SituationIn(plan.zone, irods, before, mirror))
    requires FullRun(other, before, run) && FullRun(other, StateAfter(before, run), again)
    ensures var s := SituationIn(plan.zone, irods, before, mirror);
            StateAfter(StateAfter(before, run), again) == StateAfter(before, run) <==> CreatesFirst(s, ys)
  {
    var s := SituationIn(plan.zone, irods, before, mirror);
    BehindReordered(plan, xs, irods, before, mirror, other, ys);
    FullItemRun(s, other, ys, before, run);
    FullItemRun(s, other, ys, StateAfter(before, run), again);
    RepeatIffOrdered(s, ys, run, again);
  }

  /** Every order that creates mirrors before adding to them ends in the same realm as the planner's, up to the ids of
      new groups. */
  lemma {:induction false} AnyOrderSameEnd(
    plan: SyncPlan, xs: seq<Item>, irods: IrodsSnapshot, before: Realm, mirror: MirrorSnapshot, run: seq<Event>,
    other: SyncPlan, ys: seq<Item>, otherRun: seq<Event>)
    requires Repairs(plan, xs, irods, before, mirror) && Reordered(plan, xs, other, ys)
    requires var s := SituationIn(plan.zone, irods, before, mirror); UsersKnown(s) && CreatesFirst(s, ys)
    requires FullRun(plan, before, run) && FullRun(other, before, otherRun)
    ensures AllApplied(run) && AllApplied(otherRun)
    ensures SameUpToNewIds(before, StateAfter(before, run), StateAfter(before, otherRun))
  {
    var s := SituationIn(plan.zone, irods, before, mirror);
    RepairSucceeds(plan, xs, irods, before, mirror, run);
    ReorderedSucceeds(plan, xs, irods, before, mirror, other, ys, otherRun);
    BehindThePlan(plan, xs, irods, before, mirror);
    BehindReordered(plan, xs, irods, before, mirror, other, ys);
    FullItemRun(s, plan, xs, before, run);
    FullItemRun(s, other, ys, before, otherRun);
    OrderDoesNotMatter(s, xs, run, ys, otherRun);
  }

  // ----- reviews -----

  /** What ran of two lists of the same length. */
  lemma {:induction false} RanPairs<T, U>(ops: seq<T>, xs: seq<U>, run: seq<Event>)
    requires |run| <= |ops| && |ops| == |xs|
    ensures |RanOps(ops, run)| == |RanOps(xs, run)|
    ensures forall i | 0 <= i < |RanOps(ops, run)| ::
              exists k :: 0 <= k < |ops| && RanOps(ops, run)[i] == ops[k] && RanOps(xs, run)[i] == xs[k]
  {
    if run != [] {
      var n := |run| - 1;
      RanPairs(ops, xs, run[..n]);
      forall i | 0 <= i < |RanOps(ops, run)|
        ensures exists k :: 0 <= k < |ops| && RanOps(ops, run)[i] == ops[k] && RanOps(xs, run)[i] == xs[k]
      {
        if i == |RanOps(ops, run[..n])| {
          assert RanOps(ops, run)[i] == ops[n] && RanOps(xs, run)[i] == xs[n];
        } else {
          assert RanOps(ops, run)[i] == RanOps(ops, run[..n])[i] && RanOps(xs, run)[i] == RanOps(xs, run[..n])[i];
        }
      }
    }
  }

  lemma {:induction false} PartAsks(s: Situation, plan: SyncPlan, xs: seq<Item>, part: SyncPlan, run: seq<Event>)
    requires Asks(s, plan, xs) && |run| <= |plan.operations|
    requires part == plan.(operations := RanOps(plan.operations, run))
    ensures Asks(s, part, RanOps(xs, run))
  {
    var ops, ys := part.operations, RanOps(xs, run);
    RanPairs(plan.operations, xs, run);
    forall i | 0 <= i < |ys|
      ensures InDiff(s.irods, s.mirror, ys[i]) && Decode(part, ops[i]) == Ok(CallOf(s, ys[i]))
    {
      var k :| 0 <= k < |xs| && ops[i] == plan.operations[k] && ys[i] == xs[k];
      SameZoneSameCall(plan, part, ops[i]);
    }
  }

  /** A reviewed run, without what was left out, is a full run of the accepted part. */
  lemma {:induction false} KeptIsFull(
    plan: SyncPlan, before: Realm, session: State, policy: Option<Policy>, run: seq<Event>, part: SyncPlan)
    requires |run| == |plan.operations| && PlanRun(plan, before, run) && PlanFaultless(plan, before, run)
    requires Heeds(session, policy, plan.operations, run) && part == AcceptedPart(plan, session, policy)
    ensures FullRun(part, before, Kept(run)) && StateAfter(before, Kept(run)) == StateAfter(before, run)
    ensures CountApplied(Kept(run)) == CountApplied(run) && CountFailed(Kept(run)) == CountFailed(run)
    ensures part == plan.(operations := RanOps(plan.operations, run))
  {
    InterleavedIsBatch(plan, session, policy, before, run);
    RanAreAccepted(session, policy, plan.operations, run);
    assert plan.operations[..|plan.operations|] == plan.operations;
  }

  lemma {:induction false} FullRunsAgree(
    s: Situation, part: SyncPlan, ys: seq<Item>, a: seq<Event>, b: seq<Event>)
    requires Tidy(s) && Asks(s, part, ys) && FullRun(part, s.start, a) && FullRun(part, s.start, b)
    ensures CountApplied(a) == CountApplied(b) && CountFailed(a) == CountFailed(b)
    ensures SameUpToNewIds(s.start, StateAfter(s.start, a), StateAfter(s.start, b))
  {
    FullItemRun(s, part, ys, s.start, a);
    FullItemRun(s, part, ys, s.start, b);
    AllAsked(s, part, ys);
    TwinRuns(s, ys, a, b);
  }

  /** Reviewing on the way refines reviewing first: a run that follows a session, and a run of its own over the part
      that the same session accepts up front, both without faults, apply and fail as many operations and end in the
      same realm up to the ids of new groups. */
  lemma {:induction false} ReviewsAgree(
    plan: SyncPlan, xs: seq<Item>, irods: IrodsSnapshot, before: Realm, mirror: MirrorSnapshot,
    session: State, policy: Option<Policy>, run: seq<Event>, batch: seq<Event>)
    requires Repairs(plan, xs, irods, before, mirror) && |run| == |plan.operations|
    requires PlanRun(plan, before, run) && PlanFaultless(plan, before, run)
    requires Heeds(session, policy, plan.operations, run)
    requires FullRun(AcceptedPart(plan, session, policy), before, batch)
    ensures CountApplied(run) == CountApplied(batch) && CountFailed(run) == CountFailed(batch)
    ensures SameUpToNewIds(before, StateAfter(before, run), StateAfter(before, batch))
  {
    var s, part := SituationIn(plan.zone, irods, before, mirror), AcceptedPart(plan, session, policy);
    BehindThePlan(plan, xs, irods, before, mirror);
    KeptIsFull(plan, before, session, policy, run, part);
    PartAsks(s, plan, xs, part, run);
    FullRunsAgree(s, part, RanOps(xs, run), Kept(run), batch);
  }

  lemma {:induction false} AllAsked(s: Situation, plan: SyncPlan, xs: seq<Item>)
    requires Asks(s, plan, xs)
    ensures forall x | x in xs :: InDiff(s.irods, s.mirror, x)
  {
  }
}
