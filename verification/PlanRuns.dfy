/** Runs of a plan as runs over the differences that it was made of. */
module PlanRuns {
  import opened Wrappers
  import opened Text
  import opened Realms
  import opened Plans
  import opened Mirrors
  import opened Planner
  import opened Reach
  import opened Runs
  import opened Repair
  import opened Orders

  /** A plan with an id, made in a readable realm, of differences that are fit to be printed. */
  ghost predicate Written(plan: SyncPlan, xs: seq<Item>, irods: IrodsSnapshot, r: Realm, mirror: MirrorSnapshot) {
    && Readable(plan.realm, plan.zone, irods, r, mirror) && IsPlan(plan.realm, plan.zone, irods, mirror, plan, xs)
    && AllFit(plan.zone, irods, mirror) && TrimSpace(plan.planId) != ""
  }

  /** In a readable realm these are exactly the plans that the validator accepts for their own realm and zone. */
  lemma {:induction false} WrittenMeansAccepted(
    plan: SyncPlan, xs: seq<Item>, irods: IrodsSnapshot, r: Realm, mirror: MirrorSnapshot)
    requires Readable(plan.realm, plan.zone, irods, r, mirror)
    requires IsPlan(plan.realm, plan.zone, irods, mirror, plan, xs)
    ensures Written(plan, xs, irods, r, mirror) <==> Acceptable(plan, plan.realm, plan.zone)
  {
    forall x | InDiff(irods, mirror, x) ensures Printed(plan.realm, plan.zone, mirror, x) {
      ReadablePrinted(plan.realm, plan.zone, irods, r, mirror, x);
    }
    if TrimSpace(plan.planId) != "" {
      PlannerOutputAccepted(plan.realm, plan.zone, irods, mirror, plan, xs);
    }
  }

  /** The operations of the plan ask for the calls that remove the differences of a list. */
  ghost predicate Asks(s: Situation, plan: SyncPlan, xs: seq<Item>) {
    && |plan.operations| == |xs|
    && forall i | 0 <= i < |xs| ::
         InDiff(s.irods, s.mirror, xs[i]) && Decode(plan, plan.operations[i]) == Ok(CallOf(s, xs[i]))
  }

  lemma {:induction false} OperationPrints(
    plan: SyncPlan, xs: seq<Item>, irods: IrodsSnapshot, mirror: MirrorSnapshot, i: nat)
    requires IsPlan(plan.realm, plan.zone, irods, mirror, plan, xs) && i < |xs|
    ensures |plan.operations| == |xs| && Prints(plan.operations[i], plan.realm, irods, mirror, xs[i])
  {
    assert plan.operations[i] == Operation(i + 1, plan.realm, irods, mirror, xs[i]);
  }

  lemma {:induction false} WrittenAsks(
    plan: SyncPlan, xs: seq<Item>, irods: IrodsSnapshot, r: Realm, mirror: MirrorSnapshot)
    requires Written(plan, xs, irods, r, mirror)
    ensures Asks(SituationIn(plan.zone, irods, r, mirror), plan, xs)
  {
    var s := SituationIn(plan.zone, irods, r, mirror);
    forall i | 0 <= i < |xs|
      ensures InDiff(irods, mirror, xs[i]) && Decode(plan, plan.operations[i]) == Ok(CallOf(s, xs[i]))
    {
      OperationPrints(plan, xs, irods, mirror, i);
      assert xs[i] in xs;
      DecodedItem(plan, plan.operations[i], irods, r, mirror, xs[i]);
    }
  }

  // ----- runs of the plan are runs over the differences -----

  lemma {:induction false} LawfulIsItemRun(
    s: Situation, xs: seq<Item>, law: Law, ops: seq<PlanOperation>, before: Realm, run: seq<Event>)
    requires |run| <= |ops| == |xs| && Lawful(law, ops, before, run)
    requires forall i, r, e | 0 <= i < |ops| :: law(ops[i], r, e) ==> Happens(s, xs[i], r, e)
    ensures ItemRun(s, xs, before, run)
  {
    if run != [] {
      var n := |run| - 1;
      LawfulIsItemRun(s, xs, law, ops, before, run[..n]);
      assert law(ops[n], StateAfter(before, run[..n]), run[n]);
    }
  }

  /** The event did not fail although Keycloak could have carried the call out. */
  ghost predicate NoFault(s: Situation, x: Item, r: Realm, e: Event) {
    e.Ran? && Enabled(CallOf(s, x), r) ==> e.ok
  }

  lemma {:induction false} LawfulIsFaultless(
    s: Situation, xs: seq<Item>, law: Law, ops: seq<PlanOperation>, before: Realm, run: seq<Event>)
    requires |run| <= |ops| == |xs| && Lawful(law, ops, before, run)
    requires forall i, r, e | 0 <= i < |ops| :: law(ops[i], r, e) ==> NoFault(s, xs[i], r, e)
    ensures Faultless(s, xs, before, run)
  {
    if run != [] {
      var n := |run| - 1;
      LawfulIsFaultless(s, xs, law, ops, before, run[..n]);
      assert law(ops[n], StateAfter(before, run[..n]), run[n]);
      assert NoFault(s, xs[n], StateAfter(before, run[..n]), run[n]);
    }
  }

  lemma {:induction false} PlanRunIsItemRun(s: Situation, plan: SyncPlan, xs: seq<Item>, before: Realm, run: seq<Event>)
    requires Asks(s, plan, xs) && |run| <= |plan.operations| && PlanRun(plan, before, run)
    ensures ItemRun(s, xs, before, run)
  {
    var ops, law := plan.operations, HappensIn(plan);
    forall i, r, e | 0 <= i < |ops| && law(ops[i], r, e) ensures Happens(s, xs[i], r, e) {
      HappensToItem(plan, ops[i], s, xs[i], r, e);
    }
    LawfulIsItemRun(s, xs, law, ops, before, run);
  }

  lemma {:induction false} HappensToItem(plan: SyncPlan, op: PlanOperation, s: Situation, x: Item, r: Realm, e: Event)
    requires Decode(plan, op) == Ok(CallOf(s, x)) && OperationHappens(plan, op, r, e)
    ensures Happens(s, x, r, e)
  {
  }

  lemma {:induction false} FaultlessForItem(
    plan: SyncPlan, op: PlanOperation, s: Situation, x: Item, r: Realm, e: Event)
    requires WellRead(s) && InDiff(s.irods, s.mirror, x)
    requires Decode(plan, op) == Ok(CallOf(s, x)) && OperationFaultless(plan, op, r, e)
    ensures NoFault(s, x, r, e)
  {
    CallIsExact(s, x);
  }

  lemma {:induction false} PlanFaultlessIsFaultless(
    s: Situation, plan: SyncPlan, xs: seq<Item>, before: Realm, run: seq<Event>)
    requires WellRead(s) && Asks(s, plan, xs) && |run| <= |plan.operations| && PlanFaultless(plan, before, run)
    ensures Faultless(s, xs, before, run)
  {
    var ops, law := plan.operations, FaultlessIn(plan);
    forall i, r, e | 0 <= i < |ops| && law(ops[i], r, e) ensures NoFault(s, xs[i], r, e) {
      FaultlessForItem(plan, ops[i], s, xs[i], r, e);
    }
    LawfulIsFaultless(s, xs, law, ops, before, run);
  }

  /** Decoding depends on the zone of the plan only. */
  lemma {:induction false} SameZoneSameCall(plan: SyncPlan, other: SyncPlan, op: PlanOperation)
    requires plan.zone == other.zone
    ensures Decode(plan, op) == Decode(other, op)
  {
  }
}
