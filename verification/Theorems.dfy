/** The main results about repairing: from the planner's plan, through its runs, to the realm that is left. */
module Theorems {
  import opened Wrappers
  import opened Text
  import opened Paths
  import opened Groups
  import opened Realms
  import opened Plans
  import opened Mirrors
  import opened Planner
  import opened Reach
  import opened Remaining
  import opened Runs
  import opened Reruns
  import opened Repair
  import opened RepairService
  import opened Orders
  import opened PlanRuns

  /** A plan with an id, made in an orderly realm, of differences that are fit to be printed. */
  ghost predicate Repairs(plan: SyncPlan, xs: seq<Item>, irods: IrodsSnapshot, r: Realm, mirror: MirrorSnapshot) {
    Written(plan, xs, irods, r, mirror) && Orderly(plan.realm, plan.zone, irods, r, mirror)
  }

  /** In an orderly realm these are exactly the plans that the validator accepts for their own realm and zone. */
  lemma {:induction false} RepairsMeansAccepted(
    plan: SyncPlan, xs: seq<Item>, irods: IrodsSnapshot, r: Realm, mirror: MirrorSnapshot)
    requires Orderly(plan.realm, plan.zone, irods, r, mirror)
    requires IsPlan(plan.realm, plan.zone, irods, mirror, plan, xs)
    ensures Repairs(plan, xs, irods, r, mirror) <==> Acceptable(plan, plan.realm, plan.zone)
  {
    WrittenMeansAccepted(plan, xs, irods, r, mirror);
  }

  /** The differences and the situation behind such a plan. */
  ghost predicate Behind(s: Situation, plan: SyncPlan, xs: seq<Item>) {
    && Tidy(s) && Asks(s, plan, xs) && StrictlySorted(xs) && forall x :: x in xs <==> InDiff(s.irods, s.mirror, x)
  }

  lemma {:induction false} BehindThePlan(
    plan: SyncPlan, xs: seq<Item>, irods: IrodsSnapshot, r: Realm, mirror: MirrorSnapshot)
    requires Repairs(plan, xs, irods, r, mirror)
    ensures Behind(SituationIn(plan.zone, irods, r, mirror), plan, xs)
  {
    OrderlyIsTidy(plan.realm, plan.zone, irods, r, mirror);
    WrittenAsks(plan, xs, irods, r, mirror);
  }

  /** The planner creates a mirror before it adds to it. */
  lemma {:induction false} PlannerCreatesFirst(s: Situation, xs: seq<Item>)
    requires StrictlySorted(xs) && forall x :: x in xs <==> InDiff(s.irods, s.mirror, x)
    ensures CreatesFirst(s, xs)
  {
    forall i | 0 <= i < |xs| && xs[i].Absent? && xs[i].group !in s.mirror
      ensures exists j | 0 <= j < i :: xs[j] == Missing(xs[i].group)
    {
      var create := Missing(xs[i].group);
      assert xs[i] in xs;
      assert InDiff(s.irods, s.mirror, create);
      var j :| 0 <= j < |xs| && xs[j] == create;
      assert !Before(xs[i], xs[j]);
    }
  }

  // ----- the promises of repair -----

  /** Repair makes the mirror match iRODS. After a run that applied the whole plan, the mirror read back shows exactly
      the groups and members of iRODS, and any new plan is empty. */
  lemma {:induction false} RepairConverges(
    plan: SyncPlan, xs: seq<Item>, irods: IrodsSnapshot, before: Realm, mirror: MirrorSnapshot,
    run: seq<Event>, readBack: MirrorSnapshot, next: SyncPlan, ys: seq<Item>)
    requires Repairs(plan, xs, irods, before, mirror)
    requires |run| == |plan.operations| && PlanRun(plan, before, run) && AllApplied(run)
    requires IsSnapshot(ZoneNaming(plan.zone), StateAfter(before, run), readBack)
    requires IsPlan(plan.realm, plan.zone, irods, readBack, next, ys)
    ensures Converged(irods, readBack) && next.operations == []
  {
    var s := SituationIn(plan.zone, irods, before, mirror);
    BehindThePlan(plan, xs, irods, before, mirror);
    PlanRunIsItemRun(s, plan, xs, before, run);
    SortedHasNoRepeats(xs);
    Convergence(s, xs, run, readBack);
    PlanLength(irods, readBack, ys);
  }

  /** A run in which nothing is left out and nothing fails for reasons of its own applies the whole plan, if and only if
      Keycloak knows all the users to be added. */
  lemma {:induction false} RepairSucceeds(
    plan: SyncPlan, xs: seq<Item>, irods: IrodsSnapshot, before: Realm, mirror: MirrorSnapshot, run: seq<Event>)
    requires Repairs(plan, xs, irods, before, mirror)
    requires |run| == |plan.operations| && PlanRun(plan, before, run) && PlanFaultless(plan, before, run)
    requires forall i | 0 <= i < |run| :: run[i].Ran?
    ensures AllApplied(run) <==> UsersKnown(SituationIn(plan.zone, irods, before, mirror))
  {
    var s := SituationIn(plan.zone, irods, before, mirror);
    BehindThePlan(plan, xs, irods, before, mirror);
    PlanRunIsItemRun(s, plan, xs, before, run);
    SortedHasNoRepeats(xs);
    if UsersKnown(s) {
      PlanFaultlessIsFaultless(s, plan, xs, before, run);
      PlannerCreatesFirst(s, xs);
      ReachedAtStart(s);
      OrderedRunSucceeds(s, xs, {}, s.start, run);
    } else if AllApplied(run) {
      AppliedMeansKnown(s, xs, run);
    }
  }

  /** The plan is empty if and only if the mirror shows exactly what iRODS has. */
  lemma {:induction false} EmptyPlanMeansConverged(
    realm: string, zone: string, irods: IrodsSnapshot, mirror: MirrorSnapshot, plan: SyncPlan, xs: seq<Item>)
    requires IsPlan(realm, zone, irods, mirror, plan, xs)
    ensures plan.operations == [] <==> Converged(irods, mirror)
  {
    PlanLength(irods, mirror, xs);
    NoDiffIsConverged(irods, mirror);
  }

  /** The length of a plan is the drift: whatever was left out, and whatever failed, the next plan is shorter by what
      was applied at least, by exactly what the applied operations remove when failures had no effect, and that is as
      many as were applied when no stale mirror lies below another. */
  lemma {:induction false} PlanLengthMeasuresDrift(
    plan: SyncPlan, xs: seq<Item>, irods: IrodsSnapshot, before: Realm, mirror: MirrorSnapshot,
    run: seq<Event>, readBack: MirrorSnapshot, next: SyncPlan, ys: seq<Item>)
    requires Repairs(plan, xs, irods, before, mirror)
    requires |run| == |plan.operations| && PlanRun(plan, before, run)
    requires IsSnapshot(ZoneNaming(plan.zone), StateAfter(before, run), readBack)
    requires IsPlan(plan.realm, plan.zone, irods, readBack, next, ys)
    ensures |next.operations| + CountApplied(run) <= |plan.operations| == |xs|
    ensures Atomic(before, run) ==>
              |next.operations| ==
              |plan.operations| - |Effects(SituationIn(plan.zone, irods, before, mirror), AppliedItems(xs, run))|
    ensures Atomic(before, run) && StaleApart(SituationIn(plan.zone, irods, before, mirror)) ==>
              |next.operations| == |plan.operations| - CountApplied(run)
  {
    var s := SituationIn(plan.zone, irods, before, mirror);
    BehindThePlan(plan, xs, irods, before, mirror);
    PlanRunIsItemRun(s, plan, xs, before, run);
    SortedHasNoRepeats(xs);
    DriftGoesDown(s, xs, run, SituationIn(plan.zone, irods, StateAfter(before, run), readBack));
    PlanLength(irods, mirror, xs);
    PlanLength(irods, readBack, ys);
  }

  /** The realm that a run leaves is orderly again, so the next round starts from the same assumptions. */
  lemma {:induction false} StaysOrderly(
    plan: SyncPlan, xs: seq<Item>, irods: IrodsSnapshot, before: Realm, mirror: MirrorSnapshot,
    run: seq<Event>, readBack: MirrorSnapshot)
    requires Repairs(plan, xs, irods, before, mirror)
    requires |run| <= |plan.operations| && PlanRun(plan, before, run)
    requires IsSnapshot(ZoneNaming(plan.zone), StateAfter(before, run), readBack)
    requires forall g | g in readBack :: readBack[g].zone == plan.zone
    ensures Orderly(plan.realm, plan.zone, irods, StateAfter(before, run), readBack)
  {
    var s := SituationIn(plan.zone, irods, before, mirror);
    BehindThePlan(plan, xs, irods, before, mirror);
    PlanRunIsItemRun(s, plan, xs, before, run);
    SortedHasNoRepeats(xs);
    TidyAfterRun(s, xs, run, readBack);
    TidyIsOrderly(plan.realm, plan.zone, irods, StateAfter(before, run), readBack);
  }

  lemma {:induction false} TidyIsOrderly(
    realm: string, zone: string, irods: IrodsSnapshot, r: Realm, mirror: MirrorSnapshot)
    requires Tidy(SituationIn(zone, irods, r, mirror)) && Named(realm) && Named(zone)
    requires forall g | g in mirror :: mirror[g].zone == zone
    ensures Orderly(realm, zone, irods, r, mirror)
  {
  }

  /** Differences that are left are printed the same way in the next plan. */
  lemma {:induction false} SamePrint(s: Situation, readBack: MirrorSnapshot, x: Item)
    requires s.naming.root == "irods" && PlacesFollow(s, readBack, x.group) && InDiff(s.irods, readBack, x)
    requires x.group in s.irods ==> CleanName(x.group)
    ensures GroupPath(readBack, x.group) == GroupPath(s.mirror, x.group)
  {
    if x.group in readBack && x.group !in s.mirror {
      MirrorPathOf(x.group);
      PathStart(Spot(s.naming, x.group));
    }
  }

  lemma {:induction false} StaysFit(zone: string, s: Situation, readBack: MirrorSnapshot, x: Item)
    requires s.naming.root == "irods" && PlacesFollow(s, readBack, x.group)
    requires x.group in s.irods ==> CleanName(x.group)
    requires forall g | g in s.mirror :: s.mirror[g].zone == zone
    requires forall g | g in readBack :: readBack[g].zone == zone
    requires InDiff(s.irods, readBack, x) && InDiff(s.irods, s.mirror, x) && Fit(zone, s.irods, s.mirror, x)
    ensures Fit(zone, s.irods, readBack, x)
  {
    SamePrint(s, readBack, x);
  }

  /** A plan made after a run is again one that the validator accepts, and all that is said here holds of it too. */
  lemma {:induction false} NextPlanRepairs(
    plan: SyncPlan, xs: seq<Item>, irods: IrodsSnapshot, before: Realm, mirror: MirrorSnapshot,
    run: seq<Event>, readBack: MirrorSnapshot, next: SyncPlan, ys: seq<Item>)
    requires Repairs(plan, xs, irods, before, mirror) && |run| <= |plan.operations| && PlanRun(plan, before, run)
    requires IsSnapshot(ZoneNaming(plan.zone), StateAfter(before, run), readBack)
    requires forall g | g in readBack :: readBack[g].zone == plan.zone
    requires IsPlan(plan.realm, plan.zone, irods, readBack, next, ys) && TrimSpace(next.planId) != ""
    ensures Repairs(next, ys, irods, StateAfter(before, run), readBack)
  {
    StaysOrderly(plan, xs, irods, before, mirror, run, readBack);
    NextPlanFits(plan, xs, irods, before, mirror, run, readBack);
    assert next.realm == plan.realm && next.zone == plan.zone;
    OrderlyRepairs(next, ys, irods, StateAfter(before, run), readBack);
  }

  lemma {:induction false} NextPlanFits(
    plan: SyncPlan, xs: seq<Item>, irods: IrodsSnapshot, before: Realm, mirror: MirrorSnapshot,
    run: seq<Event>, readBack: MirrorSnapshot)
    requires Repairs(plan, xs, irods, before, mirror)
    requires |run| <= |plan.operations| && PlanRun(plan, before, run)
    requires IsSnapshot(ZoneNaming(plan.zone), StateAfter(before, run), readBack)
    requires forall g | g in readBack :: readBack[g].zone == plan.zone
    ensures AllFit(plan.zone, irods, readBack)
  {
    var s := SituationIn(plan.zone, irods, before, mirror);
    BehindThePlan(plan, xs, irods, before, mirror);
    PlanRunIsItemRun(s, plan, xs, before, run);
    AllStayFit(plan.zone, s, xs, run, readBack);
  }

  lemma {:induction false} OrderlyRepairs(
    plan: SyncPlan, xs: seq<Item>, irods: IrodsSnapshot, r: Realm, mirror: MirrorSnapshot)
    requires Orderly(plan.realm, plan.zone, irods, r, mirror) && AllFit(plan.zone, irods, mirror)
    requires IsPlan(plan.realm, plan.zone, irods, mirror, plan, xs) && TrimSpace(plan.planId) != ""
    ensures Repairs(plan, xs, irods, r, mirror)
  {
  }

  lemma {:induction false} AllStayFit(
    zone: string, s: Situation, xs: seq<Item>, run: seq<Event>, readBack: MirrorSnapshot)
    requires Tidy(s) && s.naming.root == "irods" && (forall x | x in xs :: InDiff(s.irods, s.mirror, x))
    requires |run| <= |xs| && ItemRun(s, xs, s.start, run) && IsSnapshot(s.naming, StateAfter(s.start, run), readBack)
    requires forall g | g in s.mirror :: s.mirror[g].zone == zone
    requires forall g | g in readBack :: readBack[g].zone == zone
    requires AllFit(zone, s.irods, s.mirror)
    ensures AllFit(zone, s.irods, readBack)
  {
    var r := StateAfter(s.start, run);
    var done := RunReaches(s, xs, run);
    forall x | InDiff(s.irods, readBack, x) ensures Fit(zone, s.irods, readBack, x) {
      RemainingDiff(s, done, r, readBack, x);
      NowPlaced(s, done, r, readBack, x.group);
      StaysFit(zone, s, readBack, x);
    }
  }

  /** One round of planning and applying. */
  datatype Turn = Turn(plan: SyncPlan, xs: seq<Item>, start: Realm, mirror: MirrorSnapshot, run: seq<Event>)

  /** The turn plans from what it reads, in the same realm and zone, runs its plan, and applies something. */
  ghost predicate Progresses(t: Turn, realm: string, zone: string, irods: IrodsSnapshot) {
    && IsPlan(realm, zone, irods, t.mirror, t.plan, t.xs) && TrimSpace(t.plan.planId) != ""
    && IsSnapshot(ZoneNaming(zone), t.start, t.mirror) && (forall g | g in t.mirror :: t.mirror[g].zone == zone)
    && |t.run| == |t.plan.operations| && PlanRun(t.plan, t.start, t.run) && CountApplied(t.run) >= 1
  }

  /** Repairing ends: rounds that each apply something, in an orderly realm that nobody else changes, are never more
      than the first plan is long; every one of their plans is accepted. */
  lemma {:induction false} RepairingEnds(turns: seq<Turn>, irods: IrodsSnapshot)
    requires turns != [] && var t := turns[0]; Repairs(t.plan, t.xs, irods, t.start, t.mirror)
    requires forall i | 0 <= i < |turns| :: Progresses(turns[i], turns[0].plan.realm, turns[0].plan.zone, irods)
    requires forall i | 0 <= i < |turns| - 1 :: turns[i + 1].start == StateAfter(turns[i].start, turns[i].run)
    ensures var t := turns[|turns| - 1]; Repairs(t.plan, t.xs, irods, t.start, t.mirror)
    ensures |turns| - 1 + |turns[|turns| - 1].plan.operations| <= |turns[0].plan.operations|
    ensures |turns| <= |turns[0].plan.operations|
    decreases |turns|
  {
    var last := turns[|turns| - 1];
    assert Progresses(last, turns[0].plan.realm, turns[0].plan.zone, irods);
    AppliedAtMost(last.run);
    if |turns| > 1 {
      var n := |turns| - 1;
      var prior := turns[n - 1];
      RepairingEnds(turns[..n], irods);
      assert Progresses(prior, turns[0].plan.realm, turns[0].plan.zone, irods);
      assert turns[n].start == StateAfter(turns[n - 1].start, turns[n - 1].run);
      NextPlanRepairs(prior.plan, prior.xs, irods, prior.start, prior.mirror, prior.run, last.mirror, last.plan,
          last.xs);
      PlanLengthMeasuresDrift(prior.plan, prior.xs, irods, prior.start, prior.mirror, prior.run,
                              last.mirror, last.plan, last.xs);
    }
  }

  lemma {:induction false} AppliedAtMost(run: seq<Event>)
    ensures CountApplied(run) <= |run|
  {
    if run != [] {
      AppliedAtMost(run[..|run| - 1]);
    }
  }

  /** Repeat apply is safe: running the same plan again after it was fully applied changes nothing, and when nothing
      fails for reasons of its own it counts every operation as applied once more. */
  lemma {:induction false} RepeatIsSafe(
    plan: SyncPlan, xs: seq<Item>, irods: IrodsSnapshot, before: Realm, mirror: MirrorSnapshot,
    run: seq<Event>, again: seq<Event>)
    requires Repairs(plan, xs, irods, before, mirror)
    requires |run| == |plan.operations| && PlanRun(plan, before, run) && AllApplied(run)
    requires |again| <= |plan.operations| && PlanRun(plan, StateAfter(before, run), again)
    ensures StateAfter(StateAfter(before, run), again) == StateAfter(before, run)
    ensures PlanFaultless(plan, StateAfter(before, run), again) && (forall i | 0 <= i < |again| :: again[i].Ran?) ==>
              AllApplied(again)
  {
    var s, r := SituationIn(plan.zone, irods, before, mirror), StateAfter(before, run);
    BehindThePlan(plan, xs, irods, before, mirror);
    PlanRunIsItemRun(s, plan, xs, before, run);
    PlanRunIsItemRun(s, plan, xs, r, again);
    FullRunReaches(s, xs, run);
    RepeatChangesNothing(s, r, xs, again);
    if PlanFaultless(plan, r, again) && forall i | 0 <= i < |again| :: again[i].Ran? {
      PlanFaultlessIsFaultless(s, plan, xs, r, again);
      RepeatSucceeds(s, r, xs, again);
    }
  }

  /** What is not a mirror of the zone keeps its id, place, attributes and members through any run, unless a stale
      mirror above it is deleted; then it goes along. */
  lemma {:induction false} OthersUntouched(
    plan: SyncPlan, xs: seq<Item>, irods: IrodsSnapshot, before: Realm, mirror: MirrorSnapshot, run: seq<Event>,
    id: string)
    requires Repairs(plan, xs, irods, before, mirror) && |run| <= |plan.operations| && PlanRun(plan, before, run)
    requires id in before.groups && NameIn(ZoneNaming(plan.zone), before, id).None?
    ensures |xs| == |plan.operations|
    ensures var after, s := StateAfter(before, run), SituationIn(plan.zone, irods, before, mirror);
      && (id in after.groups ==> after.groups[id] == before.groups[id])
      && (id !in after.groups ==> DeletionTried(s, xs, run, id))
      && (DeletionDone(s, xs, run, id) ==> id !in after.groups)
  {
    var s := SituationIn(plan.zone, irods, before, mirror);
    BehindThePlan(plan, xs, irods, before, mirror);
    PlanRunIsItemRun(s, plan, xs, before, run);
    UnmanagedUntouched(s, xs, run, id);
  }

  /** The attributes give the group to another zone or to another authority. */
  predicate Foreign(zone: string, attributes: Attributes) {
    || (ZoneAttribute in attributes && FirstNonEmpty(attributes[ZoneAttribute]) !in ["", zone])
    || (AuthorityAttribute in attributes && FirstNonEmpty(attributes[AuthorityAttribute]) != ""
       && Lower(FirstNonEmpty(attributes[AuthorityAttribute])) != "irods")
  }

  /** In particular, what belongs to another zone or authority is never changed, whatever its name and place. */
  lemma {:induction false} ForeignUntouched(
    plan: SyncPlan, xs: seq<Item>, irods: IrodsSnapshot, before: Realm, mirror: MirrorSnapshot, run: seq<Event>,
    id: string)
    requires Repairs(plan, xs, irods, before, mirror) && |run| <= |plan.operations| && PlanRun(plan, before, run)
    requires id in before.groups && Foreign(plan.zone, before.groups[id].attributes)
    ensures id in StateAfter(before, run).groups ==> StateAfter(before, run).groups[id] == before.groups[id]
    ensures id !in StateAfter(before, run).groups ==>
              |xs| == |plan.operations| && DeletionTried(SituationIn(plan.zone, irods, before, mirror), xs, run, id)
  {
    if NameIn(ZoneNaming(plan.zone), before, id).Some? {
      var record := before.groups[id];
      MirrorsAreOurs(plan.zone, Group("", PathOf(record.segs), Name(record.segs), record.attributes));
      assert false;
    }
    OthersUntouched(plan, xs, irods, before, mirror, run, id);
  }

  /** The only new group that is no mirror is the plain /irods root. */
  lemma {:induction false} OnlyRootAdded(
    plan: SyncPlan, xs: seq<Item>, irods: IrodsSnapshot, before: Realm, mirror: MirrorSnapshot, run: seq<Event>,
    id: string)
    requires Repairs(plan, xs, irods, before, mirror) && |run| <= |plan.operations| && PlanRun(plan, before, run)
    requires var after := StateAfter(before, run);
             id in after.groups && id !in before.groups && NameIn(ZoneNaming(plan.zone), after, id).None?
    ensures StateAfter(before, run).groups[id] == Record(["irods"], map[], {})
  {
    var s := SituationIn(plan.zone, irods, before, mirror);
    BehindThePlan(plan, xs, irods, before, mirror);
    PlanRunIsItemRun(s, plan, xs, before, run);
    OnlyRootIsNew(s, xs, run, id);
  }
}
