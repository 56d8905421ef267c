/** How far a round of planning and applying gets: how much shorter the next plan is, and what is left in the end. */
module Progress {
  import opened Realms
  import opened Plans
  import opened Mirrors
  import opened Planner
  import opened Reach
  import opened Readings
  import opened Remaining
  import opened Runs
  import opened Reruns
  import opened Repair
  import opened RepairService
  import opened Orders
  import opened PlanRuns
  import opened Deletions
  import opened Batches
  import opened Theorems
  import opened Comparisons

  // ----- exactly as much shorter as was applied -----

  /** Whatever is left out, every run in which failures have no effect shortens the plan by exactly what it applied. */
  ghost predicate ShortensExactly(plan: SyncPlan, irods: IrodsSnapshot, before: Realm) {
    forall run, readBack, next, ys |
      && |run| == |plan.operations| && PlanRun(plan, before, run) && Atomic(before, run)
      && IsSnapshot(ZoneNaming(plan.zone), StateAfter(before, run), readBack)
      && IsPlan(plan.realm, plan.zone, irods, readBack, next, ys) ::
      |next.operations| == |plan.operations| - CountApplied(run)
  }

  lemma {:induction false} OnlyRanCounts(xs: seq<Item>, i: nat, e: Event, before: Realm, k: nat)
    requires i < |xs| && k <= |xs| && e.Ran? && e.ok
    ensures var run := OnlyRan(|xs|, i, e)[..k];
            && Atomic(before, run) && CountApplied(run) == (if k <= i then 0 else 1)
            && AppliedItems(xs, run) == if k <= i then {} else {xs[i]}
  {
    if k > 0 {
      OnlyRanCounts(xs, i, e, before, k - 1);
      var run := OnlyRan(|xs|, i, e);
      assert run[..k][..k - 1] == run[..k - 1];
    }
  }

  lemma {:induction false} OneDeleted(s: Situation, plan: SyncPlan, xs: seq<Item>, g: string, i: nat)
    returns (run: seq<Event>, e: Event)
    requires WellRead(s) && Asks(s, plan, xs) && i < |xs| && xs[i] == Stale(g) && g in s.mirror
    ensures run == OnlyRan(|xs|, i, e) && |run| == |xs| && e.Ran? && e.ok
    ensures PlanRun(plan, s.start, run) && ValidRealm(StateAfter(s.start, run))
  {
    e := Ran(true, DeleteSubtree(s.start, s.mirror[g].id));
    run := OnlyRan(|xs|, i, e);
    DeletionRun(s, plan, xs, i, e, run);
    DeleteKeepsValid(s.start, s.mirror[g].id);
  }

  lemma {:induction false} OneCounts(xs: seq<Item>, i: nat, e: Event, before: Realm)
    requires i < |xs| && e.Ran? && e.ok
    ensures var run := OnlyRan(|xs|, i, e);
            Atomic(before, run) && CountApplied(run) == 1 && AppliedItems(xs, run) == {xs[i]}
  {
    OnlyRanCounts(xs, i, e, before, |xs|);
    assert OnlyRan(|xs|, i, e)[..|xs|] == OnlyRan(|xs|, i, e);
  }

  /** Deleting a stale mirror with another below it removes two differences with one operation. */
  lemma {:induction false} NestedRemovesMore(
    s: Situation, plan: SyncPlan, xs: seq<Item>, g: string, h: string, i: nat)
    returns (run: seq<Event>)
    requires WellRead(s) && Asks(s, plan, xs) && i < |xs| && xs[i] == Stale(g)
    requires IsStale(s, g) && Nested(s, g, h) && g != h
    ensures |run| == |xs| && PlanRun(plan, s.start, run) && Atomic(s.start, run) && CountApplied(run) == 1
    ensures |Effects(s, AppliedItems(xs, run))| >= 2 && ValidRealm(StateAfter(s.start, run))
  {
    var e;
    run, e := OneDeleted(s, plan, xs, g, i);
    OneCounts(xs, i, e, s.start);
    TwoStale(s, g, h);
  }

  lemma {:induction false} TwoStale(s: Situation, g: string, h: string)
    requires WellRead(s) && IsStale(s, g) && Nested(s, g, h) && g != h
    ensures |Effects(s, {Stale(g)})| >= 2
  {
    OwnEffect(s, Stale(g));
    assert Stale(h) in Effect(s, Stale(g));
    Subsets({Stale(g), Stale(h)}, Effects(s, {Stale(g)}));
  }

  lemma {:induction false} RemovesTooMuch(
    plan: SyncPlan, xs: seq<Item>, irods: IrodsSnapshot, before: Realm, mirror: MirrorSnapshot, run: seq<Event>)
    requires Repairs(plan, xs, irods, before, mirror)
    requires |run| == |plan.operations| == |xs| && PlanRun(plan, before, run) && Atomic(before, run)
    requires CountApplied(run) == 1 && ValidRealm(StateAfter(before, run))
    requires |Effects(SituationIn(plan.zone, irods, before, mirror), AppliedItems(xs, run))| >= 2
    ensures !ShortensExactly(plan, irods, before)
  {
    var readBack := SnapshotExists(ZoneNaming(plan.zone), StateAfter(before, run), plan.zone);
    var next, ys := PlanExists(plan.realm, plan.zone, irods, readBack, "");
    PlanLengthMeasuresDrift(plan, xs, irods, before, mirror, run, readBack, next, ys);
  }

  lemma {:induction false} NotExactIfNested(
    plan: SyncPlan, xs: seq<Item>, irods: IrodsSnapshot, before: Realm, mirror: MirrorSnapshot, g: string, h: string)
    requires Repairs(plan, xs, irods, before, mirror)
    requires var s := SituationIn(plan.zone, irods, before, mirror); IsStale(s, g) && Nested(s, g, h) && g != h
    ensures !ShortensExactly(plan, irods, before)
  {
    var s := SituationIn(plan.zone, irods, before, mirror);
    BehindThePlan(plan, xs, irods, before, mirror);
    var i := IndexOf(s, xs, Stale(g));
    var run := NestedRemovesMore(s, plan, xs, g, h, i);
    RemovesTooMuch(plan, xs, irods, before, mirror, run);
  }

  lemma {:induction false} IndexOf(s: Situation, xs: seq<Item>, x: Item) returns (i: nat)
    requires InDiff(s.irods, s.mirror, x) && forall x :: x in xs <==> InDiff(s.irods, s.mirror, x)
    ensures i < |xs| && xs[i] == x
  {
    assert x in xs;
    i :| 0 <= i < |xs| && xs[i] == x;
  }

  /** The plan gets shorter by exactly what is applied, in every such run, if and only if no stale mirror lies below
      another. */
  lemma {:induction false} ExactIfApart(
    plan: SyncPlan, xs: seq<Item>, irods: IrodsSnapshot, before: Realm, mirror: MirrorSnapshot)
    requires Repairs(plan, xs, irods, before, mirror)
    ensures ShortensExactly(plan, irods, before) <==> StaleApart(SituationIn(plan.zone, irods, before, mirror))
  {
    var s := SituationIn(plan.zone, irods, before, mirror);
    if StaleApart(s) {
      forall run, readBack, next, ys |
        && |run| == |plan.operations| && PlanRun(plan, before, run) && Atomic(before, run)
        && IsSnapshot(ZoneNaming(plan.zone), StateAfter(before, run), readBack)
        && IsPlan(plan.realm, plan.zone, irods, readBack, next, ys)
        ensures |next.operations| == |plan.operations| - CountApplied(run)
      {
        PlanLengthMeasuresDrift(plan, xs, irods, before, mirror, run, readBack, next, ys);
      }
    } else {
      var g, h :| IsStale(s, g) && Nested(s, g, h) && g != h;
      NotExactIfNested(plan, xs, irods, before, mirror, g, h);
    }
  }

  // ----- what is left in the end -----

  /** The difference is not the addition of a user that Keycloak does not know. */
  ghost predicate Known(s: Situation, x: Item) {
    x.Absent? ==> IsUsername(s.start, x.user)
  }

  /** With nothing left out and no faults, exactly the differences about known users are removed. */
  lemma {:induction false} OkMeansKnown(s: Situation, xs: seq<Item>, run: seq<Event>, i: nat)
    requires Tidy(s) && CreatesFirst(s, xs) && (forall x | x in xs :: InDiff(s.irods, s.mirror, x))
    requires i < |run| <= |xs| && ItemRun(s, xs, s.start, run) && Faultless(s, xs, s.start, run) && AllRan(run)
    ensures run[i].ok <==> Known(s, xs[i])
    decreases i
  {
    var x := xs[i];
    assert x in xs;
    RunAt(s, xs, s.start, run, i);
    OkMeansEnabled(s, xs, s.start, run, i);
    var done := RunReaches(s, xs, run[..i]);
    ItemEnabled(s, done, StateAfter(s.start, run[..i]), x);
    if x.Absent? && x.group !in s.mirror {
      var j :| 0 <= j < i && xs[j] == Missing(x.group);
      OkMeansKnown(s, xs, run, j);
      AppliedAt(xs, run[..i], j);
    }
  }

  lemma {:induction false} AppliedAreKnown(s: Situation, xs: seq<Item>, run: seq<Event>, k: nat)
    requires k <= |run| <= |xs|
    requires forall i | 0 <= i < |run| :: run[i].Ran? && (run[i].ok <==> Known(s, xs[i]))
    ensures forall x :: x in AppliedItems(xs, run[..k]) <==> x in xs[..k] && Known(s, x)
    ensures CountApplied(run[..k]) == 0 <==> AppliedItems(xs, run[..k]) == {}
  {
    if k > 0 {
      AppliedAreKnown(s, xs, run, k - 1);
      AppliedSnoc(xs, run, k - 1);
      assert xs[..k] == xs[..k - 1] + [xs[k - 1]];
    }
  }

  lemma {:induction false} AppliedSnoc(xs: seq<Item>, run: seq<Event>, k: nat)
    requires k < |run| <= |xs| && run[k].Ran?
    ensures AppliedItems(xs, run[..k + 1]) == AppliedItems(xs, run[..k]) + if run[k].ok then {xs[k]} else {}
    ensures CountApplied(run[..k + 1]) == CountApplied(run[..k]) + if run[k].ok then 1 else 0
  {
    assert run[..k + 1][..k] == run[..k];
  }

  lemma {:induction false} EffectKnown(s: Situation, y: Item, x: Item)
    requires Known(s, y) && x in Effect(s, y)
    ensures Known(s, x)
  {
  }

  lemma {:induction false} UnknownRemain(s: Situation, xs: seq<Item>, run: seq<Event>, after: MirrorSnapshot, x: Item)
    requires Tidy(s) && CreatesFirst(s, xs) && (forall x :: x in xs <==> InDiff(s.irods, s.mirror, x))
    requires |run| == |xs| && ItemRun(s, xs, s.start, run) && Faultless(s, xs, s.start, run) && AllRan(run)
    requires IsSnapshot(s.naming, StateAfter(s.start, run), after)
    ensures InDiff(s.irods, after, x) <==> InDiff(s.irods, s.mirror, x) && !Known(s, x)
  {
    var done := RunReaches(s, xs, run);
    FaultlessIsAtomic(s, xs, s.start, run);
    AllAppliedAreKnown(s, xs, run);
    RemainingDiff(s, done, StateAfter(s.start, run), after, x);
    if x in done {
      var y :| y in AppliedItems(xs, run) && x in Effect(s, y);
      EffectKnown(s, y, x);
    }
  }

  lemma {:induction false} AllAppliedAreKnown(s: Situation, xs: seq<Item>, run: seq<Event>)
    requires Tidy(s) && CreatesFirst(s, xs) && (forall x | x in xs :: InDiff(s.irods, s.mirror, x))
    requires |run| == |xs| && ItemRun(s, xs, s.start, run) && Faultless(s, xs, s.start, run) && AllRan(run)
    ensures forall x :: x in AppliedItems(xs, run) <==> x in xs && Known(s, x)
    ensures CountApplied(run) == 0 <==> forall x | x in xs :: !Known(s, x)
  {
    forall i | 0 <= i < |run| ensures run[i].Ran? && (run[i].ok <==> Known(s, xs[i])) {
      OkMeansKnown(s, xs, run, i);
    }
    AppliedAreKnown(s, xs, run, |run|);
    assert run[..|run|] == run && xs[..|run|] == xs;
    if CountApplied(run) != 0 {
      var x :| x in AppliedItems(xs, run);
    }
  }

  lemma {:induction false} BehindFullRun(
    plan: SyncPlan, xs: seq<Item>, irods: IrodsSnapshot, before: Realm, mirror: MirrorSnapshot, run: seq<Event>)
    requires Repairs(plan, xs, irods, before, mirror) && FullRun(plan, before, run)
    ensures var s := SituationIn(plan.zone, irods, before, mirror);
            && Tidy(s) && CreatesFirst(s, xs) && (forall x :: x in xs <==> InDiff(irods, mirror, x))
            && |run| == |xs| && ItemRun(s, xs, before, run) && Faultless(s, xs, before, run)
  {
    var s := SituationIn(plan.zone, irods, before, mirror);
    BehindThePlan(plan, xs, irods, before, mirror);
    FullItemRun(s, plan, xs, before, run);
    PlannerCreatesFirst(s, xs);
  }

  /** After one round with nothing left out and no faults, exactly the additions of unknown users are left. */
  lemma {:induction false} OnlyUnknownLeft(
    plan: SyncPlan, xs: seq<Item>, irods: IrodsSnapshot, before: Realm, mirror: MirrorSnapshot,
    run: seq<Event>, after: MirrorSnapshot)
    requires Repairs(plan, xs, irods, before, mirror) && FullRun(plan, before, run)
    requires IsSnapshot(ZoneNaming(plan.zone), StateAfter(before, run), after)
    ensures forall x :: InDiff(irods, after, x) <==> x in xs && x.Absent? && !IsUsername(before, x.user)
  {
    var s := SituationIn(plan.zone, irods, before, mirror);
    BehindFullRun(plan, xs, irods, before, mirror, run);
    forall x ensures InDiff(irods, after, x) <==> x in xs && x.Absent? && !IsUsername(before, x.user) {
      UnknownRemain(s, xs, run, after, x);
    }
  }

  /** Repairing has come to its end, in that such a round applies nothing, if and only if the plan only adds unknown
      users; and when all users are known, if and only if the mirror shows exactly what iRODS has. */
  lemma {:induction false} StuckMeansConverged(
    plan: SyncPlan, xs: seq<Item>, irods: IrodsSnapshot, before: Realm, mirror: MirrorSnapshot, run: seq<Event>)
    requires Repairs(plan, xs, irods, before, mirror) && FullRun(plan, before, run)
    ensures CountApplied(run) == 0 <==> forall x | x in xs :: x.Absent? && !IsUsername(before, x.user)
    ensures UsersKnown(SituationIn(plan.zone, irods, before, mirror)) ==>
              (CountApplied(run) == 0 <==> Converged(irods, mirror))
  {
    var s := SituationIn(plan.zone, irods, before, mirror);
    BehindFullRun(plan, xs, irods, before, mirror, run);
    AllAppliedAreKnown(s, xs, run);
    EmptyPlanMeansConverged(plan.realm, plan.zone, irods, mirror, plan, xs);
    if xs != [] && UsersKnown(s) {
      assert xs[0] in xs && Known(s, xs[0]);
    }
  }
}
