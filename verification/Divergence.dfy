/** Exactly when a fully applied plan brings the mirror in line: what deletions take along, and what sits in the spots
    of missing mirrors. */
module Divergence {
  import opened Wrappers
  import opened Realms
  import opened Mirrors
  import opened Plans
  import opened Reach
  import opened Occupied
  import opened Runs
  import opened RepairService
  import opened Repair
  import opened Orders
  import opened PlanRuns
  import opened Deletions

  // ----- what groups are called during a run -----

  /** A group in the spot of a missing mirror that carries just its marks. */
  predicate SpotMarked(s: Situation, record: Record) {
    MissingSpot(s, record.segs) && record.attributes == s.naming.marks(record.segs[1])
  }

  /** A group that came since is the plain root or a marked mirror. */
  predicate Labelled(s: Situation, record: Record) {
    (record.segs == [s.naming.root] && record.attributes == map[]) || SpotMarked(s, record)
  }

  /** Groups from the start keep their attributes or are marked in a spot, and the others are labelled. */
  ghost predicate AllLabelled(s: Situation, r: Realm) {
    forall id | id in r.groups ::
      if id in s.start.groups
        then r.groups[id].attributes == s.start.groups[id].attributes || SpotMarked(s, r.groups[id])
        else Labelled(s, r.groups[id])
  }

  /** Groups may have gone, or got other members. */
  ghost predicate KeepsLabels(r: Realm, r': Realm) {
    forall id | id in r'.groups ::
      id in r.groups && r'.groups[id].segs == r.groups[id].segs && r'.groups[id].attributes == r.groups[id].attributes
  }

  lemma {:induction false} MemberKeepsLabels(call: Call, r: Realm, r': Realm)
    requires (call.AddUserToGroup? || call.RemoveUserFromGroup?) && Enabled(call, r) && Performed(call, r, r')
    ensures KeepsLabels(r, r')
  {
    if uid, gid :| Both(r, call.user, call.group, uid, gid) {
      assert gid in r.groups;
    }
  }

  lemma {:induction false} DeleteKeepsLabels(call: Call, r: Realm, r': Realm)
    requires call.DeleteGroup? && Performed(call, r, r')
    ensures KeepsLabels(r, r')
  {
    if gid :| IsGroup(r, call.group, gid) {
      assert r' == DeleteSubtree(r, gid);
    }
  }

  lemma {:induction false} OtherKeepsLabels(call: Call, r: Realm, ok: bool, r': Realm)
    requires !call.CreateOrUpdateGroup? && Exact(call) && Permits(call, r, ok, r')
    ensures KeepsLabels(r, r')
  {
    if Enabled(call, r) && Performed(call, r, r') {
      if call.DeleteGroup? {
        DeleteKeepsLabels(call, r, r');
      } else {
        MemberKeepsLabels(call, r, r');
      }
    }
  }

  lemma {:induction false} LabelsKept(s: Situation, r: Realm, r': Realm)
    requires AllLabelled(s, r) && KeepsLabels(r, r')
    ensures AllLabelled(s, r')
  {
  }

  /** A creation on the way to a free spot adds nothing but labelled groups. */
  lemma {:induction false} GrowthLabelled(s: Situation, g: string, r: Realm, r': Realm)
    requires (forall id | id in s.start.groups :: id in r.groups || id in r.retired)
    requires AllLabelled(s, r) && InDiff(s.irods, s.mirror, Missing(g))
    requires Growing(r, r', Spot(s.naming, g), s.naming.marks(g))
    ensures AllLabelled(s, r')
  {
    forall id | id in r'.groups && id !in r.groups ensures Labelled(s, r'.groups[id]) && id !in s.start.groups {
      var segs := r'.groups[id].segs;
      assert ValidRecord(r', id);
      assert segs <= Spot(s.naming, g);
      assert |segs| == 1 ==> segs == [s.naming.root];
      assert |segs| == 2 ==> segs == Spot(s.naming, g);
    }
  }

  /** A group that a creation finds in the spot gets the marks. */
  lemma {:induction false} FoundIsMarked(s: Situation, g: string, r: Realm, r': Realm, id: string)
    requires AllLabelled(s, r) && InDiff(s.irods, s.mirror, Missing(g))
    requires At(r, Spot(s.naming, g), id) && r' == SetAttributes(r, id, s.naming.marks(g))
    ensures AllLabelled(s, r')
  {
  }

  lemma {:induction false} CreateLabels(s: Situation, g: string, r: Realm, ok: bool, r': Realm)
    requires WellRead(s) && Since(s.start, r) && AllLabelled(s, r)
    requires InDiff(s.irods, s.mirror, Missing(g)) && Permits(CallOf(s, Missing(g)), r, ok, r')
    ensures AllLabelled(s, r')
  {
    CallIsExact(s, Missing(g));
    SpotPath(s, g);
    if id :| At(r, Spot(s.naming, g), id) {
      if r' != r {
        FoundIsMarked(s, g, r, r', id);
      }
    } else if r' != r {
      GrowthLabelled(s, g, r, r');
    }
  }

  lemma {:induction false} LabelsAfterRun(s: Situation, xs: seq<Item>, run: seq<Event>)
    requires WellRead(s) && (forall x | x in xs :: InDiff(s.irods, s.mirror, x))
    requires |run| <= |xs| && ItemRun(s, xs, s.start, run)
    ensures AllLabelled(s, StateAfter(s.start, run))
  {
    if run != [] {
      var n := |run| - 1;
      LabelsAfterRun(s, xs, run[..n]);
      if run[n].Ran? {
        assert xs[n] in xs;
        SinceRun(s, xs, run[..n]);
        LabelsAfterStep(s, xs[n], StateAfter(s.start, run[..n]), run[n].ok, run[n].after);
      }
    }
  }

  lemma {:induction false} LabelsAfterStep(s: Situation, x: Item, r: Realm, ok: bool, r': Realm)
    requires WellRead(s) && Since(s.start, r) && AllLabelled(s, r)
    requires InDiff(s.irods, s.mirror, x) && Permits(CallOf(s, x), r, ok, r')
    ensures AllLabelled(s, r')
  {
    if x.Missing? {
      CreateLabels(s, x.group, r, ok, r');
    } else {
      CallIsExact(s, x);
      OtherKeepsLabels(CallOf(s, x), r, ok, r');
      LabelsKept(s, r, r');
    }
  }

  /** A group that mirrors a name at some point of a run did so from the start, or is in the spot of the missing name.
      */
  lemma {:induction false} MirrorSince(s: Situation, r: Realm, id: string, m: string)
    requires WellRead(s) && Since(s.start, r) && AllLabelled(s, r)
    requires id in r.groups && NameIn(s.naming, r, id) == Some(m)
    ensures || (id in s.start.groups && NameIn(s.naming, s.start, id) == Some(m))
            || (m !in s.mirror && r.groups[id].segs == Spot(s.naming, m))
  {
    var segs := r.groups[id].segs;
    if SpotMarked(s, r.groups[id]) {
      assert segs == Spot(s.naming, segs[1]);
    }
  }

  // ----- a mirror that stays is taken along -----

  /** After the run, the mirror of an existing iRODS group that a deleted stale one held is gone, and nothing replaces
      it. */
  lemma {:induction false} LiveMirrorLost(
    s: Situation, xs: seq<Item>, run: seq<Event>, i: nat, id: string, after: MirrorSnapshot)
    requires WellRead(s) && OneMirrorEach(s.naming, s.start)
    requires (forall x | x in xs :: InDiff(s.irods, s.mirror, x)) && |run| <= |xs| && ItemRun(s, xs, s.start, run)
    requires i < |run| && run[i].Ran? && run[i].ok && xs[i].Stale? && Holds(s, xs[i].group, id)
    requires NameIn(s.naming, s.start, id).Some? && IsSnapshot(s.naming, StateAfter(s.start, run), after)
    ensures NameIn(s.naming, s.start, id).value !in after
  {
    var r, m := StateAfter(s.start, run), NameIn(s.naming, s.start, id).value;
    DoneMeansGone(s, xs, run, i, id);
    SinceRun(s, xs, run);
    LabelsAfterRun(s, xs, run);
    assert m in s.mirror;
    if m in after {
      MirrorSince(s, r, after[m].id, m);
    }
  }

  // ----- a new mirror is taken along -----

  /** Once a stale mirror is deleted, only deletions follow. */
  predicate StaleLast(xs: seq<Item>) {
    forall i, j | 0 <= i < j < |xs| && xs[i].Stale? :: xs[j].Stale?
  }

  lemma {:induction false} PlannerDeletesLast(xs: seq<Item>)
    requires StrictlySorted(xs)
    ensures StaleLast(xs)
  {
    forall i, j | 0 <= i < j < |xs| && xs[i].Stale? ensures xs[j].Stale? {
      assert Before(xs[i], xs[j]);
    }
  }

  ghost predicate NothingBelow(r: Realm, top: seq<string>) {
    forall id | id in r.groups :: !(top <= r.groups[id].segs)
  }

  lemma {:induction false} StillNothingBelow(s: Situation, x: Item, r: Realm, r': Realm, top: seq<string>)
    requires WellRead(s) && InDiff(s.irods, s.mirror, x) && x.Stale? && Permits(CallOf(s, x), r, true, r')
    requires NothingBelow(r, top)
    ensures NothingBelow(r', top)
  {
    CallIsExact(s, x);
    OtherKeepsLabels(CallOf(s, x), r, true, r');
  }

  /** Where a stale mirror was at the start. */
  function Top(s: Situation, g: string): seq<string>
    requires g in s.mirror && s.mirror[g].id in s.start.groups
  {
    s.start.groups[s.mirror[g].id].segs
  }

  lemma {:induction false} NothingBelowDeleted(s: Situation, g: string, r: Realm, r': Realm)
    requires WellRead(s) && Since(s.start, r) && IsStale(s, g)
    requires Permits(CallOf(s, Stale(g)), r, true, r') && s.mirror[g].id in s.start.groups && s.mirror[g].id in r.groups
    ensures NothingBelow(r', Top(s, g))
  {
    CallIsExact(s, Stale(g));
    StaleRef(s, g, r, s.mirror[g].id);
  }

  /** A run that has applied all it was given so far, of differences of which the deletions come last. */
  ghost predicate AppliedRun(s: Situation, xs: seq<Item>, run: seq<Event>) {
    && (forall x | x in xs :: InDiff(s.irods, s.mirror, x)) && StaleLast(xs)
    && |run| <= |xs| && ItemRun(s, xs, s.start, run) && AllApplied(run)
  }

  lemma {:induction false} AppliedLast(s: Situation, xs: seq<Item>, run: seq<Event>)
    requires AppliedRun(s, xs, run) && run != []
    ensures var n := |run| - 1;
            && AppliedRun(s, xs, run[..n]) && run[n].Ran? && StateAfter(s.start, run) == run[n].after
            && InDiff(s.irods, s.mirror, xs[n])
            && Permits(CallOf(s, xs[n]), StateAfter(s.start, run[..n]), true, run[n].after)
  {
    assert xs[|run| - 1] in xs;
  }

  lemma {:induction false} AppliedBefore(s: Situation, xs: seq<Item>, run: seq<Event>)
    requires AppliedRun(s, xs, run) && run != []
    ensures AppliedRun(s, xs, run[..|run| - 1])
  {
  }

  lemma {:induction false} EndsStale(s: Situation, xs: seq<Item>, run: seq<Event>, i: nat)
    requires AppliedRun(s, xs, run) && i < |run| && xs[i].Stale?
    ensures xs[|run| - 1].Stale?
  {
  }

  /** A group that is gone went with a stale mirror above it. */
  lemma {:induction false} WentWith(s: Situation, xs: seq<Item>, run: seq<Event>, id: string)
    returns (j: nat, g: string)
    requires WellRead(s) && AppliedRun(s, xs, run) && id in s.start.groups && id !in StateAfter(s.start, run).groups
    ensures j < |run| && xs[j] == Stale(g) && g in s.mirror && s.mirror[g].id in s.start.groups
    ensures Top(s, g) <= s.start.groups[id].segs
  {
    GoneMeansTried(s, xs, run, id);
    j :| 0 <= j < |run| && run[j].Ran? && xs[j].Stale? && Holds(s, xs[j].group, id);
    g := xs[j].group;
  }

  lemma {:induction false} StillNothingBelowLast(s: Situation, xs: seq<Item>, run: seq<Event>, top: seq<string>)
    requires WellRead(s) && AppliedRun(s, xs, run) && run != [] && xs[|run| - 1].Stale?
    requires NothingBelow(StateAfter(s.start, run[..|run| - 1]), top)
    ensures NothingBelow(StateAfter(s.start, run), top)
  {
    AppliedLast(s, xs, run);
    var n := |run| - 1;
    StillNothingBelow(s, xs[n], StateAfter(s.start, run[..n]), run[n].after, top);
  }

  lemma {:induction false} NothingBelowLast(s: Situation, xs: seq<Item>, run: seq<Event>, g: string)
    requires WellRead(s) && AppliedRun(s, xs, run) && run != [] && xs[|run| - 1] == Stale(g)
    requires g in s.mirror && s.mirror[g].id in s.start.groups
    requires s.mirror[g].id in StateAfter(s.start, run[..|run| - 1]).groups
    ensures NothingBelow(StateAfter(s.start, run), Top(s, g))
  {
    AppliedLast(s, xs, run);
    var n := |run| - 1;
    SinceRun(s, xs, run[..n]);
    NothingBelowDeleted(s, g, StateAfter(s.start, run[..n]), run[n].after);
  }

  /** In the planner's order, nothing is left below a stale mirror once its deletion has been applied. */
  lemma {:induction false} NothingBelowAtEnd(s: Situation, xs: seq<Item>, run: seq<Event>, i: nat, g: string)
    requires WellRead(s) && AppliedRun(s, xs, run) && i < |run| && xs[i] == Stale(g)
    requires g in s.mirror && s.mirror[g].id in s.start.groups
    ensures NothingBelow(StateAfter(s.start, run), Top(s, g))
    decreases |run|
  {
    var n := |run| - 1;
    EndsStale(s, xs, run, i);
    if i == n && s.mirror[g].id in StateAfter(s.start, run[..n]).groups {
      NothingBelowLast(s, xs, run, g);
    } else {
      AppliedBefore(s, xs, run);
      if i < n {
        NothingBelowAtEnd(s, xs, run[..n], i, g);
      } else {
        var j, h := WentWith(s, xs, run[..n], s.mirror[g].id);
        NothingBelowAtEnd(s, xs, run[..n], j, h);
        BelowBelow(StateAfter(s.start, run[..n]), Top(s, h), Top(s, g));
      }
      StillNothingBelowLast(s, xs, run, Top(s, g));
    }
  }

  lemma {:induction false} BelowBelow(r: Realm, top: seq<string>, lower: seq<string>)
    requires NothingBelow(r, top) && top <= lower
    ensures NothingBelow(r, lower)
  {
  }

  /** A missing mirror that belongs below a stale one is created, and deleted again. */
  lemma {:induction false} NewMirrorLost(
    s: Situation, xs: seq<Item>, run: seq<Event>, i: nat, g: string, m: string, after: MirrorSnapshot)
    requires WellRead(s) && AppliedRun(s, xs, run) && i < |run| && xs[i] == Stale(g)
    requires IsStale(s, g) && s.mirror[g].id in s.start.groups && Top(s, g) <= Spot(s.naming, m)
    requires m in s.irods && m !in s.mirror && IsSnapshot(s.naming, StateAfter(s.start, run), after)
    ensures m !in after
  {
    var r := StateAfter(s.start, run);
    SinceRun(s, xs, run);
    LabelsAfterRun(s, xs, run);
    NothingBelowAtEnd(s, xs, run, i, g);
    BelowBelow(r, Top(s, g), Spot(s.naming, m));
    if m in after {
      MirrorSince(s, r, after[m].id, m);
    }
  }

  // ----- exactly when repair converges -----

  lemma {:induction false} StalePlanned(s: Situation, xs: seq<Item>, g: string) returns (i: nat)
    requires IsStale(s, g) && forall x :: x in xs <==> InDiff(s.irods, s.mirror, x)
    ensures i < |xs| && xs[i] == Stale(g)
  {
    assert Stale(g) in xs;
    i :| 0 <= i < |xs| && xs[i] == Stale(g);
  }

  lemma {:induction false} ConvergedHeldNoLive(s: Situation, xs: seq<Item>, run: seq<Event>, after: MirrorSnapshot)
    requires WellRead(s) && OneMirrorEach(s.naming, s.start) && AppliedRun(s, xs, run)
    requires |run| == |xs| && forall x :: x in xs <==> InDiff(s.irods, s.mirror, x)
    requires IsSnapshot(s.naming, StateAfter(s.start, run), after) && s.irods.Keys <= after.Keys
    ensures StaleHoldNoLive(s)
  {
    forall g, id | IsStale(s, g) && Holds(s, g, id) && NameIn(s.naming, s.start, id).Some?
      ensures NameIn(s.naming, s.start, id).value !in s.irods
    {
      var i := StalePlanned(s, xs, g);
      LiveMirrorLost(s, xs, run, i, id, after);
    }
  }

  lemma {:induction false} ConvergedHeldNoSpot(s: Situation, xs: seq<Item>, run: seq<Event>, after: MirrorSnapshot)
    requires WellRead(s) && AppliedRun(s, xs, run)
    requires |run| == |xs| && forall x :: x in xs <==> InDiff(s.irods, s.mirror, x)
    requires IsSnapshot(s.naming, StateAfter(s.start, run), after) && s.irods.Keys <= after.Keys
    ensures NoSpotBelowStale(s)
  {
    forall g, m | IsStale(s, g) && m in s.irods && m !in s.mirror && s.mirror[g].id in s.start.groups
      ensures !(s.start.groups[s.mirror[g].id].segs <= Spot(s.naming, m))
    {
      if Top(s, g) <= Spot(s.naming, m) {
        var i := StalePlanned(s, xs, g);
        NewMirrorLost(s, xs, run, i, g, m, after);
      }
    }
  }

  // ----- marks stay -----

  ghost predicate MarkedAtSpot(s: Situation, g: string, r: Realm) {
    forall id | At(r, Spot(s.naming, g), id) :: r.groups[id].attributes == s.naming.marks(g)
  }

  lemma {:induction false} CreateKeepsMarks(s: Situation, g: string, h: string, r: Realm, ok: bool, r': Realm)
    requires WellRead(s) && InDiff(s.irods, s.mirror, Missing(h)) && Permits(CallOf(s, Missing(h)), r, ok, r')
    requires MarkedAtSpot(s, g, r) || (ok && h == g)
    ensures MarkedAtSpot(s, g, r')
  {
    CallIsExact(s, Missing(h));
    SpotPath(s, h);
    var p, marks := Spot(s.naming, h), s.naming.marks(h);
    if found :| At(r, p, found) {
      forall id | At(r', Spot(s.naming, g), id) ensures r'.groups[id].attributes == s.naming.marks(g) {
        assert r' == r || r' == SetAttributes(r, found, marks);
        assert At(r, Spot(s.naming, g), id);
        assert id == found ==> Spot(s.naming, g)[1] == p[1];
        assert h == g ==> At(r, p, id);
      }
    } else if r' != r {
      assert Growing(r, r', p, marks);
      SpotsGrow(s, g, h, r, r');
    }
  }

  lemma {:induction false} SpotsGrow(s: Situation, g: string, h: string, r: Realm, r': Realm)
    requires Growing(r, r', Spot(s.naming, h), s.naming.marks(h)) && (MarkedAtSpot(s, g, r) || h == g)
    requires !Has(r, Spot(s.naming, h))
    ensures MarkedAtSpot(s, g, r')
  {
    forall id | At(r', Spot(s.naming, g), id) ensures r'.groups[id].attributes == s.naming.marks(g) {
      if id in r.groups {
        assert At(r, Spot(s.naming, g), id);
      } else {
        assert Spot(s.naming, g) <= Spot(s.naming, h);
        assert Spot(s.naming, g)[1] == Spot(s.naming, h)[1];
      }
    }
  }

  lemma {:induction false} StepKeepsMarks(s: Situation, g: string, x: Item, r: Realm, ok: bool, r': Realm)
    requires WellRead(s) && InDiff(s.irods, s.mirror, x) && Permits(CallOf(s, x), r, ok, r')
    requires MarkedAtSpot(s, g, r) || (ok && x == Missing(g))
    ensures MarkedAtSpot(s, g, r')
  {
    if x.Missing? {
      CreateKeepsMarks(s, g, x.group, r, ok, r');
    } else {
      CallIsExact(s, x);
      OtherKeepsLabels(CallOf(s, x), r, ok, r');
      MarksKept(s, g, r, r');
    }
  }

  lemma {:induction false} MarksKept(s: Situation, g: string, r: Realm, r': Realm)
    requires MarkedAtSpot(s, g, r) && KeepsLabels(r, r')
    ensures MarkedAtSpot(s, g, r')
  {
    forall id | At(r', Spot(s.naming, g), id) ensures r'.groups[id].attributes == s.naming.marks(g) {
      assert At(r, Spot(s.naming, g), id);
    }
  }

  lemma {:induction false} MarksStayLast(s: Situation, xs: seq<Item>, run: seq<Event>, g: string)
    requires WellRead(s) && AppliedRun(s, xs, run) && run != []
    requires MarkedAtSpot(s, g, StateAfter(s.start, run[..|run| - 1])) || xs[|run| - 1] == Missing(g)
    ensures MarkedAtSpot(s, g, StateAfter(s.start, run))
  {
    var n := |run| - 1;
    AppliedLast(s, xs, run);
    StepKeepsMarks(s, g, xs[n], StateAfter(s.start, run[..n]), true, run[n].after);
  }

  /** Once a missing mirror is created, what is in its spot carries the marks. */
  lemma {:induction false} MarksStay(s: Situation, xs: seq<Item>, run: seq<Event>, i: nat, g: string)
    requires WellRead(s) && AppliedRun(s, xs, run) && i < |run| && xs[i] == Missing(g)
    ensures MarkedAtSpot(s, g, StateAfter(s.start, run))
  {
    if i < |run| - 1 {
      AppliedBefore(s, xs, run);
      MarksStay(s, xs, run[..|run| - 1], i, g);
    }
    MarksStayLast(s, xs, run, g);
  }

  lemma {:induction false} AllSpotsMarked(s: Situation, xs: seq<Item>, run: seq<Event>)
    requires WellRead(s) && AppliedRun(s, xs, run)
    requires |run| == |xs| && forall x :: x in xs <==> InDiff(s.irods, s.mirror, x)
    ensures Marked(s, StateAfter(s.start, run)) == StateAfter(s.start, run)
  {
    var r := StateAfter(s.start, run);
    forall id | id in r.groups ensures Marking(s, r.groups[id]) == r.groups[id] {
      if MissingSpot(s, r.groups[id].segs) {
        var g := r.groups[id].segs[1];
        var i := MissingPlanned(s, xs, g);
        MarksStay(s, xs, run, i, g);
        assert At(r, Spot(s.naming, g), id);
      }
    }
    assert Marked(s, r).groups == r.groups;
  }

  lemma {:induction false} MissingPlanned(s: Situation, xs: seq<Item>, g: string) returns (i: nat)
    requires g in s.irods && g !in s.mirror && forall x :: x in xs <==> InDiff(s.irods, s.mirror, x)
    ensures i < |xs| && xs[i] == Missing(g)
  {
    assert InDiff(s.irods, s.mirror, Missing(g));
    i :| 0 <= i < |xs| && xs[i] == Missing(g);
  }

  /** A mirror that sits in the spot of another is no longer the mirror that it was, and no group is. */
  lemma {:induction false} OccupantNameLost(
    s: Situation, xs: seq<Item>, run: seq<Event>, i: nat, g: string, id: string, h: string, after: MirrorSnapshot)
    requires WellRead(s) && OneMirrorEach(s.naming, s.start) && AppliedRun(s, xs, run)
    requires i < |run| && xs[i] == Missing(g) && Occupies(s, g, id) && NameIn(s.naming, s.start, id) == Some(h)
    requires IsSnapshot(s.naming, StateAfter(s.start, run), after)
    ensures h !in after
  {
    var r := StateAfter(s.start, run);
    SinceRun(s, xs, run);
    LabelsAfterRun(s, xs, run);
    MarksStay(s, xs, run, i, g);
    assert h in s.mirror;
    if h in after {
      MirrorSince(s, r, after[h].id, h);
      RenamedInSpot(s, r, g, id);
    }
  }

  lemma {:induction false} RenamedInSpot(s: Situation, r: Realm, g: string, id: string)
    requires WellRead(s) && Since(s.start, r) && MarkedAtSpot(s, g, r) && Occupies(s, g, id)
    ensures id in r.groups ==> NameIn(s.naming, r, id) == Some(g)
  {
    if id in r.groups {
      assert At(r, Spot(s.naming, g), id);
    }
  }

  lemma {:induction false} ConvergedUnmanaged(s: Situation, xs: seq<Item>, run: seq<Event>, after: MirrorSnapshot)
    requires WellRead(s) && OneMirrorEach(s.naming, s.start) && AppliedRun(s, xs, run) && NoSpotBelowStale(s)
    requires |run| == |xs| && forall x :: x in xs <==> InDiff(s.irods, s.mirror, x)
    requires IsSnapshot(s.naming, StateAfter(s.start, run), after) && s.irods.Keys <= after.Keys
    ensures SpotsUnmanaged(s)
  {
    forall g, id | Occupies(s, g, id) ensures NameIn(s.naming, s.start, id).None? {
      if NameIn(s.naming, s.start, id).Some? {
        var h := NameIn(s.naming, s.start, id).value;
        var i := MissingPlanned(s, xs, g);
        OccupantNameLost(s, xs, run, i, g, id, h, after);
        StaleInSpot(s, g, id, h);
        assert false;
      }
    }
  }

  lemma {:induction false} StaleInSpot(s: Situation, g: string, id: string, h: string)
    requires WellRead(s) && OneMirrorEach(s.naming, s.start) && NoSpotBelowStale(s)
    requires Occupies(s, g, id) && NameIn(s.naming, s.start, id) == Some(h)
    ensures h in s.irods
  {
    assert h in s.mirror && s.mirror[h].id == id;
    assert s.start.groups[id].segs <= Spot(s.naming, g);
    var stale := IsStale(s, h);
  }

  // ----- exactly when repair converges, for plans -----

  /** What decides, before the run, whether a fully applied plan brings the mirror in line: below stale mirrors there
      is no mirror of an existing iRODS group and no spot of a missing one; and what sits in such a spot mirrors
      nothing and has no members but those of the iRODS group. */
  ghost predicate NothingInTheWay(s: Situation) {
    StaleHoldNoLive(s) && NoSpotBelowStale(s) && SpotsUnmanaged(s) && OccupantsFit(s)
  }

  lemma {:induction false} ConvergedHadNothing(s: Situation, xs: seq<Item>, run: seq<Event>, after: MirrorSnapshot)
    requires WellRead(s) && OneMirrorEach(s.naming, s.start) && AppliedRun(s, xs, run)
    requires |run| == |xs| && forall x :: x in xs <==> InDiff(s.irods, s.mirror, x)
    requires IsSnapshot(s.naming, StateAfter(s.start, run), after) && Converged(s.irods, after)
    ensures NothingInTheWay(s)
  {
    ConvergedHeldNoLive(s, xs, run, after);
    ConvergedHeldNoSpot(s, xs, run, after);
    ConvergedUnmanaged(s, xs, run, after);
    AllSpotsMarked(s, xs, run);
    ConvergedIffFit(s, xs, run, after);
  }

  lemma {:induction false} ConvergesUnhindered(s: Situation, xs: seq<Item>, run: seq<Event>, after: MirrorSnapshot)
    requires WellRead(s) && OneMirrorEach(s.naming, s.start) && AppliedRun(s, xs, run) && NothingInTheWay(s)
    requires |run| == |xs| && forall x :: x in xs <==> InDiff(s.irods, s.mirror, x)
    requires IsSnapshot(s.naming, StateAfter(s.start, run), after)
    ensures Converged(s.irods, after)
  {
    AllSpotsMarked(s, xs, run);
    ConvergedIffFit(s, xs, run, after);
  }

  lemma {:induction false} BehindApplied(
    plan: SyncPlan, xs: seq<Item>, irods: IrodsSnapshot, before: Realm, mirror: MirrorSnapshot, run: seq<Event>)
    requires Written(plan, xs, irods, before, mirror)
    requires |run| == |plan.operations| && PlanRun(plan, before, run) && AllApplied(run)
    ensures var s := SituationIn(plan.zone, irods, before, mirror);
            WellRead(s) && |run| == |xs| && AppliedRun(s, xs, run) && forall x :: x in xs <==> InDiff(irods, mirror, x)
  {
    var s := SituationIn(plan.zone, irods, before, mirror);
    ReadableIsWellRead(plan.realm, plan.zone, irods, before, mirror);
    WrittenAsks(plan, xs, irods, before, mirror);
    PlanRunIsItemRun(s, plan, xs, before, run);
    PlannerDeletesLast(xs);
  }

  /** Where each name is mirrored once, a fully applied plan brings the mirror in line if and only if nothing
      was in the way before the run. */
  lemma {:induction false} ConvergesExactly(
    plan: SyncPlan, xs: seq<Item>, irods: IrodsSnapshot, before: Realm, mirror: MirrorSnapshot,
    run: seq<Event>, after: MirrorSnapshot)
    requires Written(plan, xs, irods, before, mirror) && OneMirrorEach(ZoneNaming(plan.zone), before)
    requires |run| == |plan.operations| && PlanRun(plan, before, run) && AllApplied(run)
    requires IsSnapshot(ZoneNaming(plan.zone), StateAfter(before, run), after)
    ensures Converged(irods, after) <==> NothingInTheWay(SituationIn(plan.zone, irods, before, mirror))
  {
    var s := SituationIn(plan.zone, irods, before, mirror);
    BehindApplied(plan, xs, irods, before, mirror, run);
    if NothingInTheWay(s) {
      ConvergesUnhindered(s, xs, run, after);
    }
    if Converged(irods, after) {
      ConvergedHadNothing(s, xs, run, after);
    }
  }

  /** Of the groups that mirror nothing, a fully applied plan changes exactly those that sit in the spot of a missing
      mirror: each is marked, and gets the members of the iRODS group in addition to its own. */
  lemma {:induction false} OnlyOccupantsTakenOver(
    plan: SyncPlan, xs: seq<Item>, irods: IrodsSnapshot, before: Realm, mirror: MirrorSnapshot,
    run: seq<Event>, id: string)
    requires Written(plan, xs, irods, before, mirror) && NearlyTidy(SituationIn(plan.zone, irods, before, mirror))
    requires |run| == |plan.operations| && PlanRun(plan, before, run) && AllApplied(run)
    requires id in before.groups && NameIn(ZoneNaming(plan.zone), before, id).None?
    requires id in StateAfter(before, run).groups
    ensures var s, was, now := SituationIn(plan.zone, irods, before, mirror), before.groups[id],
                               StateAfter(before, run).groups[id];
            if MissingSpot(s, was.segs) then TakenOver(s, was, now) else now == was
  {
    var s := SituationIn(plan.zone, irods, before, mirror);
    BehindApplied(plan, xs, irods, before, mirror, run);
    AllSpotsMarked(s, xs, run);
    OnlyOccupantsChange(s, xs, run, id);
  }
}
