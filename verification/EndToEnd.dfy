/** Repair from end to end: plan, apply without prompts, and plan again on a server that nobody else changes. */
module EndToEnd {
  import opened Wrappers
  import opened Text
  import opened Paths
  import opened Realms
  import opened Plans
  import opened Review
  import opened Mirrors
  import opened Reach
  import opened Readings
  import opened ListingOrders
  import opened Runs
  import opened Repair
  import opened RepairService
  import opened Orders
  import opened Theorems
  import opened Batches

  /** The realm is orderly, the differences are fit to be printed, and the users to be added are known. */
  ghost predicate Repairable(
    realm: string, zone: string, irods: IrodsSnapshot, r: Realm, mirror: MirrorSnapshot) {
    && Orderly(realm, zone, irods, r, mirror) && AllFit(zone, irods, mirror)
    && UsersKnown(SituationIn(zone, irods, r, mirror))
  }

  /** A reading of the mirrors. */
  ghost predicate ReadsMirror(zone: string, r: Realm, mirror: MirrorSnapshot) {
    IsSnapshot(ZoneNaming(zone), r, mirror) && forall g | g in mirror :: mirror[g].zone == zone
  }

  /** iRODS reads as the given snapshot, and however the mirrors are read, they can be repaired. */
  ghost predicate Ready(listing: IrodsListing, realm: string, zone: string, irods: IrodsSnapshot, r: Realm) {
    && EveryGroupListed(listing) && ReadsIrods(listing, zone, irods)
    && forall mirror | ReadsMirror(zone, r, mirror) :: Repairable(realm, zone, irods, r, mirror)
  }

  lemma {:induction false} ReadsOne(zone: string, r: Realm, a: MirrorSnapshot, b: MirrorSnapshot)
    requires OneMirrorEach(ZoneNaming(zone), r) && ReadsMirror(zone, r, a) && ReadsMirror(zone, r, b)
    ensures a == b
  {
    OneMirrorOneSnapshot(ZoneNaming(zone), r, zone, a, b);
  }

  lemma {:induction false} RepairableHasOneEach(
    realm: string, zone: string, irods: IrodsSnapshot, r: Realm, mirror: MirrorSnapshot)
    requires Repairable(realm, zone, irods, r, mirror)
    ensures OneMirrorEach(ZoneNaming(zone), r)
  {
  }

  /** One reading of the mirrors decides for all of them. */
  lemma {:induction false} OrderlyIsReady(
    listing: IrodsListing, realm: string, zone: string, irods: IrodsSnapshot, r: Realm, mirror: MirrorSnapshot)
    requires EveryGroupListed(listing) && ReadsIrods(listing, zone, irods) && ReadsMirror(zone, r, mirror)
    ensures Ready(listing, realm, zone, irods, r) <==> Repairable(realm, zone, irods, r, mirror)
  {
    if Repairable(realm, zone, irods, r, mirror) {
      RepairableHasOneEach(realm, zone, irods, r, mirror);
      forall other | ReadsMirror(zone, r, other) ensures other == mirror {
        ReadsOne(zone, r, other, mirror);
      }
    }
  }

  // ----- a realm without groups -----

  /** A name without the separator has none below the mirror root either. */
  lemma {:induction false} MarkNotInSpot(g: string)
    requires Contains(MirrorPath(g), MEMBER_MARK) && CleanName(g)
    ensures Contains(g, MEMBER_MARK)
  {
    var head := MIRROR_ROOT + "/";
    var p := MirrorPath(g);
    assert p == head + g;
    IndexFacts(p, MEMBER_MARK);
    var i := Index(p, MEMBER_MARK).value;
    assert p[i..][0] == '#';
    assert p[i..] == g[i - |head|..];
    assert OccursAt(g, MEMBER_MARK, i - |head|);
    IndexFacts(g, MEMBER_MARK);
  }

  /** iRODS names that can be mirrored in the zone, with members that Keycloak knows by the same name. */
  ghost predicate Mirrorable(irods: IrodsSnapshot, zone: string, r: Realm) {
    forall g | g in irods ::
      && CleanName(g) && !Contains(g, MEMBER_MARK) && irods[g].zone == zone
      && forall u | u in irods[g].members :: IsUsername(r, u) && '#' !in u && '/' !in u
  }

  lemma {:induction false} KnownIsNamed(irods: IrodsSnapshot, zone: string, r: Realm)
    requires ValidUsers(r) && Mirrorable(irods, zone, r)
    ensures MembersNamed(irods, r)
  {
    forall g, u | g in irods && u in irods[g].members ensures u != "" && Trimmed(u) && u !in r.users {
      assert IsUsername(r, u);
      var uid :| uid in r.users && r.users[uid] == u;
      assert ValidUser(r, uid);
    }
  }

  lemma {:induction false} FreshFits(irods: IrodsSnapshot, zone: string, r: Realm, x: Item)
    requires Named(zone) && Mirrorable(irods, zone, r) && InDiff(irods, map[], x)
    ensures Fit(zone, irods, map[], x)
    ensures x.Absent? ==> IsUsername(r, x.user)
  {
    if Contains(MirrorPath(x.group), MEMBER_MARK) {
      MarkNotInSpot(x.group);
    }
    if x.Absent? {
      assert IsUsername(r, x.user);
    }
  }

  /** A realm without groups is ready for whatever can be mirrored at all. */
  lemma {:induction false} FreshRealmIsReady(
    listing: IrodsListing, realm: string, zone: string, irods: IrodsSnapshot, r: Realm)
    requires EveryGroupListed(listing) && ReadsIrods(listing, zone, irods)
    requires Named(realm) && Named(zone) && ValidRealm(r) && r.groups == map[] && Mirrorable(irods, zone, r)
    ensures Ready(listing, realm, zone, irods, r)
  {
    KnownIsNamed(irods, zone, r);
    forall mirror | ReadsMirror(zone, r, mirror) ensures Repairable(realm, zone, irods, r, mirror) {
      assert mirror == map[];
      FreshIsOrderly(realm, zone, irods, r);
      forall x | InDiff(irods, map[], x)
        ensures Fit(zone, irods, map[], x) && (x.Absent? ==> IsUsername(r, x.user))
      {
        FreshFits(irods, zone, r, x);
      }
    }
  }

  lemma {:induction false} FreshIsOrderly(realm: string, zone: string, irods: IrodsSnapshot, r: Realm)
    requires Named(realm) && Named(zone) && ValidRealm(r) && r.groups == map[] && MembersNamed(irods, r)
    requires forall g | g in irods :: CleanName(g)
    ensures Orderly(realm, zone, irods, r, map[])
  {
  }

  // ----- the run -----

  lemma {:induction false} UnpromptedNeverStops(
    shown: seq<PlanOperation>, policy: Option<Policy>, ops: seq<PlanOperation>, i: nat)
    requires i < |ops|
    ensures VerdictAt(Start(Never, shown), policy, ops, i) == Accepted
  {
    assert ops[..0] == [];
    SettledStays(Start(Never, shown), policy, ops, 0, i);
  }

  lemma {:induction false} AppliedCounts(run: seq<Event>)
    requires AllApplied(run)
    ensures CountApplied(run) == |run| && CountFailed(run) == 0 && CountLeftOut(run) == 0
  {
    if run != [] {
      AppliedCounts(run[..|run| - 1]);
    }
  }

  lemma {:induction false} ForItself(service: Service, realm: string, zone: string, plan: SyncPlan)
    requires Named(realm) && Named(zone) && plan.realm == realm && plan.zone == zone
    requires service.promptMode == "none" && Acceptable(plan, realm, zone)
    ensures service.MayStart(realm, zone, Some(plan)) && service.RealmFor(realm) == realm &&
            service.ZoneFor(zone) == zone
  {
    FirstNamed(realm, [plan.realm]);
    FirstNamed(zone, [plan.zone]);
    assert [realm] + [plan.realm] == [realm, plan.realm] && [zone] + [plan.zone] == [zone, plan.zone];
    ReferencesKept(service, realm, zone);
  }

  lemma {:induction false} ReferencesKept(service: Service, realm: string, zone: string)
    requires Named(realm) && Named(zone)
    ensures service.RealmFor(realm) == realm && service.ZoneFor(zone) == zone
  {
    FirstNamed(realm, [service.defaultRealm]);
    FirstNamed(zone, [service.defaultZone, service.mapperZone]);
    assert [realm] + [service.defaultRealm] == [realm, service.defaultRealm];
    assert [zone] + [service.defaultZone, service.mapperZone] == [zone, service.defaultZone, service.mapperZone];
  }

  lemma {:induction false} FullyApplied(
    plan: SyncPlan, xs: seq<Item>, irods: IrodsSnapshot, before: Realm, mirror: MirrorSnapshot,
    run: seq<Event>, result: ApplyResult)
    requires Repairs(plan, xs, irods, before, mirror) && UsersKnown(SituationIn(plan.zone, irods, before, mirror))
    requires |run| == |plan.operations| && PlanRun(plan, before, run) && PlanFaultless(plan, before, run) && AllRan(run)
    requires Reports(plan, run, result)
    ensures AllApplied(run) && result.applied == |run| && result.failed == result.skipped == 0
  {
    RepairSucceeds(plan, xs, irods, before, mirror, run);
    AppliedCounts(run);
  }

  /** Applies an acceptable plan without prompts: every operation is handed to Keycloak. */
  method ApplyUnprompted(service: Service, plan: SyncPlan) returns (result: ApplyResult, ghost run: seq<Event>)
    requires service.client.server.Valid() && service.client.server.reliable && service.client.server.quiet
    requires service.promptMode == "none" && Named(plan.realm) && Named(plan.zone)
    requires Acceptable(plan, plan.realm, plan.zone)
    modifies service.client.server, service.reviewer
    ensures service.client.server.Valid() &&
            service.client.server.realm == StateAfter(old(service.client.server.realm), run)
    ensures |run| == |plan.operations| && AllRan(run) && Reports(plan, run, result)
    ensures PlanRun(plan, old(service.client.server.realm), run) &&
            PlanFaultless(plan, old(service.client.server.realm), run)
  {
    ghost var shown, policy := ShownTo(service.reviewer), PolicyOf(service.reviewer);
    ForItself(service, plan.realm, plan.zone, plan);
    var r;
    r, run := service.Apply(plan.realm, plan.zone, Some(plan));
    if r.Err? {
      UnpromptedNeverStops(shown, policy, plan.operations, |run|);
    }
    UnpromptedRunsAll(shown, policy, plan.operations, run);
    result := r.value;
  }

  /** Plan, apply, plan again: everything is applied, the mirror shows what iRODS has, and nothing is left to do. */
  method RepairAndCheck(service: Service, realm: string, zone: string, firstId: string, secondId: string,
                        ghost irods: IrodsSnapshot)
    returns (first: SyncPlan, result: ApplyResult, second: SyncPlan, ghost mirror: MirrorSnapshot)
    requires service.client.server.Valid() && service.client.server.reliable && service.client.server.quiet
    requires service.promptMode == "none" && Named(realm) && Named(zone) && TrimSpace(firstId) != ""
    requires Ready(service.irods, realm, zone, irods, service.client.server.realm)
    modifies service.client.server, service.reviewer
    ensures result.applied == |first.operations| && result.failed == result.skipped == 0
    ensures IsSnapshot(ZoneNaming(zone), service.client.server.realm, mirror) && Converged(irods, mirror)
    ensures second.operations == []
  {
    ReferencesKept(service, realm, zone);
    ghost var before := service.client.server.realm;
    var planned;
    ghost var from, was, xs, ys, run;
    planned, from, was, xs := service.RepairKeycloak(realm, zone, firstId);
    first := planned.value;
    OneReading(service.irods, zone, from, irods);
    assert Repairable(realm, zone, irods, before, was);
    RepairsMeansAccepted(first, xs, irods, before, was);
    result, run := ApplyUnprompted(service, first);
    FullyApplied(first, xs, irods, before, was, run, result);
    planned, from, mirror, ys := service.RepairKeycloak(realm, zone, secondId);
    second := planned.value;
    OneReading(service.irods, zone, from, irods);
    RepairConverges(first, xs, irods, before, was, run, mirror, second, ys);
  }

  // ----- two plans for one realm -----

  /** Two services read one realm, whose groups Keycloak may list to them in different orders. Unless mirrors of one
      name compete, the plans are the same apart from their ids. */
  method PlanTwice(a: Service, b: Service, realm: string, zone: string, firstId: string, secondId: string,
                   ghost irods: IrodsSnapshot)
    returns (first: SyncPlan, second: SyncPlan)
    requires a.client.server.Valid() && b.client.server.Valid() && a.client.server.reliable && b.client.server.reliable
    requires a.irods == b.irods && EveryGroupListed(a.irods) && ReadsIrods(a.irods, zone, irods)
    requires a.client.server.realm == b.client.server.realm && Named(realm) && Named(zone)
    requires LowestInOrder(zone, irods, a.client.server.realm)
    ensures first.(planId := "") == second.(planId := "")
  {
    ReferencesKept(a, realm, zone);
    ReferencesKept(b, realm, zone);
    ghost var r := a.client.server.realm;
    var planned;
    ghost var from, x, y, xs, ys;
    planned, from, x, xs := a.RepairKeycloak(realm, zone, firstId);
    first := planned.value;
    OneReading(a.irods, zone, from, irods);
    planned, from, y, ys := b.RepairKeycloak(realm, zone, secondId);
    second := planned.value;
    OneReading(b.irods, zone, from, irods);
    PlanOrderMatters(realm, zone, irods, r);
    assert ReadIn(zone, r, a.client.server.order, x);
    assert ReadIn(zone, r, b.client.server.order, y);
  }
}
