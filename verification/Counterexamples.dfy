/** Why the assumptions about orderly realms are needed: what goes wrong without each of them. */
module Counterexamples {
  import opened Wrappers
  import opened Text
  import opened Paths
  import opened Groups
  import opened Realms
  import opened Plans
  import opened Mirrors
  import opened Planner
  import opened Reach
  import opened Remaining
  import opened RepairService
  import opened Orders
  import opened Repair
  import opened Runs
  import opened PlanRuns
  import opened Deletions
  import opened Divergence

  // ----- a stale mirror above other groups -----

  /** The authority mark, and no other attribute that the program gives a meaning to. */
  predicate OnlyAuthority(attributes: Attributes) {
    && AuthorityAttribute in attributes && attributes[AuthorityAttribute] == ["irods"]
    && GroupNameAttribute !in attributes && ZoneAttribute !in attributes
  }

  /** A root that carries the authority mark but no name is taken for the mirror of a group called irods. */
  lemma {:induction false} MarkedRootIsMirror(zone: string, attributes: Attributes)
    requires OnlyAuthority(attributes)
    ensures Mapping(zone, Group("", PathOf(["irods"]), "irods", attributes)) == Some("irods")
  {
    IrodsIsPlain();
    assert ["irods"][1..] == [];
    assert PathOf(["irods"]) == "/irods";
    assert NameFromMirrorPath("/irods") == "";
    assert TrimSpace("") == "";
    Preferred("", "irods");
    FirstAfterBlank(["", "irods"]);
    assert [""] + ["", "irods"] == ["", "", "irods"];
  }

  /** Such a root is stale as soon as iRODS has no group of that name, and deleting it takes every mirror below along,
      those of existing iRODS groups too. */
  lemma {:induction false} MarkedRootTakesMirrorsAlong(
    zone: string, irods: IrodsSnapshot, r: Realm, mirror: MirrorSnapshot, root: string, g: string, id: string, s: Realm)
    requires ValidRealm(r) && At(r, ["irods"], root) && OnlyAuthority(r.groups[root].attributes)
    requires IsSnapshot(ZoneNaming(zone), r, mirror) && OneMirrorEach(ZoneNaming(zone), r)
    requires "irods" !in irods && g in irods && At(r, ["irods", g], id)
    requires Performed(DeleteGroup(root), r, s)
    ensures InDiff(irods, mirror, Stale("irods")) && mirror["irods"].id == root
    ensures id in r.groups && id !in s.groups
  {
    MarkedRootIsMirror(zone, r.groups[root].attributes);
    assert Name(["irods"]) == "irods";
    assert NameIn(ZoneNaming(zone), r, root) == Some("irods");
    assert ValidRecord(r, root);
    assert IsGroup(r, root, root);
    assert ["irods"] <= ["irods", g];
  }

  /** So a fully applied plan does not bring the mirror in line, whether the mirror of an iRODS group was there below
      the root or had to be created there. */
  lemma {:induction false} MarkedRootNeverConverges(
    plan: SyncPlan, xs: seq<Item>, irods: IrodsSnapshot, r: Realm, mirror: MirrorSnapshot, root: string, g: string,
    run: seq<Event>, after: MirrorSnapshot)
    requires Written(plan, xs, irods, r, mirror) && OneMirrorEach(ZoneNaming(plan.zone), r)
    requires At(r, ["irods"], root) && OnlyAuthority(r.groups[root].attributes)
    requires "irods" !in irods && g in irods && (g in mirror ==> At(r, ["irods", g], mirror[g].id))
    requires |run| == |plan.operations| && PlanRun(plan, r, run) && AllApplied(run)
    requires IsSnapshot(ZoneNaming(plan.zone), StateAfter(r, run), after)
    ensures !Converged(irods, after)
  {
    var s := SituationIn(plan.zone, irods, r, mirror);
    ConvergesExactly(plan, xs, irods, r, mirror, run, after);
    RootIsStale(plan.zone, irods, r, mirror, root);
    RootInTheWay(s, root, g);
  }

  lemma {:induction false} RootIsStale(
    zone: string, irods: IrodsSnapshot, r: Realm, mirror: MirrorSnapshot, root: string)
    requires IsSnapshot(ZoneNaming(zone), r, mirror) && OneMirrorEach(ZoneNaming(zone), r) && "irods" !in irods
    requires At(r, ["irods"], root) && OnlyAuthority(r.groups[root].attributes)
    ensures "irods" in mirror && mirror["irods"].id == root
  {
    MarkedRootIsMirror(zone, r.groups[root].attributes);
    assert Name(["irods"]) == "irods";
    assert NameIn(ZoneNaming(zone), r, root) == Some("irods");
  }

  lemma {:induction false} RootInTheWay(s: Situation, root: string, g: string)
    requires "irods" in s.mirror && s.mirror["irods"].id == root && At(s.start, ["irods"], root)
    requires s.naming.root == "irods"
    requires IsSnapshot(s.naming, s.start, s.mirror)
    requires "irods" !in s.irods && g in s.irods && (g in s.mirror ==> At(s.start, ["irods", g], s.mirror[g].id))
    ensures !(StaleHoldNoLive(s) && NoSpotBelowStale(s))
  {
    assert IsStale(s, "irods") && ["irods"] <= ["irods", g];
    if g in s.mirror {
      assert Holds(s, "irods", s.mirror[g].id) && NameIn(s.naming, s.start, s.mirror[g].id) == Some(g);
    } else {
      assert Spot(s.naming, g) == ["irods", g];
    }
  }

  /** Such a root, and one mirror below it. */
  function MarkedRealm(g: string): Realm {
    Realm(map["1" := Record(["irods"], map[AuthorityAttribute := ["irods"]], {}),
              "2" := Record(["irods", g], map[], {})],
          map[], {})
  }

  function MarkedMirrors(zone: string, g: string): MirrorSnapshot {
    map["irods" := MirrorGroup("1", PathOf(["irods"]), zone, map[]),
        g := MirrorGroup("2", PathOf(["irods", g]), zone, map[])]
  }

  lemma {:induction false} MarkedRealmIsValid(g: string)
    requires CleanName(g)
    ensures ValidRealm(MarkedRealm(g))
  {
    var r := MarkedRealm(g);
    IrodsIsPlain();
    VisibleNotSpace('1');
    VisibleNotSpace('2');
    forall id | id in r.groups ensures ValidRecord(r, id) && HasParent(r, id) {
      var segs := r.groups[id].segs;
      assert forall i | 0 <= i < |segs| :: CleanName(segs[i]);
      assert Init(["irods", g]) == ["irods"];
      assert At(r, ["irods"], "1");
    }
  }

  lemma {:induction false} MarkedRealmIsRead(zone: string, g: string)
    requires CleanName(g) && g != "irods"
    ensures IsSnapshot(ZoneNaming(zone), MarkedRealm(g), MarkedMirrors(zone, g))
  {
    MarkedRealmNames(zone, g);
  }

  lemma {:induction false} MarkedRealmNames(zone: string, g: string)
    requires CleanName(g)
    ensures NameIn(ZoneNaming(zone), MarkedRealm(g), "1") == Some("irods")
    ensures NameIn(ZoneNaming(zone), MarkedRealm(g), "2") == Some(g)
  {
    MarkedRootIsMirror(zone, MarkedRealm(g).groups["1"].attributes);
    PlacedIsMirror(zone, g);
    assert Name(["irods"]) == "irods" && Name(["irods", g]) == g;
  }

  lemma {:induction false} NoMarkInRoot()
    ensures !Contains(PathOf(["irods"]), MEMBER_MARK)
  {
    assert ["irods"][1..] == [];
    assert PathOf(["irods"]) == "/irods";
    IndexFacts("/irods", MEMBER_MARK);
    assert MEMBER_MARK[0] == '#';
  }

  function OneIrodsGroup(zone: string, g: string): IrodsSnapshot {
    map[g := IrodsGroup(zone, {})]
  }

  lemma {:induction false} MarkedRealmDiff(zone: string, g: string)
    requires g != "irods"
    ensures forall x :: InDiff(OneIrodsGroup(zone, g), MarkedMirrors(zone, g), x) <==> x == Stale("irods")
  {
  }

  lemma {:induction false} MarkedRealmReadable(realm: string, zone: string, g: string)
    requires Named(realm) && Named(zone) && CleanName(g) && g != "irods"
    ensures Readable(realm, zone, OneIrodsGroup(zone, g), MarkedRealm(g), MarkedMirrors(zone, g))
  {
    MarkedRealmIsValid(g);
    MarkedRealmIsRead(zone, g);
    OneIsReadable(realm, zone, g, MarkedRealm(g), MarkedMirrors(zone, g));
  }

  lemma {:induction false} OneIsReadable(realm: string, zone: string, g: string, r: Realm, mirror: MirrorSnapshot)
    requires Named(realm) && Named(zone) && CleanName(g)
    requires ValidRealm(r) && IsSnapshot(ZoneNaming(zone), r, mirror)
    requires forall h | h in mirror :: mirror[h].zone == zone
    ensures Readable(realm, zone, OneIrodsGroup(zone, g), r, mirror)
  {
  }

  lemma {:induction false} MarkedRealmFits(zone: string, g: string)
    requires Named(zone) && g != "irods"
    ensures Fit(zone, OneIrodsGroup(zone, g), MarkedMirrors(zone, g), Stale("irods"))
  {
    NoMarkInRoot();
  }

  /** The plan for a single stale mirror. */
  lemma {:induction false} OneStalePlanned(
    realm: string, zone: string, irods: IrodsSnapshot, r: Realm, mirror: MirrorSnapshot, g: string)
    returns (plan: SyncPlan, xs: seq<Item>)
    requires Readable(realm, zone, irods, r, mirror) && forall x :: InDiff(irods, mirror, x) <==> x == Stale(g)
    requires Fit(zone, irods, mirror, Stale(g))
    ensures Written(plan, xs, irods, r, mirror) && plan.realm == realm && plan.zone == zone && xs == [Stale(g)]
  {
    VisibleNotSpace('p');
    plan, xs := PlanExists(realm, zone, irods, mirror, "p");
    OrderIsUnique(xs, [Stale(g)]);
  }

  lemma {:induction false} StaleRun(s: Situation, plan: SyncPlan, g: string) returns (run: seq<Event>)
    requires WellRead(s) && Asks(s, plan, [Stale(g)])
    ensures |run| == |plan.operations| && PlanRun(plan, s.start, run) && AllApplied(run)
    ensures g in s.mirror && s.mirror[g].id in s.start.groups
    ensures StateAfter(s.start, run) == DeleteSubtree(s.start, s.mirror[g].id)
  {
    var xs := [Stale(g)];
    assert InDiff(s.irods, s.mirror, xs[0]);
    var e := Ran(true, DeleteSubtree(s.start, s.mirror[g].id));
    run := OnlyRan(1, 0, e);
    DeletionRun(s, plan, xs, 0, e, run);
  }

  /** And a run that applies it. */
  lemma {:induction false} OneStaleApplied(
    plan: SyncPlan, irods: IrodsSnapshot, r: Realm, mirror: MirrorSnapshot, g: string) returns (run: seq<Event>)
    requires Written(plan, [Stale(g)], irods, r, mirror)
    ensures |run| == |plan.operations| && PlanRun(plan, r, run) && AllApplied(run)
    ensures g in mirror && mirror[g].id in r.groups && StateAfter(r, run) == DeleteSubtree(r, mirror[g].id)
  {
    WrittenAsks(plan, [Stale(g)], irods, r, mirror);
    ReadableIsWellRead(plan.realm, plan.zone, irods, r, mirror);
    run := StaleRun(SituationIn(plan.zone, irods, r, mirror), plan, g);
  }

  lemma {:induction false} NothingLeft(g: string)
    ensures DeleteSubtree(MarkedRealm(g), "1").groups == map[]
  {
    assert ["irods"] <= ["irods", g];
  }

  /** In this realm the plan is one deletion. Applied, it leaves no group at all, and iRODS still has its group. */
  lemma {:induction false} MarkedRealmDiverges(realm: string, zone: string, g: string)
    returns (plan: SyncPlan, xs: seq<Item>, run: seq<Event>)
    requires Named(realm) && Named(zone) && CleanName(g) && g != "irods"
    ensures Written(plan, xs, OneIrodsGroup(zone, g), MarkedRealm(g), MarkedMirrors(zone, g))
    ensures plan.realm == realm && plan.zone == zone && xs == [Stale("irods")]
    ensures |run| == |plan.operations| && PlanRun(plan, MarkedRealm(g), run) && AllApplied(run)
    ensures StateAfter(MarkedRealm(g), run).groups == map[] && !Converged(OneIrodsGroup(zone, g), map[])
  {
    var irods, r, mirror := OneIrodsGroup(zone, g), MarkedRealm(g), MarkedMirrors(zone, g);
    MarkedRealmReadable(realm, zone, g);
    MarkedRealmDiff(zone, g);
    MarkedRealmFits(zone, g);
    plan, xs := OneStalePlanned(realm, zone, irods, r, mirror, "irods");
    run := OneStaleApplied(plan, irods, r, mirror, "irods");
    NothingLeft(g);
    assert g in irods;
  }

  /** And somebody who agrees to that deletion only, never having been asked about the mirror below, loses it. */
  lemma {:induction false} MarkedRealmGoesUnasked(realm: string, zone: string, g: string)
    returns (plan: SyncPlan, xs: seq<Item>)
    requires Named(realm) && Named(zone) && CleanName(g) && g != "irods"
    ensures Written(plan, xs, OneIrodsGroup(zone, g), MarkedRealm(g), MarkedMirrors(zone, g)) && xs == [Stale("irods")]
    ensures |plan.operations| == 1 && !OnlyApprovedGo(plan, xs, MarkedRealm(g), MarkedMirrors(zone, g))
  {
    var irods, r, mirror := OneIrodsGroup(zone, g), MarkedRealm(g), MarkedMirrors(zone, g);
    MarkedRealmReadable(realm, zone, g);
    MarkedRealmDiff(zone, g);
    MarkedRealmFits(zone, g);
    plan, xs := OneStalePlanned(realm, zone, irods, r, mirror, "irods");
    ApprovedThemselves(plan, xs, irods, r, mirror);
    HeldBelow(zone, g);
  }

  lemma {:induction false} HeldBelow(zone: string, g: string)
    requires g != "irods"
    ensures !StaleHoldNothing(SituationIn(zone, OneIrodsGroup(zone, g), MarkedRealm(g), MarkedMirrors(zone, g)))
  {
    var s := SituationIn(zone, OneIrodsGroup(zone, g), MarkedRealm(g), MarkedMirrors(zone, g));
    assert ["irods"] <= ["irods", g];
    assert IsStale(s, "irods") && Holds(s, "irods", "2");
  }

  // ----- an occupied spot -----

  /** A group of another zone in the place of a missing mirror is taken over: it keeps its id and members and becomes
      the mirror. */
  lemma {:induction false} OccupiedSpotIsTakenOver(
    zone: string, irods: IrodsSnapshot, r: Realm, g: string, id: string, s: Realm)
    requires Named(zone) && CleanName(g) && At(r, ["irods", g], id) && NameIn(ZoneNaming(zone), r, id).None?
    requires Performed(CreateOrUpdateGroup(g, PathOf(["irods", g]), MirrorAttributes(g, zone)), r, s)
    ensures id in s.groups && s.groups[id].members == r.groups[id].members
    ensures NameIn(ZoneNaming(zone), s, id) == Some(g)
  {
    var p := ["irods", g];
    IrodsIsPlain();
    assert CleanName(p[0]) && CleanName(p[1]);
    CleanNamesPath(p);
    assert At(r, Segments(PathOf(p)), id);
    MarkedIsMirror(zone, g);
    assert Name(p) == g;
  }

  /** Exactly which group a creation changes: the one that sits in the spot and does not carry just the marks. */
  lemma {:induction false} CreateChangesOnlyOccupant(zone: string, r: Realm, g: string, s: Realm, id: string)
    requires Named(zone) && CleanName(g) && id in r.groups
    requires Performed(CreateOrUpdateGroup(g, PathOf(["irods", g]), MirrorAttributes(g, zone)), r, s)
    ensures id in s.groups
    ensures s.groups[id] != r.groups[id] <==>
            At(r, ["irods", g], id) && r.groups[id].attributes != MirrorAttributes(g, zone)
  {
    var p := ["irods", g];
    IrodsIsPlain();
    assert CleanName(p[0]) && CleanName(p[1]);
    CleanNamesPath(p);
    if other :| At(r, p, other) {
      assert s == SetAttributes(r, other, MirrorAttributes(g, zone));
    }
  }

  // ----- names with separators, foreign zones -----

  /** One username with a separator, or one group of another zone, and the validator refuses the whole plan. */
  lemma {:induction false} OneBadNameSpoilsAll(
    realm: string, zone: string, irods: IrodsSnapshot, mirror: MirrorSnapshot, plan: SyncPlan, xs: seq<Item>, x: Item)
    requires IsPlan(realm, zone, irods, mirror, plan, xs) && TrimSpace(plan.planId) != ""
    requires Named(realm) && Named(zone) && AllPrinted(realm, zone, irods, mirror)
    requires InDiff(irods, mirror, x)
    requires (IsMembership(x) && ('#' in x.user || '/' in x.user)) ||
             TrimSpace(ZoneOf(irods, mirror, x.group)) !in ["", zone]
    ensures !Acceptable(plan, realm, zone)
  {
    PlannerOutputAccepted(realm, zone, irods, mirror, plan, xs);
    assert !Fit(zone, irods, mirror, x);
  }

  // ----- an iRODS user called like a Keycloak user id -----

  /** The user with the id is added instead, and the iRODS user is still not a member. */
  lemma {:induction false} IdTakenForName(r: Realm, u: string, gid: string, s: Realm)
    requires ValidRealm(r) && u in r.users && gid in r.groups
    requires Performed(AddUserToGroup(u, gid), r, s)
    ensures gid in s.groups && u in s.groups[gid].members && s.users == r.users
    ensures forall uid | uid in s.groups[gid].members - r.groups[gid].members :: uid in s.users && s.users[uid] != u
  {
    assert ValidUser(r, u) && ValidRecord(r, gid);
    assert Both(r, u, gid, u, gid);
  }

  /** Exactly when an addition does what it says: somebody of that name belongs to the group afterwards if and only if
      there is somebody of that name. */
  lemma {:induction false} AddsTheNamed(r: Realm, u: string, gid: string, s: Realm)
    requires ValidRealm(r) && Trimmed(u) && gid in r.groups
    requires Permits(AddUserToGroup(u, gid), r, true, s) && u != ""
    ensures gid in s.groups && s.users == r.users
    ensures (exists uid :: uid in s.groups[gid].members && uid in s.users && s.users[uid] == u) <==> IsUsername(r, u)
  {
    assert ValidRecord(r, gid);
    assert Exact(AddUserToGroup(u, gid));
    var uid, id :| Both(r, u, gid, uid, id);
    assert id == gid && s == AddMember(r, gid, uid);
    if IsUsername(r, u) {
      var named :| named in r.users && r.users[named] == u;
      assert Both(r, u, gid, named, gid);
      assert named in s.groups[gid].members;
    }
  }

  // ----- a plan in another order than the planner's -----

  /** A plan that adds to a mirror before it creates it passes validation; its addition fails, and running it again
      changes the realm. */
  lemma {:induction false} AddBeforeCreateNotRepeatable(
    realm: string, zone: string, irods: IrodsSnapshot, r: Realm, mirror: MirrorSnapshot, g: string, u: string,
    plan: SyncPlan, created: Realm, again: Realm)
    requires Orderly(realm, zone, irods, r, mirror) && IsUsername(r, u)
    requires InDiff(irods, mirror, Missing(g)) && InDiff(irods, mirror, Absent(g, u))
    requires Fit(zone, irods, mirror, Missing(g)) && Fit(zone, irods, mirror, Absent(g, u))
    requires plan.realm == realm && plan.zone == zone && HeaderFits(plan, realm, zone)
    requires plan.operations == Operations(MakerOf(realm, irods, mirror), [Absent(g, u), Missing(g)])
    requires Permits(CallOf(SituationIn(zone, irods, r, mirror), Missing(g)), r, true, created)
    requires Permits(CallOf(SituationIn(zone, irods, r, mirror), Absent(g, u)), created, true, again)
    ensures Acceptable(plan, realm, zone)
    ensures !Enabled(CallOf(SituationIn(zone, irods, r, mirror), Absent(g, u)), r)
    ensures Enabled(CallOf(SituationIn(zone, irods, r, mirror), Absent(g, u)), created) && again != created
  {
    var xs := [Absent(g, u), Missing(g)];
    forall x | x in xs ensures Printed(realm, zone, mirror, x) && Fit(zone, irods, mirror, x) {
      ReadablePrinted(realm, zone, irods, r, mirror, x);
    }
    ListPassesIfFit(plan, irods, mirror, xs);
    OrderlyIsTidy(realm, zone, irods, r, mirror);
    AddFailsThenChanges(SituationIn(zone, irods, r, mirror), g, u, created, again);
  }

  lemma {:induction false} AddFailsThenChanges(s: Situation, g: string, u: string, created: Realm, again: Realm)
    requires Tidy(s) && IsUsername(s.start, u)
    requires InDiff(s.irods, s.mirror, Missing(g)) && InDiff(s.irods, s.mirror, Absent(g, u))
    requires Permits(CallOf(s, Missing(g)), s.start, true, created)
    requires Permits(CallOf(s, Absent(g, u)), created, true, again)
    ensures !Enabled(CallOf(s, Absent(g, u)), s.start) && Enabled(CallOf(s, Absent(g, u)), created) && again != created
  {
    ReachedAtStart(s);
    ItemEnabled(s, {}, s.start, Absent(g, u));
    var one := ItemStep(s, {}, s.start, Missing(g), true, created);
    assert one == {Missing(g)};
    ItemEnabled(s, one, created, Absent(g, u));
    var two := ItemStep(s, one, created, Absent(g, u), true, again);
    assert Missing(g) in two && Absent(g, u) in two;
    var id :| At(created, Spot(s.naming, g), id);
    var uid :| uid in s.start.users && s.start.users[uid] == u;
    NewMirror(s, one, created, g, id);
    NowMember(s, one, created, g, id, uid);
    if again == created {
      NowMember(s, two, again, g, id, uid);
      assert false;
    }
  }

  // ----- normalising -----

  /** Whitespace before a slash too many: normalising twice gives another path than normalising once. */
  lemma {:induction false} NormalisingTwice()
    ensures Normalize("/a /") == "/a " && Normalize("/a ") == "/a"
  {
    var segs := ["a "];
    VisibleNotSpace('/');
    VisibleNotSpace('a');
    assert segs[1..] == [] && Flat(segs) == "/a ";
    CleanFlat(segs);
    assert CleanSegment("a ");
    assert Flat(segs) + "/" == "/a /" && Trimmed("/a /");
    assert PathOf(segs) == "/a ";
    SpaceAtEnd();
    assert ["a"][1..] == [] && Flat(["a"]) == "/a";
    CleanFlat(["a"]);
  }

  lemma {:induction false} SpaceAtEnd()
    ensures TrimSpace("/a ") == "/a"
  {
    VisibleNotSpace('/');
    VisibleNotSpace('a');
    assert InSpaceRange(' ', 0) && IsSpace(' ');
    assert "/a "[..2] == "/a";
    assert TrimLeft("/a ") == "/a ";
    assert TrimRight("/a ") == TrimRight("/a") == "/a";
  }
}
