/** The operations of a plan as the validator and the applier read them back. */
module Orders {
  import opened Wrappers
  import opened Text
  import opened Paths
  import opened Groups
  import opened Realms
  import opened Plans
  import opened Mirrors
  import opened Planner
  import opened Reach
  import opened Repair
  import opened RepairService

  // ----- what the planner prints -----

  predicate Named(s: string) {
    s != "" && Trimmed(s)
  }

  predicate IsMembership(x: Item) {
    x.Absent? || x.Extra?
  }

  /** A normal path other than the root. */
  predicate Placed(path: string) {
    path != "" && path != "/" && Normalize(path) == path
  }

  /** What holds of every difference in an orderly realm before anything is known about separators or zones. */
  predicate Printed(realm: string, zone: string, mirror: MirrorSnapshot, x: Item) {
    && Named(realm) && Named(zone) && Placed(GroupPath(mirror, x.group))
    && (IsMembership(x) ==> Named(x.user))
    && (x.Stale? ==> x.group in mirror && mirror[x.group].path != "")
  }

  /** The validator's demands on a difference: no foreign zone, no separator in the path, a plain username. */
  predicate Fit(zone: string, irods: IrodsSnapshot, mirror: MirrorSnapshot, x: Item) {
    && TrimSpace(ZoneOf(irods, mirror, x.group)) in ["", zone]
    && !Contains(GroupPath(mirror, x.group), MEMBER_MARK)
    && (IsMembership(x) ==> '#' !in x.user && '/' !in x.user)
  }

  /** The operation that the planner makes of a difference. */
  predicate Prints(op: PlanOperation, realm: string, irods: IrodsSnapshot, mirror: MirrorSnapshot, x: Item) {
    && op.action == ActionOf(x) && op.risk == RiskOf(x)
    && op.target == TargetOf(mirror, x) && op.evidence == EvidenceOf(realm, irods, mirror, x)
  }

  predicate IsExtraKey(key: Key) {
    key in [IrodsUsername, KeycloakUser, KeycloakGroupId, KeycloakUserId]
  }

  lemma {:induction false} StillCarries(
    evidence: map<Key, string>, key: Key, value: string, realm: string, zone: string, path: string, group: string)
    requires Carries(evidence, realm, zone, path, group) && IsExtraKey(key)
    ensures Carries(evidence[key := value], realm, zone, path, group)
    ensures Carries(AddNonEmpty(evidence, key, value), realm, zone, path, group)
  {
  }

  lemma {:induction false} EvidenceCarries(realm: string, irods: IrodsSnapshot, mirror: MirrorSnapshot, x: Item)
    requires x.Stale? ==> x.group in mirror && mirror[x.group].path != ""
    ensures Carries(EvidenceOf(realm, irods, mirror, x), realm, ZoneOf(irods, mirror, x.group),
                    GroupPath(mirror, x.group), x.group)
  {
    var g := x.group;
    var zone, path, id := ZoneOf(irods, mirror, g), GroupPath(mirror, g), GroupId(mirror, g);
    var common := map[IrodsGroupName := g, IrodsZone := zone, KeycloakRealm := realm, KeycloakPath := path];
    match x
    case Missing(_) =>
    case Absent(_, u) =>
      StillCarries(common, IrodsUsername, u, realm, zone, path, g);
      StillCarries(common[IrodsUsername := u], KeycloakGroupId, id, realm, zone, path, g);
    case Extra(_, u) =>
      StillCarries(common, KeycloakUser, u, realm, zone, path, g);
      StillCarries(common[KeycloakUser := u], KeycloakGroupId, id, realm, zone, path, g);
      StillCarries(AddNonEmpty(common[KeycloakUser := u], KeycloakGroupId, id), KeycloakUserId, UserId(mirror, g, u),
                   realm, zone, path, g);
    case Stale(_) =>
      StillCarries(common, KeycloakGroupId, id, realm, zone, path, g);
  }

  lemma {:induction false} EvidenceRead(op: PlanOperation, realm: string, zone: string, path: string, group: string)
    requires Carries(op.evidence, realm, zone, path, group) && Named(realm) && Placed(path)
    ensures Evidence(op, KeycloakRealm) == realm && Evidence(op, KeycloakPath) == path
    ensures Evidence(op, IrodsZone) == TrimSpace(zone) && Evidence(op, IrodsGroupName) == TrimSpace(group)
  {
    TrimmedPath(path);
  }

  lemma {:induction false} EvidenceIds(
    op: PlanOperation, realm: string, irods: IrodsSnapshot, mirror: MirrorSnapshot, x: Item)
    requires op.evidence == EvidenceOf(realm, irods, mirror, x)
    ensures !x.Missing? ==> Evidence(op, KeycloakGroupId) == TrimSpace(GroupId(mirror, x.group))
    ensures x.Absent? ==> Evidence(op, IrodsUsername) == TrimSpace(x.user)
    ensures x.Extra? ==> Evidence(op, KeycloakUser) == TrimSpace(x.user)
    ensures x.Extra? ==> Evidence(op, KeycloakUserId) == TrimSpace(UserId(mirror, x.group, x.user))
  {
  }

  lemma {:induction false} GroupTargetRead(op: PlanOperation, path: string)
    requires op.target == path && Placed(path)
    ensures GroupTarget(op) == if Contains(path, MEMBER_MARK) then Err(MemberSelectorInGroupTarget) else Ok(path)
    ensures TrimSpace(op.target) != ""
  {
    TrimmedPath(path);
  }

  lemma {:induction false} MarkHasHash(u: string)
    requires Contains(u, MEMBER_MARK)
    ensures '#' in u
  {
    IndexFacts(u, MEMBER_MARK);
    var i := Index(u, MEMBER_MARK).value;
    assert u[i..][0] == MEMBER_MARK[0];
    assert u[i] in u;
  }

  /** A printed member target is read back, or refused when a separator is inside. */
  lemma {:induction false} MemberTargetRead(op: PlanOperation, path: string, u: string)
    requires op.target == MemberTargetText(path, u) && Placed(path) && Named(u)
    ensures MemberTarget(op) == if Contains(path, MEMBER_MARK) || Contains(u, MEMBER_MARK)
                                  then Err(MemberTargetShape) else Ok((path, u))
    ensures TrimSpace(op.target) != ""
  {
    TrimmedPath(path);
    PrintedParts(op.target, path, u);
    if !Contains(path, MEMBER_MARK) && !Contains(u, MEMBER_MARK) {
      MemberTargetRoundTrip(op, path, u);
    }
  }

  lemma {:induction false} TargetRead(op: PlanOperation, realm: string, zone: string, mirror: MirrorSnapshot, x: Item)
    requires Printed(realm, zone, mirror, x) && op.target == TargetOf(mirror, x)
    ensures TrimSpace(op.target) != ""
    ensures var path := GroupPath(mirror, x.group);
      if IsMembership(x)
        then MemberTarget(op) == if Contains(path, MEMBER_MARK) || Contains(x.user, MEMBER_MARK)
                                   then Err(MemberTargetShape) else Ok((path, x.user))
        else GroupTarget(op) == if Contains(path, MEMBER_MARK) then Err(MemberSelectorInGroupTarget) else Ok(path)
  {
    if IsMembership(x) {
      MemberTargetRead(op, GroupPath(mirror, x.group), x.user);
    } else {
      GroupTargetRead(op, GroupPath(mirror, x.group));
    }
  }

  lemma {:induction false} GroupOperationJudged(
    plan: SyncPlan, op: PlanOperation, path: string, zone: string, group: string)
    requires Carries(op.evidence, plan.realm, zone, path, group) && Named(plan.realm) && Placed(path)
    requires TrimSpace(op.target) != "" && (op.action == Create || (op.action == Delete && op.risk == RequiresApproval))
    requires GroupTarget(op) == if Contains(path, MEMBER_MARK) then Err(MemberSelectorInGroupTarget) else Ok(path)
    ensures ValidateOperation(plan, op).None? <==>
              TrimSpace(zone) in ["", plan.zone] && !Contains(path, MEMBER_MARK)
  {
    EvidenceRead(op, plan.realm, zone, path, group);
  }

  lemma {:induction false} MemberOperationJudged(
    plan: SyncPlan, op: PlanOperation, path: string, u: string, zone: string, group: string)
    requires Carries(op.evidence, plan.realm, zone, path, group) && Named(plan.realm) && Placed(path)
    requires TrimSpace(op.target) != "" && (op.action == MemberAdd || op.action == MemberRemove)
    requires MemberTarget(op) == if Contains(path, MEMBER_MARK) || Contains(u, MEMBER_MARK)
                                   then Err(MemberTargetShape) else Ok((path, u))
    ensures ValidateOperation(plan, op).None? <==>
              TrimSpace(zone) in ["", plan.zone] && !Contains(path, MEMBER_MARK) && '#' !in u && '/' !in u
  {
    EvidenceRead(op, plan.realm, zone, path, group);
    if Contains(u, MEMBER_MARK) {
      MarkHasHash(u);
    }
  }

  /** The validator accepts the operation if and only if the difference is fit. */
  lemma {:induction false} AcceptedIfFit(
    plan: SyncPlan, op: PlanOperation, irods: IrodsSnapshot, mirror: MirrorSnapshot, x: Item)
    requires Printed(plan.realm, plan.zone, mirror, x) && Prints(op, plan.realm, irods, mirror, x)
    ensures ValidateOperation(plan, op).None? <==> Fit(plan.zone, irods, mirror, x)
  {
    var path, zone := GroupPath(mirror, x.group), ZoneOf(irods, mirror, x.group);
    EvidenceCarries(plan.realm, irods, mirror, x);
    TargetRead(op, plan.realm, plan.zone, mirror, x);
    if IsMembership(x) {
      MemberOperationJudged(plan, op, path, x.user, zone, x.group);
    } else {
      GroupOperationJudged(plan, op, path, zone, x.group);
    }
  }

  /** The report on an operation names the group and the user that the operation is about. */
  lemma {:induction false} ReportNamesTarget(
    op: PlanOperation, realm: string, zone: string, irods: IrodsSnapshot, mirror: MirrorSnapshot, x: Item)
    requires Printed(realm, zone, mirror, x) && op.target == TargetOf(mirror, x) && Fit(zone, irods, mirror, x)
    ensures TargetParts(op) == (GroupPath(mirror, x.group), UserOf(x))
  {
    var path := GroupPath(mirror, x.group);
    TargetRead(op, realm, zone, mirror, x);
    if IsMembership(x) {
      if Contains(x.user, MEMBER_MARK) {
        MarkHasHash(x.user);
      }
      TrimmedPath(path);
      PrintedParts(op.target, path, x.user);
    }
  }

  // ----- the whole plan -----

  ghost predicate AllFit(zone: string, irods: IrodsSnapshot, mirror: MirrorSnapshot) {
    forall x | InDiff(irods, mirror, x) :: Fit(zone, irods, mirror, x)
  }

  ghost predicate AllPrinted(realm: string, zone: string, irods: IrodsSnapshot, mirror: MirrorSnapshot) {
    forall x | InDiff(irods, mirror, x) :: Printed(realm, zone, mirror, x)
  }

  /** Operations made from a list of differences pass if and only if every difference is fit: ids never clash. */
  lemma {:induction false} EachPassesIfFit(
    check: PlanOperation -> bool, id: PlanOperation -> string, make: Maker, fit: Item -> bool, xs: seq<Item>)
    requires forall i: nat, x {:trigger make(i, x)} | x in xs :: check(make(i, x)) <==> fit(x)
    requires forall i: nat, x {:trigger make(i, x)} | x in xs :: id(make(i, x)) == OperationId(i)
    ensures EachPasses(check, id, Operations(make, xs)) <==> forall x | x in xs :: fit(x)
  {
    var ops := Operations(make, xs);
    forall i | 0 <= i < |ops|
      ensures (check(ops[i]) <==> fit(xs[i])) && id(ops[i]) == OperationId(i + 1)
    {
      assert xs[i] in xs && ops[i] == make(i + 1, xs[i]);
    }
    IdsDiffer(id, ops);
    if EachPasses(check, id, ops) {
      forall x | x in xs ensures fit(x) {
        var i :| 0 <= i < |xs| && xs[i] == x;
        assert check(ops[i]);
      }
    }
  }

  lemma {:induction false} IdsDiffer(id: PlanOperation -> string, ops: seq<PlanOperation>)
    requires forall i | 0 <= i < |ops| :: id(ops[i]) == OperationId(i + 1)
    ensures forall i | 0 <= i < |ops| :: id(ops[i]) != ""
    ensures forall i, j | 0 <= i < j < |ops| :: id(ops[i]) != id(ops[j])
  {
    forall i: nat ensures Value(OperationId(i)[3..]) == i && OperationId(i) != "" {
      OperationIdSpellsIndex(i);
    }
  }

  /** Any list of printed differences, in any order, makes operations that pass exactly when all of them are fit. */
  lemma {:induction false} ListPassesIfFit(plan: SyncPlan, irods: IrodsSnapshot, mirror: MirrorSnapshot, xs: seq<Item>)
    requires forall x | x in xs :: Printed(plan.realm, plan.zone, mirror, x)
    ensures EachPasses(Check(plan), TrimmedId(), Operations(MakerOf(plan.realm, irods, mirror), xs)) <==>
              forall x | x in xs :: Fit(plan.zone, irods, mirror, x)
  {
    var make, fit := MakerOf(plan.realm, irods, mirror), (x: Item) => Fit(plan.zone, irods, mirror, x);
    forall i: nat, x {:trigger make(i, x)} | x in xs
      ensures Check(plan)(make(i, x)) <==> fit(x)
      ensures TrimmedId()(make(i, x)) == OperationId(i)
    {
      AcceptedIfFit(plan, make(i, x), irods, mirror, x);
      OperationIdSpellsIndex(i);
    }
    EachPassesIfFit(Check(plan), TrimmedId(), make, fit, xs);
    assert forall x | x in xs :: fit(x) <==> Fit(plan.zone, irods, mirror, x);
  }

  /** The validator accepts the planner's own plan, for its own realm and zone and at any length, if and only if no
      difference has a foreign zone, a separator in its path, or a username with a '#' or a '/'. */
  lemma {:induction false} PlannerOutputAccepted(
    realm: string, zone: string, irods: IrodsSnapshot, mirror: MirrorSnapshot, plan: SyncPlan, xs: seq<Item>)
    requires IsPlan(realm, zone, irods, mirror, plan, xs) && TrimSpace(plan.planId) != ""
    requires Named(realm) && Named(zone) && AllPrinted(realm, zone, irods, mirror)
    ensures Acceptable(plan, realm, zone) <==> AllFit(zone, irods, mirror)
  {
    ListPassesIfFit(plan, irods, mirror, xs);
  }

  // ----- from operations to calls -----

  lemma {:induction false} MirrorPathOf(g: string)
    requires CleanName(g)
    ensures MirrorPath(g) == PathOf(["irods", g])
  {
    assert ["irods", g][1..] == [g] && [g][1..] == [];
    assert Flat([g]) == "/" + g + Flat([]) == "/" + g;
  }

  /** The naming of a zone recognises the mirrors it marks, and not the plain root. */
  lemma {:induction false} MarkedIsMirror(zone: string, g: string)
    requires Named(zone) && CleanName(g)
    ensures Mapping(zone, Group("", PathOf(["irods", g]), g, MirrorAttributes(g, zone))) == Some(g)
  {
    var attributes := MirrorAttributes(g, zone);
    IrodsIsPlain();
    assert FirstAttribute(attributes, GroupNameAttribute) == g;
    assert FirstAttribute(attributes, ZoneAttribute) == zone;
    assert FirstAttribute(attributes, AuthorityAttribute) == "irods";
  }

  /** A group in the place of a mirror is one even when it carries no attributes. */
  lemma {:induction false} PlacedIsMirror(zone: string, g: string)
    requires CleanName(g)
    ensures Mapping(zone, Group("", PathOf(["irods", g]), g, map[])) == Some(g)
  {
    var path := PathOf(["irods", g]);
    MirrorPathOf(g);
    SpotPlaced(g);
    TrimmedPath(path);
    assert path == MIRROR_ROOT + "/" + g && path[|MIRROR_ROOT| + 1..] == g;
    assert Lower("") == "";
    FirstAfterBlank([g, g]);
    FirstNamed(g, [g]);
    assert [""] + [g, g] == ["", g, g] && [g] + [g] == [g, g];
  }

  lemma {:induction false} IrodsIsPlain()
    ensures Trimmed("irods") && CleanName("irods") && Lower("irods") == "irods" && Trimmed("/irods")
  {
    VisibleNotSpace('i');
    VisibleNotSpace('s');
    VisibleNotSpace('/');
  }

  lemma {:induction false} PlainRootIsNoMirror(zone: string)
    ensures Mapping(zone, Group("", PathOf(["irods"]), "irods", map[])).None?
  {
    IrodsIsPlain();
    assert ["irods"][1..] == [];
    assert Flat([]) == "";
    assert PathOf(["irods"]) == "/irods";
    assert TrimSpace("/irods") == "/irods" && |"/irods"| < |MIRROR_ROOT + "/"|;
    assert Lower("") == "";
  }

  lemma {:induction false} ZoneNamingWorks(zone: string, irods: IrodsSnapshot)
    requires Named(zone) && forall g | g in irods :: CleanName(g)
    ensures NamingWorks(ZoneNaming(zone), irods)
  {
    var n := ZoneNaming(zone);
    IrodsIsPlain();
    PlainRootIsNoMirror(zone);
    assert Name(["irods"]) == "irods";
    forall g | g in irods ensures n.name(Spot(n, g), n.marks(g)) == Some(g) {
      MarkedIsMirror(zone, g);
      assert Name(Spot(n, g)) == g;
    }
  }

  lemma {:induction false} DecodedCreate(
    plan: SyncPlan, op: PlanOperation, irods: IrodsSnapshot, mirror: MirrorSnapshot, g: string)
    requires Printed(plan.realm, plan.zone, mirror, Missing(g)) && Prints(op, plan.realm, irods, mirror, Missing(g))
    requires Fit(plan.zone, irods, mirror, Missing(g)) && CleanName(g)
    ensures Decode(plan, op) ==
            Ok(CreateOrUpdateGroup(g, GroupPath(mirror, g), MirrorAttributes(g, plan.zone)))
  {
    EvidenceCarries(plan.realm, irods, mirror, Missing(g));
    EvidenceRead(op, plan.realm, ZoneOf(irods, mirror, g), GroupPath(mirror, g), g);
    TargetRead(op, plan.realm, plan.zone, mirror, Missing(g));
  }

  lemma {:induction false} FirstNamed(a: string, rest: seq<string>)
    requires Named(a)
    ensures FirstNonEmpty([a] + rest) == a
  {
    assert ([a] + rest)[0] == a;
  }

  lemma {:induction false} FirstAfterBlank(rest: seq<string>)
    ensures FirstNonEmpty([""] + rest) == FirstNonEmpty(rest)
  {
    assert ([""] + rest)[1..] == rest;
  }

  /** An id is preferred to a path. */
  lemma {:induction false} Preferred(id: string, path: string)
    requires id == "" || Named(id)
    requires Named(path)
    ensures FirstNonEmpty([id, path]) == if id != "" then id else path
  {
    FirstNamed(path, []);
    assert [path] + [] == [path];
    if id == "" {
      FirstAfterBlank([path]);
      assert [""] + [path] == ["", path];
    } else {
      FirstNamed(id, [path]);
      assert [id] + [path] == [id, path];
    }
  }

  /** The references in a membership operation. */
  lemma {:induction false} MemberRefs(
    op: PlanOperation, realm: string, irods: IrodsSnapshot, mirror: MirrorSnapshot, x: Item, path: string)
    requires op.evidence == EvidenceOf(realm, irods, mirror, x) && IsMembership(x) && Placed(path)
    requires var id := GroupId(mirror, x.group); id == "" || Named(id)
    ensures var id := GroupId(mirror, x.group);
            FirstNonEmpty([Evidence(op, KeycloakGroupId), path]) == if id != "" then id else path
    ensures x.Extra? && Named(UserId(mirror, x.group, x.user)) ==>
            FirstNonEmpty([Evidence(op, KeycloakUserId), Evidence(op, KeycloakUser), x.user]) ==
              UserId(mirror, x.group, x.user)
  {
    EvidenceIds(op, realm, irods, mirror, x);
    TrimmedPath(path);
    Preferred(GroupId(mirror, x.group), path);
    if x.Extra? && Named(UserId(mirror, x.group, x.user)) {
      var uid, more := UserId(mirror, x.group, x.user), [Evidence(op, KeycloakUser), x.user];
      FirstNamed(uid, more);
      assert [uid] + more == [uid, Evidence(op, KeycloakUser), x.user];
    }
  }

  lemma {:induction false} DecodedMember(
    plan: SyncPlan, op: PlanOperation, irods: IrodsSnapshot, mirror: MirrorSnapshot, x: Item)
    requires Printed(plan.realm, plan.zone, mirror, x) && Prints(op, plan.realm, irods, mirror, x) && IsMembership(x)
    requires Fit(plan.zone, irods, mirror, x)
    requires var id := GroupId(mirror, x.group); id == "" || Named(id)
    requires x.Extra? ==> Named(UserId(mirror, x.group, x.user))
    ensures var id := GroupId(mirror, x.group);
            var ref := if id != "" then id else GroupPath(mirror, x.group);
            Decode(plan, op) == Ok(if x.Absent? then AddUserToGroup(x.user, ref)
                                   else RemoveUserFromGroup(UserId(mirror, x.group, x.user), ref))
  {
    if Contains(x.user, MEMBER_MARK) {
      MarkHasHash(x.user);
    }
    TargetRead(op, plan.realm, plan.zone, mirror, x);
    MemberRefs(op, plan.realm, irods, mirror, x, GroupPath(mirror, x.group));
  }

  lemma {:induction false} DecodedDelete(
    plan: SyncPlan, op: PlanOperation, irods: IrodsSnapshot, mirror: MirrorSnapshot, g: string)
    requires Printed(plan.realm, plan.zone, mirror, Stale(g)) && Prints(op, plan.realm, irods, mirror, Stale(g))
    requires Fit(plan.zone, irods, mirror, Stale(g)) && Named(GroupId(mirror, g))
    ensures Decode(plan, op) == Ok(DeleteGroup(GroupId(mirror, g)))
  {
    EvidenceIds(op, plan.realm, irods, mirror, Stale(g));
    TargetRead(op, plan.realm, plan.zone, mirror, Stale(g));
    TrimmedPath(GroupPath(mirror, g));
    Preferred(GroupId(mirror, g), GroupPath(mirror, g));
  }

  // ----- orderly realms -----

  /** What reading a plan back needs of the realm it was made in: clean iRODS names, a valid realm with its snapshot in
      the zone, and no iRODS user called like a Keycloak user id. */
  ghost predicate Readable(realm: string, zone: string, irods: IrodsSnapshot, r: Realm, mirror: MirrorSnapshot) {
    && Named(realm) && Named(zone) && (forall g | g in irods :: CleanName(g))
    && ValidRealm(r) && IsSnapshot(ZoneNaming(zone), r, mirror)
    && MembersNamed(irods, r) && (forall g | g in mirror :: mirror[g].zone == zone)
  }

  /** The tidy situations of the repair workflow: readable ones in which each name is mirrored once, the places of
      missing mirrors are free, and no mirror that is to stay or to come has its place below a stale one. */
  ghost predicate Orderly(realm: string, zone: string, irods: IrodsSnapshot, r: Realm, mirror: MirrorSnapshot) {
    && Readable(realm, zone, irods, r, mirror) && OneMirrorEach(ZoneNaming(zone), r)
    && Uncluttered(SituationIn(zone, irods, r, mirror))
  }

  ghost predicate Uncluttered(s: Situation) {
    SpotsFree(s) && StaleHoldNoLive(s) && NoSpotBelowStale(s)
  }

  function SituationIn(zone: string, irods: IrodsSnapshot, r: Realm, mirror: MirrorSnapshot): Situation {
    Situation(ZoneNaming(zone), irods, r, mirror)
  }

  lemma {:induction false} OrderlyIsTidy(
    realm: string, zone: string, irods: IrodsSnapshot, r: Realm, mirror: MirrorSnapshot)
    requires Orderly(realm, zone, irods, r, mirror)
    ensures Tidy(SituationIn(zone, irods, r, mirror))
  {
    ReadableIsWellRead(realm, zone, irods, r, mirror);
  }

  lemma {:induction false} ReadableIsWellRead(
    realm: string, zone: string, irods: IrodsSnapshot, r: Realm, mirror: MirrorSnapshot)
    requires Readable(realm, zone, irods, r, mirror)
    ensures WellRead(SituationIn(zone, irods, r, mirror))
  {
    ZoneNamingWorks(zone, irods);
  }

  /** A mirror's entry is well spelled. */
  lemma {:induction false} EntrySpelled(n: Naming, r: Realm, mirror: MirrorSnapshot, g: string)
    requires ValidRealm(r) && IsSnapshot(n, r, mirror) && g in mirror
    ensures Named(mirror[g].id) && Placed(mirror[g].path) && GroupPath(mirror, g) == mirror[g].path
    ensures forall u | u in mirror[g].members :: Named(u) && Named(mirror[g].members[u])
  {
    var id := mirror[g].id;
    assert ValidRecord(r, id) && Mirrored(r, id, mirror[g]);
    CleanNamesPath(r.groups[id].segs);
    PathStart(r.groups[id].segs);
    PathNotDot(r.groups[id].segs);
    forall u | u in mirror[g].members ensures Named(u) && Named(mirror[g].members[u]) {
      assert ValidUser(r, mirror[g].members[u]);
    }
  }

  lemma {:induction false} ItemPrinted(
    n: Naming, realm: string, zone: string, irods: IrodsSnapshot, r: Realm, mirror: MirrorSnapshot, x: Item)
    requires Named(realm) && Named(zone) && ValidRealm(r) && IsSnapshot(n, r, mirror) && InDiff(irods, mirror, x)
    requires x.group in irods ==> CleanName(x.group) && forall u | u in irods[x.group].members :: Named(u)
    ensures Printed(realm, zone, mirror, x)
  {
    if x.group in mirror {
      EntrySpelled(n, r, mirror, x.group);
    } else {
      SpotPlaced(x.group);
    }
  }

  lemma {:induction false} AllNamed(irods: IrodsSnapshot, r: Realm)
    requires MembersNamed(irods, r)
    ensures forall g, u | g in irods && u in irods[g].members :: Named(u)
  {
    forall g, u | g in irods && u in irods[g].members ensures Named(u) {
      assert u !in r.users;
      assert u != "";
      assert Trimmed(u);
    }
  }

  lemma {:induction false} ReadablePrinted(
    realm: string, zone: string, irods: IrodsSnapshot, r: Realm, mirror: MirrorSnapshot, x: Item)
    requires Readable(realm, zone, irods, r, mirror) && InDiff(irods, mirror, x)
    ensures Printed(realm, zone, mirror, x)
  {
    AllNamed(irods, r);
    ItemPrinted(ZoneNaming(zone), realm, zone, irods, r, mirror, x);
  }

  lemma {:induction false} SpotPlaced(g: string)
    requires CleanName(g)
    ensures Placed(MirrorPath(g))
  {
    var p := ["irods", g];
    MirrorPathOf(g);
    IrodsIsPlain();
    assert CleanName(p[0]) && CleanName(p[1]);
    CleanNamesPath(p);
    PathStart(p);
    PathNotDot(p);
  }

  /** In a readable realm, the operation made of a fit difference asks for exactly the call that removes it. */
  lemma {:induction false} DecodedItem(plan: SyncPlan, op: PlanOperation, irods: IrodsSnapshot, r: Realm,
                                       mirror: MirrorSnapshot, x: Item)
    requires Readable(plan.realm, plan.zone, irods, r, mirror) && InDiff(irods, mirror, x)
    requires Prints(op, plan.realm, irods, mirror, x) && Fit(plan.zone, irods, mirror, x)
    ensures Decode(plan, op) == Ok(CallOf(SituationIn(plan.zone, irods, r, mirror), x))
  {
    ReadablePrinted(plan.realm, plan.zone, irods, r, mirror, x);
    if x.group in mirror {
      EntrySpelled(ZoneNaming(plan.zone), r, mirror, x.group);
    } else {
      MirrorPathOf(x.group);
    }
    match x
    case Missing(g) => DecodedCreate(plan, op, irods, mirror, g);
    case Absent(g, u) => DecodedMember(plan, op, irods, mirror, x);
    case Extra(g, u) => DecodedMember(plan, op, irods, mirror, x);
    case Stale(g) => DecodedDelete(plan, op, irods, mirror, g);
  }
}
