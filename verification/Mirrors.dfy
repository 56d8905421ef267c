/** What the repair workflow reads, and the differences it finds (internal/workflow/repair/service.go). */
module Mirrors {
  import opened Wrappers
  import opened Text
  import opened Groups
  import opened Plans

  const MIRROR_ROOT := "/irods"

  datatype IrodsGroup = IrodsGroup(zone: string, members: set<string>)

  /** A mirror group in Keycloak; its members are usernames with their user ids. */
  datatype MirrorGroup = MirrorGroup(id: string, path: string, zone: string, members: map<string, string>)

  type IrodsSnapshot = map<string, IrodsGroup>
  type MirrorSnapshot = map<string, MirrorGroup>

  /** keycloakMirrorPath */
  function MirrorPath(groupName: string): string {
    MIRROR_ROOT + ("/" + TrimSlashes(TrimSpace(groupName)))
  }

  /** groupNameFromMirrorPath */
  function NameFromMirrorPath(path: string): string {
    var p := TrimSpace(path);
    if HasPrefix(p, MIRROR_ROOT + "/") then TrimSpace(p[|MIRROR_ROOT| + 1..]) else ""
  }

  function FirstAttribute(attributes: Attributes, name: AttributeName): string {
    if name in attributes then FirstNonEmpty(attributes[name]) else ""
  }

  function AuthorityOf(attributes: Attributes): string {
    Lower(FirstAttribute(attributes, AuthorityAttribute))
  }

  /** Something says that the group is a mirror: its name attribute, its authority, or its place. */
  predicate Managed(g: Group) {
    || FirstAttribute(g.attributes, GroupNameAttribute) != ""
    || AuthorityOf(g.attributes) == "irods"
    || HasPrefix(TrimSpace(g.path), MIRROR_ROOT + "/")
  }

  predicate SameZone(zone: string, g: Group) {
    FirstAttribute(g.attributes, ZoneAttribute) in ["", zone]
  }

  function MirrorName(g: Group): string {
    FirstNonEmpty([FirstAttribute(g.attributes, GroupNameAttribute), NameFromMirrorPath(g.path), g.name])
  }

  /** keycloakGroupMapping: the iRODS group that a Keycloak group mirrors in the zone, if any. */
  function Mapping(zone: string, g: Group): Option<string> {
    if !Managed(g) || !SameZone(zone, g) || MirrorName(g) == "" then None
    else if AuthorityOf(g.attributes) in ["", "irods"] then Some(MirrorName(g))
    else None
  }

  /** What is taken for a mirror bears a proper name and belongs to nobody else: no other zone, no other authority, and
      something says that it is managed. */
  lemma {:induction false} MirrorsAreOurs(zone: string, g: Group)
    requires Mapping(zone, g).Some?
    ensures Mapping(zone, g).value != "" && Trimmed(Mapping(zone, g).value)
    ensures ZoneAttribute in g.attributes && FirstNonEmpty(g.attributes[ZoneAttribute]) != "" ==>
              FirstNonEmpty(g.attributes[ZoneAttribute]) == zone
    ensures AuthorityAttribute in g.attributes && FirstNonEmpty(g.attributes[AuthorityAttribute]) != "" ==>
              Lower(FirstNonEmpty(g.attributes[AuthorityAttribute])) == "irods"
    ensures GroupNameAttribute !in g.attributes && AuthorityAttribute !in g.attributes ==>
              HasPrefix(TrimSpace(g.path), MIRROR_ROOT + "/")
  {
    assert Lower("") == "";
  }

  // ----- which groups are mirrors, in terms of their attributes and paths -----

  /** The first value of the attribute that is not blank, trimmed. */
  ghost predicate Says(attributes: Attributes, name: AttributeName, v: string) {
    name in attributes && IsFirst(attributes[name], v)
  }

  predicate SaysNothing(attributes: Attributes, name: AttributeName) {
    name in attributes ==> forall k | 0 <= k < |attributes[name]| :: Blank(attributes[name][k])
  }

  /** Something that is not blank follows "/irods/" in the path: it, trimmed. */
  predicate PathSays(path: string, v: string) {
    "/irods/" <= TrimSpace(path) && v == TrimSpace(TrimSpace(path)[7..]) != ""
  }

  lemma {:induction false} AttributeSays(attributes: Attributes, name: AttributeName, v: string)
    requires v != ""
    ensures FirstAttribute(attributes, name) == v <==> Says(attributes, name, v)
    ensures FirstAttribute(attributes, name) == "" <==> SaysNothing(attributes, name)
  {
    if name in attributes {
      FirstNonEmptyIsFirst(attributes[name], v);
      FirstNonEmptyBlank(attributes[name]);
    }
  }

  /** The group belongs to iRODS, to nobody, or to somebody else. */
  ghost predicate BelongsToIrods(attributes: Attributes) {
    exists v :: Says(attributes, AuthorityAttribute, v) && ReadsAs(v, "irods")
  }

  lemma {:induction false} AuthorityTold(attributes: Attributes)
    ensures AuthorityOf(attributes) == "irods" <==> BelongsToIrods(attributes)
    ensures AuthorityOf(attributes) == "" <==> SaysNothing(attributes, AuthorityAttribute)
  {
    var v := FirstAttribute(attributes, AuthorityAttribute);
    AttributeSays(attributes, AuthorityAttribute, if v == "" then "x" else v);
    LowerReads(v, "irods");
    assert |Lower(v)| == |v|;
    if u :| Says(attributes, AuthorityAttribute, u) && ReadsAs(u, "irods") {
      AttributeSays(attributes, AuthorityAttribute, u);
    }
  }

  /** Exactly which groups are taken for mirrors in a zone. Something must mark the group as managed: its name
      attribute, the authority iRODS, or its place. It must not name another zone or another authority. And there must
      be a name. */
  lemma {:induction false} MappedExactly(zone: string, g: Group)
    ensures Mapping(zone, g).Some? <==>
      && (|| !SaysNothing(g.attributes, GroupNameAttribute) || BelongsToIrods(g.attributes)
          || "/irods/" <= TrimSpace(g.path))
      && (SaysNothing(g.attributes, ZoneAttribute) || Says(g.attributes, ZoneAttribute, zone))
      && (SaysNothing(g.attributes, AuthorityAttribute) || BelongsToIrods(g.attributes))
      && (|| !SaysNothing(g.attributes, GroupNameAttribute) || (exists v :: PathSays(g.path, v)) || !Blank(g.name))
  {
    var attributes := g.attributes;
    AuthorityTold(attributes);
    AttributeSays(attributes, GroupNameAttribute, "x");
    AttributeSays(attributes, ZoneAttribute, if zone == "" then "x" else zone);
    NeverSaysNothing(attributes, ZoneAttribute);
    PathNames(g);
    var sources := [FirstAttribute(attributes, GroupNameAttribute), NameFromMirrorPath(g.path), g.name];
    FirstNonEmptyBlank(sources);
    assert Blank(sources[0]) <==> sources[0] == "";
    assert MirrorName(g) == "" <==> Blank(sources[0]) && Blank(sources[1]) && Blank(sources[2]);
  }

  lemma {:induction false} NeverSaysNothing(attributes: Attributes, name: AttributeName)
    ensures !Says(attributes, name, "")
    ensures Trimmed(FirstAttribute(attributes, name))
  {
  }

  lemma {:induction false} PathNames(g: Group)
    ensures Trimmed(NameFromMirrorPath(g.path))
    ensures NameFromMirrorPath(g.path) != "" ==> PathSays(g.path, NameFromMirrorPath(g.path))
    ensures forall v | PathSays(g.path, v) :: NameFromMirrorPath(g.path) == v
  {
    assert MIRROR_ROOT + "/" == "/irods/" && |MIRROR_ROOT| + 1 == 7;
  }

  /** Where the name of a mirror comes from: first the name attribute, whatever the path; then the path; then the name
      of the group itself. */
  lemma {:induction false} MappedName(zone: string, g: Group, n: string)
    requires Mapping(zone, g) == Some(n)
    ensures !SaysNothing(g.attributes, GroupNameAttribute) ==> Says(g.attributes, GroupNameAttribute, n)
    ensures SaysNothing(g.attributes, GroupNameAttribute) && (exists v :: PathSays(g.path, v)) ==> PathSays(g.path, n)
    ensures SaysNothing(g.attributes, GroupNameAttribute) && (forall v :: !PathSays(g.path, v)) ==>
              n == TrimSpace(g.name)
  {
    var sources := [FirstAttribute(g.attributes, GroupNameAttribute), NameFromMirrorPath(g.path), g.name];
    AttributeSays(g.attributes, GroupNameAttribute, if sources[0] == "" then "x" else sources[0]);
    PathNames(g);
    NeverSaysNothing(g.attributes, GroupNameAttribute);
    FirstNonEmptyIsFirst(sources, n);
    var k: nat :| k < |sources| && !Blank(sources[k]) && n == TrimSpace(sources[k])
                  && forall j | 0 <= j < k :: Blank(sources[j]);
    assert k == 0 || (k == 1 && Blank(sources[0])) || (k == 2 && Blank(sources[0]) && Blank(sources[1]));
  }

  /** The attributes that mark a mirror group. */
  function MirrorAttributes(groupName: string, zone: string): Attributes {
    map[GroupNameAttribute := [groupName], ZoneAttribute := [zone], AuthorityAttribute := ["irods"]]
  }

  // ----- differences -----

  /** One difference between iRODS and its mirror. */
  datatype Item =
    | Missing(group: string)
    | Absent(group: string, user: string)
    | Extra(group: string, user: string)
    | Stale(group: string)

  predicate InDiff(irods: IrodsSnapshot, mirror: MirrorSnapshot, x: Item) {
    match x
    case Missing(g) => g in irods && g !in mirror
    case Absent(g, u) => g in irods && u in irods[g].members && (g in mirror ==> u !in mirror[g].members)
    case Extra(g, u) => g in irods && g in mirror && u in mirror[g].members && u !in irods[g].members
    case Stale(g) => g in mirror && g !in irods
  }

  /** All the differences. */
  function Diff(irods: IrodsSnapshot, mirror: MirrorSnapshot): set<Item> {
    (set g | g in irods && g !in mirror :: Missing(g)) +
    (set g, u | g in irods && u in irods[g].members && (g in mirror ==> u !in mirror[g].members) :: Absent(g, u)) +
    (set g, u | g in irods && g in mirror && u in mirror[g].members && u !in irods[g].members :: Extra(g, u)) +
    (set g | g in mirror && g !in irods :: Stale(g))
  }

  lemma {:induction false} DiffMembers(irods: IrodsSnapshot, mirror: MirrorSnapshot)
    ensures forall x :: x in Diff(irods, mirror) <==> InDiff(irods, mirror, x)
  {
  }

  /** The mirror shows exactly the groups and the members that iRODS has. */
  predicate Converged(irods: IrodsSnapshot, mirror: MirrorSnapshot) {
    irods.Keys == mirror.Keys && forall g | g in irods :: mirror[g].members.Keys == irods[g].members
  }

  lemma {:induction false} NoDiffIsConverged(irods: IrodsSnapshot, mirror: MirrorSnapshot)
    ensures Diff(irods, mirror) == {} <==> Converged(irods, mirror)
  {
    DiffMembers(irods, mirror);
    if Diff(irods, mirror) == {} {
      assert forall g :: !InDiff(irods, mirror, Missing(g)) && !InDiff(irods, mirror, Stale(g));
      forall g | g in irods ensures mirror[g].members.Keys == irods[g].members {
        assert forall u :: !InDiff(irods, mirror, Absent(g, u)) && !InDiff(irods, mirror, Extra(g, u));
      }
    } else {
      var x :| x in Diff(irods, mirror);
      assert InDiff(irods, mirror, x);
    }
  }

  // ----- operations -----

  function AddNonEmpty(evidence: map<Key, string>, key: Key, value: string): map<Key, string> {
    if TrimSpace(value) != "" then evidence[key := TrimSpace(value)] else evidence
  }

  function GroupPath(mirror: MirrorSnapshot, g: string): string {
    if g in mirror && mirror[g].path != "" then mirror[g].path else MirrorPath(g)
  }

  function GroupId(mirror: MirrorSnapshot, g: string): string {
    if g in mirror then mirror[g].id else ""
  }

  function ZoneOf(irods: IrodsSnapshot, mirror: MirrorSnapshot, g: string): string {
    if g in irods then irods[g].zone else if g in mirror then mirror[g].zone else ""
  }

  function UserId(mirror: MirrorSnapshot, g: string, u: string): string {
    if g in mirror && u in mirror[g].members then mirror[g].members[u] else ""
  }

  function ActionOf(x: Item): Action {
    match x
    case Missing(_) => Create
    case Absent(_, _) => MemberAdd
    case Extra(_, _) => MemberRemove
    case Stale(_) => Delete
  }

  function RiskOf(x: Item): Risk {
    match x
    case Missing(_) => Low
    case Absent(_, _) => Low
    case Extra(_, _) => Medium
    case Stale(_) => RequiresApproval
  }

  function TargetOf(mirror: MirrorSnapshot, x: Item): string {
    match x
    case Missing(g) => GroupPath(mirror, g)
    case Absent(g, u) => MemberTargetText(GroupPath(mirror, g), u)
    case Extra(g, u) => MemberTargetText(GroupPath(mirror, g), u)
    case Stale(g) => if g in mirror then mirror[g].path else ""
  }

  function EvidenceOf(realm: string, irods: IrodsSnapshot, mirror: MirrorSnapshot, x: Item): map<Key, string> {
    var path := if x.Stale? then TargetOf(mirror, x) else GroupPath(mirror, x.group);
    var common := map[IrodsGroupName := x.group, IrodsZone := ZoneOf(irods, mirror, x.group),
                      KeycloakRealm := realm, KeycloakPath := path];
    var id := GroupId(mirror, x.group);
    match x
    case Missing(_) => common
    case Absent(_, u) => AddNonEmpty(common[IrodsUsername := u], KeycloakGroupId, id)
    case Extra(g, u) =>
      AddNonEmpty(AddNonEmpty(common[KeycloakUser := u], KeycloakGroupId, id), KeycloakUserId, UserId(mirror, g, u))
    case Stale(_) => AddNonEmpty(common, KeycloakGroupId, id)
  }

  /** The operation that removes a difference, with its number in the plan. */
  function Operation(index: nat, realm: string, irods: IrodsSnapshot, mirror: MirrorSnapshot, x: Item): PlanOperation {
    PlanOperation(OperationId(index), ActionOf(x), TargetOf(mirror, x), RiskOf(x), EvidenceOf(realm, irods, mirror, x))
  }

  /** The evidence holds the value, trimmed, unless it is blank; then it does not have the key. */
  predicate Tells(evidence: map<Key, string>, key: Key, value: string) {
    if Blank(value) then key !in evidence else key in evidence && evidence[key] == TrimSpace(value)
  }

  /** The evidence that every operation carries. */
  predicate Carries(evidence: map<Key, string>, realm: string, zone: string, path: string, group: string) {
    && KeycloakRealm in evidence && evidence[KeycloakRealm] == realm
    && IrodsZone in evidence && evidence[IrodsZone] == zone
    && KeycloakPath in evidence && evidence[KeycloakPath] == path
    && IrodsGroupName in evidence && evidence[IrodsGroupName] == group
  }

  const COMMON_KEYS := {IrodsGroupName, IrodsZone, KeycloakRealm, KeycloakPath}

  /** The place that an operation names: that of the mirror, or that of the missing mirror. */
  predicate PathIs(mirror: MirrorSnapshot, g: string, path: string) {
    path == if g in mirror && mirror[g].path != "" then mirror[g].path else "/irods/" + TrimSlashes(TrimSpace(g))
  }

  /** What the operations on groups say. */
  lemma {:induction false} PlannedGroupOperation(
    i: nat, realm: string, irods: IrodsSnapshot, mirror: MirrorSnapshot, x: Item, op: PlanOperation, path: string)
    requires InDiff(irods, mirror, x) && op == Operation(i, realm, irods, mirror, x) && PathIs(mirror, x.group, path)
    ensures op.operationId == OperationId(i)
    ensures x.Missing? ==>
      && op.action == Create && op.risk == Low && op.target == path && op.evidence.Keys == COMMON_KEYS
      && Carries(op.evidence, realm, irods[x.group].zone, path, x.group)
    ensures x.Stale? ==>
      var m := mirror[x.group];
      && op.action == Delete && op.risk == RequiresApproval && op.target == m.path
      && Carries(op.evidence, realm, m.zone, m.path, x.group) && Tells(op.evidence, KeycloakGroupId, m.id)
      && op.evidence.Keys <= COMMON_KEYS + {KeycloakGroupId}
  {
    RootedAt(x.group);
  }

  lemma {:induction false} AddedTells(evidence: map<Key, string>, key: Key, value: string)
    requires key !in evidence
    ensures var more := AddNonEmpty(evidence, key, value);
      && Tells(more, key, value) && more.Keys <= evidence.Keys + {key}
      && forall k | k in evidence :: k in more && more[k] == evidence[k]
  {
  }

  /** What the additions of members say. */
  lemma {:induction false} PlannedAddition(
    i: nat, realm: string, irods: IrodsSnapshot, mirror: MirrorSnapshot, x: Item, op: PlanOperation, path: string)
    requires InDiff(irods, mirror, x) && x.Absent?
    requires op == Operation(i, realm, irods, mirror, x) && PathIs(mirror, x.group, path)
    ensures op.operationId == OperationId(i) && op.action == MemberAdd && op.risk == Low
    ensures op.target == TrimSpace(path) + "#member:" + TrimSpace(x.user)
    ensures Carries(op.evidence, realm, irods[x.group].zone, path, x.group)
    ensures IrodsUsername in op.evidence && op.evidence[IrodsUsername] == x.user
    ensures Tells(op.evidence, KeycloakGroupId, if x.group in mirror then mirror[x.group].id else "")
    ensures op.evidence.Keys <= COMMON_KEYS + {IrodsUsername, KeycloakGroupId}
  {
    RootedAt(x.group);
    var common := map[IrodsGroupName := x.group, IrodsZone := irods[x.group].zone, KeycloakRealm := realm,
                      KeycloakPath := path];
    AddedTells(common[IrodsUsername := x.user], KeycloakGroupId, GroupId(mirror, x.group));
  }

  /** What the removals of members say. */
  lemma {:induction false} PlannedRemoval(
    i: nat, realm: string, irods: IrodsSnapshot, mirror: MirrorSnapshot, x: Item, op: PlanOperation, path: string)
    requires InDiff(irods, mirror, x) && x.Extra?
    requires op == Operation(i, realm, irods, mirror, x) && PathIs(mirror, x.group, path)
    ensures op.operationId == OperationId(i) && op.action == MemberRemove && op.risk == Medium
    ensures op.target == TrimSpace(path) + "#member:" + TrimSpace(x.user)
    ensures Carries(op.evidence, realm, irods[x.group].zone, path, x.group)
    ensures KeycloakUser in op.evidence && op.evidence[KeycloakUser] == x.user
    ensures Tells(op.evidence, KeycloakGroupId, mirror[x.group].id)
    ensures Tells(op.evidence, KeycloakUserId, mirror[x.group].members[x.user])
    ensures op.evidence.Keys <= COMMON_KEYS + {KeycloakUser, KeycloakGroupId, KeycloakUserId}
  {
    RootedAt(x.group);
    var common := map[IrodsGroupName := x.group, IrodsZone := irods[x.group].zone, KeycloakRealm := realm,
                      KeycloakPath := path];
    var named := common[KeycloakUser := x.user];
    AddedTells(named, KeycloakGroupId, mirror[x.group].id);
    AddedTells(AddNonEmpty(named, KeycloakGroupId, mirror[x.group].id), KeycloakUserId,
               mirror[x.group].members[x.user]);
  }

  lemma {:induction false} RootedAt(g: string)
    ensures MirrorPath(g) == "/irods/" + TrimSlashes(TrimSpace(g))
  {
  }

  // ----- the order of a plan -----

  function Rank(x: Item): nat {
    match x
    case Missing(_) => 0
    case Absent(_, _) => 1
    case Extra(_, _) => 2
    case Stale(_) => 3
  }

  function UserOf(x: Item): string {
    match x
    case Missing(_) => ""
    case Absent(_, u) => u
    case Extra(_, u) => u
    case Stale(_) => ""
  }

  /** Deletions come last; before that group by group; in a group its creation, its additions, its removals. */
  predicate Before(x: Item, y: Item) {
    if x.Stale? != y.Stale? then y.Stale?
    else if x.group != y.group then Less(x.group, y.group)
    else Rank(x) < Rank(y) || (Rank(x) == Rank(y) && Less(UserOf(x), UserOf(y)))
  }

  /** The order in full: deletions last; group by group in the order of a dictionary; the creation of a group before its
      additions, these before its removals, and each by username in that order. */
  predicate PlannedBefore(x: Item, y: Item) {
    if x.Stale? != y.Stale? then y.Stale?
    else if x.group != y.group then ComesFirst(x.group, y.group)
    else
      || (x.Missing? && (y.Absent? || y.Extra?)) || (x.Absent? && y.Extra?)
      || (x.Absent? && y.Absent? && ComesFirst(x.user, y.user)) || (x.Extra? && y.Extra? && ComesFirst(x.user, y.user))
  }

  lemma {:induction false} BeforeIsPlanned(x: Item, y: Item)
    ensures Before(x, y) <==> PlannedBefore(x, y)
  {
    LessIsDictionaryOrder(x.group, y.group);
    LessIsDictionaryOrder(UserOf(x), UserOf(y));
    LessIrreflexive("");
  }

  lemma {:induction false} BeforeIsAntisymmetric(x: Item, y: Item)
    requires Before(x, y)
    ensures !Before(y, x) && x != y
  {
    LessIrreflexive(x.group);
    LessIrreflexive(UserOf(x));
    if Less(x.group, y.group) && Less(y.group, x.group) {
      LessTransitive(x.group, y.group, x.group);
    }
    if Less(UserOf(x), UserOf(y)) && Less(UserOf(y), UserOf(x)) {
      LessTransitive(UserOf(x), UserOf(y), UserOf(x));
    }
  }

  lemma {:induction false} BeforeIsTotal(x: Item, y: Item)
    ensures x == y || Before(x, y) || Before(y, x)
  {
    LessTotal(x.group, y.group);
    LessTotal(UserOf(x), UserOf(y));
  }

  lemma {:induction false} BeforeIsTransitive(x: Item, y: Item, z: Item)
    requires Before(x, y) && Before(y, z)
    ensures Before(x, z)
  {
    LessIrreflexive(x.group);
    if Less(x.group, y.group) && Less(y.group, z.group) {
      LessTransitive(x.group, y.group, z.group);
    }
    if Less(UserOf(x), UserOf(y)) && Less(UserOf(y), UserOf(z)) {
      LessTransitive(UserOf(x), UserOf(y), UserOf(z));
    }
  }

  predicate StrictlySorted(xs: seq<Item>) {
    forall i, j | 0 <= i < j < |xs| :: Before(xs[i], xs[j])
  }

  /** A set of differences can be written down in strict order in one way only. */
  lemma {:induction false} OrderIsUnique(xs: seq<Item>, ys: seq<Item>)
    requires StrictlySorted(xs) && StrictlySorted(ys) && forall x :: x in xs <==> x in ys
    ensures xs == ys
  {
    if xs == [] {
      if ys != [] {
        SameFirst(ys, xs);
        assert false;
      }
    } else {
      SameFirst(xs, ys);
      forall x ensures x in xs[1..] <==> x in ys[1..] {
        InTail(xs, x);
        InTail(ys, x);
      }
      OrderIsUnique(xs[1..], ys[1..]);
      assert xs == [xs[0]] + xs[1..] && ys == [ys[0]] + ys[1..];
    }
  }

  lemma {:induction false} InTail(xs: seq<Item>, x: Item)
    requires StrictlySorted(xs) && xs != []
    ensures x in xs[1..] <==> x in xs && x != xs[0]
  {
    if x in xs[1..] {
      var i :| 1 <= i < |xs| && xs[i] == x;
      assert Before(xs[0], xs[i]);
      BeforeIsAntisymmetric(xs[0], xs[i]);
    }
  }

  lemma {:induction false} SameFirst(xs: seq<Item>, ys: seq<Item>)
    requires StrictlySorted(xs) && StrictlySorted(ys) && xs != [] && forall x :: x in xs <==> x in ys
    ensures ys != [] && xs[0] == ys[0]
  {
    assert xs[0] in ys && ys[0] in xs;
    var i :| 0 <= i < |ys| && ys[i] == xs[0];
    var j :| 0 <= j < |xs| && xs[j] == ys[0];
    if i > 0 && j > 0 {
      assert Before(xs[0], xs[j]) && Before(ys[0], ys[i]);
      BeforeIsAntisymmetric(xs[0], ys[0]);
    }
  }

  /** Every set of differences can be written down in strict order. */
  lemma {:induction false} InStrictOrder(items: set<Item>) returns (xs: seq<Item>)
    ensures StrictlySorted(xs) && forall x :: x in xs <==> x in items
  {
    xs := [];
    if items != {} {
      var last := LastOf(items);
      xs := InStrictOrder(items - {last});
      assert forall i | 0 <= i < |xs| :: xs[i] in xs;
      xs := xs + [last];
    }
  }

  lemma {:induction false} LastOf(items: set<Item>) returns (last: Item)
    requires items != {}
    ensures last in items && forall x | x in items && x != last :: Before(x, last)
  {
    var one :| one in items;
    last := one;
    var rest := items - {one};
    assert forall x | x in items && x != one :: x in rest;
    if rest != {} {
      var other := LastOf(rest);
      BeforeIsTotal(other, one);
      if Before(one, other) {
        last := other;
      }
      forall x | x in items && x != last ensures Before(x, last) {
        if x != one && x != other && last == one {
          BeforeIsTransitive(x, other, one);
        }
      }
    }
  }

  lemma {:induction false} SortedHasNoRepeats(xs: seq<Item>)
    requires StrictlySorted(xs)
    ensures forall i, j | 0 <= i < j < |xs| :: xs[i] != xs[j]
  {
    forall i, j | 0 <= i < j < |xs| ensures xs[i] != xs[j] {
      BeforeIsAntisymmetric(xs[i], xs[j]);
    }
  }
}
