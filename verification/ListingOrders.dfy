/** When the order in which iRODS and Keycloak list their groups makes no difference to what is read and planned. */
module ListingOrders {
  import opened Wrappers
  import opened Text
  import opened Groups
  import opened Realms
  import opened KeycloakServer
  import opened Listings
  import opened ForestOrders
  import opened Plans
  import opened Mirrors
  import opened Planner
  import opened Snapshots
  import opened Reach
  import opened Readings
  import opened Repair
  import opened RepairService

  // ----- iRODS -----

  /** Entries of one name are in one zone. */
  predicate OneZoneEach(listing: IrodsListing, zone: string) {
    forall d, e | d in listing.groups && e in listing.groups && EntryName(d).Some? && EntryName(d) == EntryName(e) ::
      OrDefault(d.value.zone, zone) == OrDefault(e.value.zone, zone)
  }

  /** What is read of iRODS does not depend on the order of the entries if and only if entries of one name are in one
      zone. */
  lemma {:induction false} IrodsOrderMatters(listing: IrodsListing, zone: string)
    requires EveryGroupListed(listing)
    ensures OneInAnyOrder(KeyOfEntry(), EntryMakes(listing, zone), listing.groups) <==> OneZoneEach(listing, zone)
  {
    var key, makes, entries := KeyOfEntry(), EntryMakes(listing, zone), listing.groups;
    forall e | e in entries && key(e).Some? ensures exists v :: makes(e, v) {
      assert makes(e, GroupFor(listing, zone, e).value);
    }
    OrderMatters(key, makes, entries);
    if OneValueEach(key, makes, entries) {
      forall d, e | d in entries && e in entries && EntryName(d).Some? && EntryName(d) == EntryName(e)
        ensures OrDefault(d.value.zone, zone) == OrDefault(e.value.zone, zone)
      {
        assert key(d) == key(e) && makes(d, GroupFor(listing, zone, d).value);
        assert makes(e, GroupFor(listing, zone, e).value);
      }
    }
  }

  // ----- Keycloak -----

  /** The mirrors read when Keycloak orders the groups in some way: the last listed of a name counts. */
  ghost predicate ReadIn(zone: string, r: Realm, order: seq<string>, mirror: MirrorSnapshot) {
    IsOrder(r, order) && MirrorsRead(zone, r, ListedIn(r, order), mirror)
  }

  /** However Keycloak orders the children of each group, the mirrors read are the same. */
  ghost predicate OneMirrorReading(zone: string, r: Realm) {
    forall o, o', a, b | ReadIn(zone, r, o, a) && ReadIn(zone, r, o', b) :: a == b
  }

  /** Two mirrors of one name. */
  ghost predicate Twins(n: Naming, r: Realm, a: string, b: string) {
    a in r.groups && b in r.groups && NameIn(n, r, a).Some? && NameIn(n, r, a) == NameIn(n, r, b)
  }

  /** Of two mirrors of one name, one lies below the other. */
  ghost predicate TwinsNested(n: Naming, r: Realm) {
    forall a, b | Twins(n, r, a, b) ::
      r.groups[a].segs <= r.groups[b].segs || r.groups[b].segs <= r.groups[a].segs
  }

  /** No other mirror of the name lies below this one. */
  ghost predicate Lowest(n: Naming, r: Realm, a: string) {
    && a in r.groups && NameIn(n, r, a).Some?
    && forall b | Twins(n, r, a, b) && r.groups[a].segs <= r.groups[b].segs :: b == a
  }

  lemma {:induction false} EntryMade(zone: string, r: Realm, g: Group)
    requires ValidRealm(r) && Listed(r, g)
    ensures GroupMakes(zone, r)(g, EntryOf(r, g.id, zone))
  {
    EntryMirrors(r, g.id, zone);
    assert Describes(zone, r, g, EntryOf(r, g.id, zone));
  }

  /** No mirror of a name is listed after the one in the snapshot. */
  lemma {:induction false} LastCounts(
    zone: string, r: Realm, list: seq<Group>, ids: seq<string>, mirror: MirrorSnapshot, g: string, b: string)
    requires MirrorsRead(zone, r, list, mirror) && GroupsListed(r, list) && g in mirror
    requires |ids| == |list| && (forall i | 0 <= i < |ids| :: ids[i] == list[i].id) && NoRepeats(ids)
    requires b in r.groups && NameIn(ZoneNaming(zone), r, b) == Some(g)
    ensures !Earlier(ids, mirror[g].id, b)
  {
    var key, makes := MappingIn(zone), GroupMakes(zone, r);
    assert MadeOfLast(key, makes, list, g, mirror[g]);
    var k: nat :| LastAt(key, list, k, g) && makes(list[k], mirror[g]);
    assert mirror[g].id == ids[k];
    forall i, j | 0 <= i < j < |ids| ensures !(ids[i] == mirror[g].id && ids[j] == b) {
      assert list[j] in list && (ids[i] == ids[k] ==> i == k);
      if ids[j] == b {
        ListedMapping(zone, r, list[j]);
        assert key(list[j]) == Some(g);
      }
    }
  }

  lemma {:induction false} NoTwinAfter(
    zone: string, r: Realm, order: seq<string>, mirror: MirrorSnapshot, g: string, b: string)
    requires ValidRealm(r) && ReadIn(zone, r, order, mirror) && g in mirror
    requires b in r.groups && NameIn(ZoneNaming(zone), r, b) == Some(g)
    ensures !Earlier(ListedIds(r, order), mirror[g].id, b)
  {
    ListedWithIds(r, order);
    LastCounts(zone, r, ListedIn(r, order), ListedIds(r, order), mirror, g, b);
  }

  lemma {:induction false} ReadsSnapshot(zone: string, r: Realm, order: seq<string>, mirror: MirrorSnapshot)
    requires ValidRealm(r) && ReadIn(zone, r, order, mirror)
    ensures IsSnapshot(ZoneNaming(zone), r, mirror) && forall g | g in mirror :: mirror[g].zone == zone
  {
    ListedWithIds(r, order);
    AllMirrorsRead(zone, r, ListedIn(r, order), mirror);
  }

  lemma {:induction false} ReadsName(zone: string, r: Realm, order: seq<string>, mirror: MirrorSnapshot, g: string)
    requires ValidRealm(r) && ReadIn(zone, r, order, mirror) && g in mirror
    ensures mirror[g].id in r.groups && NameIn(ZoneNaming(zone), r, mirror[g].id) == Some(g)
  {
    ReadsSnapshot(zone, r, order, mirror);
  }

  /** What is read is a lowest mirror. */
  lemma {:induction false} ReadsLowest(zone: string, r: Realm, order: seq<string>, mirror: MirrorSnapshot, g: string)
    requires ValidRealm(r) && ReadIn(zone, r, order, mirror) && g in mirror
    ensures Lowest(ZoneNaming(zone), r, mirror[g].id) && NameIn(ZoneNaming(zone), r, mirror[g].id) == Some(g)
  {
    var n, id := ZoneNaming(zone), mirror[g].id;
    ReadsName(zone, r, order, mirror, g);
    forall b | Twins(n, r, id, b) && r.groups[id].segs <= r.groups[b].segs ensures b == id {
      if r.groups[id].segs != r.groups[b].segs {
        ListedAbove(r, order, id, b);
        NoTwinAfter(zone, r, order, mirror, g, b);
      }
    }
  }

  /** Every lowest mirror is the one that is read for some order. */
  lemma {:induction false} LowestIsRead(zone: string, r: Realm, id: string, g: string)
    returns (order: seq<string>, mirror: MirrorSnapshot)
    requires ValidRealm(r) && Lowest(ZoneNaming(zone), r, id) && NameIn(ZoneNaming(zone), r, id) == Some(g)
    ensures ReadIn(zone, r, order, mirror) && g in mirror && mirror[g].id == id
  {
    var some := SomeOrder(r);
    order := LatestFor(r, some, id);
    LatestIsOrder(r, some, id);
    mirror := SomeReading(zone, r, order);
    IsInReading(zone, r, order, mirror, id, g);
    ReadsName(zone, r, order, mirror, g);
    if mirror[g].id != id {
      assert Twins(ZoneNaming(zone), r, id, mirror[g].id);
      ListedLatest(r, some, id, mirror[g].id);
      NoTwinAfter(zone, r, order, mirror, g, id);
    }
  }

  lemma {:induction false} IsInReading(
    zone: string, r: Realm, order: seq<string>, mirror: MirrorSnapshot, id: string, g: string)
    requires ValidRealm(r) && ReadIn(zone, r, order, mirror)
    requires id in r.groups && NameIn(ZoneNaming(zone), r, id) == Some(g)
    ensures g in mirror
  {
    ReadsSnapshot(zone, r, order, mirror);
  }

  lemma {:induction false} SomeReading(zone: string, r: Realm, order: seq<string>) returns (mirror: MirrorSnapshot)
    requires ValidRealm(r) && IsOrder(r, order)
    ensures ReadIn(zone, r, order, mirror)
  {
    ListedWithIds(r, order);
    forall g | g in ListedIn(r, order) ensures exists v :: GroupMakes(zone, r)(g, v) {
      EntryMade(zone, r, g);
    }
    mirror := SnapshotOf(MappingIn(zone), GroupMakes(zone, r), ListedIn(r, order));
  }

  function Below(r: Realm, a: string): set<string>
    requires a in r.groups
  {
    set id | id in r.groups && r.groups[a].segs <= r.groups[id].segs
  }

  lemma {:induction false} FewerBelow(r: Realm, a: string, b: string)
    requires ValidRealm(r) && a in r.groups && b in r.groups && a != b && r.groups[a].segs <= r.groups[b].segs
    ensures Below(r, b) < Below(r, a)
  {
    assert r.groups[a].segs != r.groups[b].segs;
    assert a in Below(r, a) && a !in Below(r, b);
    forall id | id in Below(r, b) ensures id in Below(r, a) {
      var s, t, u := r.groups[a].segs, r.groups[b].segs, r.groups[id].segs;
      assert s <= t <= u ==> s <= u;
    }
  }

  /** At or below every mirror there is a lowest one of its name. */
  lemma {:induction false} LowestBelow(n: Naming, r: Realm, a: string) returns (low: string)
    requires ValidRealm(r) && a in r.groups && NameIn(n, r, a).Some?
    ensures Lowest(n, r, low) && Twins(n, r, a, low) && r.groups[a].segs <= r.groups[low].segs
    decreases Below(r, a)
  {
    if Lowest(n, r, a) {
      low := a;
    } else {
      var b :| Twins(n, r, a, b) && r.groups[a].segs <= r.groups[b].segs && b != a;
      FewerBelow(r, a, b);
      low := LowestBelow(n, r, b);
      var s, t, u := r.groups[a].segs, r.groups[b].segs, r.groups[low].segs;
      assert s <= t <= u ==> s <= u;
    }
  }

  /** What is read of the mirrors does not depend on how Keycloak orders the groups if and only if of two mirrors of one
      name one always lies below the other. */
  lemma {:induction false} MirrorOrderMatters(zone: string, r: Realm)
    requires ValidRealm(r)
    ensures OneMirrorReading(zone, r) <==> TwinsNested(ZoneNaming(zone), r)
  {
    var n := ZoneNaming(zone);
    if TwinsNested(n, r) {
      forall o, o', a, b | ReadIn(zone, r, o, a) && ReadIn(zone, r, o', b) ensures a == b {
        SameWhenNested(zone, r, o, o', a, b);
      }
    }
    if OneMirrorReading(zone, r) {
      forall a, b | Twins(n, r, a, b)
        ensures r.groups[a].segs <= r.groups[b].segs || r.groups[b].segs <= r.groups[a].segs
      {
        OneReadingNested(zone, r, a, b);
      }
    }
  }

  lemma {:induction false} SameWhenNested(
    zone: string, r: Realm, o: seq<string>, o': seq<string>, a: MirrorSnapshot, b: MirrorSnapshot)
    requires ValidRealm(r) && TwinsNested(ZoneNaming(zone), r) && ReadIn(zone, r, o, a) && ReadIn(zone, r, o', b)
    ensures a == b
  {
    forall g | g in a ensures g in b && a[g] == b[g] {
      SameNameWhenNested(zone, r, o, o', a, b, g);
    }
    forall g | g in b ensures g in a {
      SameNameWhenNested(zone, r, o', o, b, a, g);
    }
    SameMaps(a, b);
  }

  lemma {:induction false} SameMaps<K, V>(a: map<K, V>, b: map<K, V>)
    requires (forall g | g in a :: g in b && a[g] == b[g]) && forall g | g in b :: g in a
    ensures a == b
  {
    assert a.Keys == b.Keys;
  }

  lemma {:induction false} SameNameWhenNested(
    zone: string, r: Realm, o: seq<string>, o': seq<string>, a: MirrorSnapshot, b: MirrorSnapshot, g: string)
    requires ValidRealm(r) && TwinsNested(ZoneNaming(zone), r) && ReadIn(zone, r, o, a) && ReadIn(zone, r, o', b)
    requires g in a
    ensures g in b && a[g] == b[g]
  {
    var n := ZoneNaming(zone);
    ReadsLowest(zone, r, o, a, g);
    IsInReading(zone, r, o', b, a[g].id, g);
    ReadsLowest(zone, r, o', b, g);
    OneLowest(n, r, a[g].id, b[g].id);
    SameRead(zone, r, o, o', a, b, g);
  }

  lemma {:induction false} OneLowest(n: Naming, r: Realm, a: string, b: string)
    requires TwinsNested(n, r) && Lowest(n, r, a) && Lowest(n, r, b) && NameIn(n, r, a) == NameIn(n, r, b)
    ensures a == b
  {
    assert Twins(n, r, a, b) && Twins(n, r, b, a);
  }

  lemma {:induction false} SameRead(
    zone: string, r: Realm, o: seq<string>, o': seq<string>, a: MirrorSnapshot, b: MirrorSnapshot, g: string)
    requires ValidRealm(r) && ReadIn(zone, r, o, a) && ReadIn(zone, r, o', b)
    requires g in a && g in b && a[g].id == b[g].id
    ensures a[g] == b[g]
  {
    ReadsSnapshot(zone, r, o, a);
    ReadsSnapshot(zone, r, o', b);
    SameEntry(r, a[g].id, a[g], b[g]);
  }

  lemma {:induction false} OneReadingNested(zone: string, r: Realm, a: string, b: string)
    requires ValidRealm(r) && OneMirrorReading(zone, r) && Twins(ZoneNaming(zone), r, a, b)
    ensures r.groups[a].segs <= r.groups[b].segs || r.groups[b].segs <= r.groups[a].segs
  {
    var n := ZoneNaming(zone);
    var low := LowestBelow(n, r, a);
    var other := LowestBelow(n, r, b);
    BothReadSame(zone, r, low, other, NameIn(n, r, a).value);
    PrefixesNest(r.groups[a].segs, r.groups[b].segs, r.groups[low].segs);
  }

  lemma {:induction false} PrefixesNest(s: seq<string>, t: seq<string>, u: seq<string>)
    requires s <= u && t <= u
    ensures s <= t || t <= s
  {
    assert s == u[..|s|] && t == u[..|t|];
    assert |s| <= |t| ==> s <= t;
  }

  lemma {:induction false} BothReadSame(zone: string, r: Realm, a: string, b: string, g: string)
    requires ValidRealm(r) && OneMirrorReading(zone, r) && Lowest(ZoneNaming(zone), r, a)
    requires Lowest(ZoneNaming(zone), r, b)
    requires NameIn(ZoneNaming(zone), r, a) == NameIn(ZoneNaming(zone), r, b) == Some(g)
    ensures a == b
  {
    var o, x := LowestIsRead(zone, r, a, g);
    var o', y := LowestIsRead(zone, r, b, g);
    assert x == y;
  }

  // ----- the plan -----

  /** However Keycloak orders the groups, the plan is the same apart from its id. */
  ghost predicate OnePlan(realm: string, zone: string, irods: IrodsSnapshot, r: Realm) {
    forall o, o', a, b, p, xs, q, ws |
      ReadIn(zone, r, o, a) && IsPlan(realm, zone, irods, a, p, xs)
      && ReadIn(zone, r, o', b) && IsPlan(realm, zone, irods, b, q, ws) ::
      p.(planId := "") == q.(planId := "")
  }

  /** A mirror that needs nothing. */
  ghost predicate InOrder(zone: string, irods: IrodsSnapshot, r: Realm, id: string)
    requires id in r.groups && NameIn(ZoneNaming(zone), r, id).Some?
  {
    var g := NameIn(ZoneNaming(zone), r, id).value;
    g in irods && NamesOf(r, id).Keys == irods[g].members
  }

  /** Where a name has more than one lowest mirror, all its lowest mirrors are in order. */
  ghost predicate LowestInOrder(zone: string, irods: IrodsSnapshot, r: Realm) {
    var n := ZoneNaming(zone);
    forall a, b | Twins(n, r, a, b) && a != b && Lowest(n, r, a) && Lowest(n, r, b) :: InOrder(zone, irods, r, a)
  }

  /** An operation on a mirror tells the mirror's id. */
  lemma {:induction false} OperationTellsId(
    i: nat, realm: string, irods: IrodsSnapshot, mirror: MirrorSnapshot, x: Item)
    requires InDiff(irods, mirror, x) && x.group in mirror && TrimSpace(mirror[x.group].id) == mirror[x.group].id != ""
    ensures var evidence := Operation(i, realm, irods, mirror, x).evidence;
            && IrodsGroupName in evidence && evidence[IrodsGroupName] == x.group
            && KeycloakGroupId in evidence && evidence[KeycloakGroupId] == mirror[x.group].id
  {
  }

  lemma {:induction false} OperationTellsGroup(
    i: nat, realm: string, irods: IrodsSnapshot, mirror: MirrorSnapshot, x: Item)
    ensures var evidence := Operation(i, realm, irods, mirror, x).evidence;
            IrodsGroupName in evidence && evidence[IrodsGroupName] == x.group
  {
  }

  lemma {:induction false} OperationsDiffer(
    i: nat, realm: string, irods: IrodsSnapshot, zone: string, r: Realm, a: MirrorSnapshot, b: MirrorSnapshot,
    x: Item, y: Item)
    requires ValidRealm(r) && IsSnapshot(ZoneNaming(zone), r, a) && IsSnapshot(ZoneNaming(zone), r, b)
    requires InDiff(irods, a, x) && x.group in a && x.group in b && a[x.group].id != b[x.group].id
    requires InDiff(irods, b, y)
    ensures Operation(i, realm, irods, a, x) != Operation(i, realm, irods, b, y)
  {
    OperationTellsGroup(i, realm, irods, a, x);
    OperationTellsGroup(i, realm, irods, b, y);
    if x.group == y.group {
      SnapshotIds(zone, r, a, x.group);
      SnapshotIds(zone, r, b, x.group);
      OperationTellsId(i, realm, irods, a, x);
      OperationTellsId(i, realm, irods, b, y);
    }
  }

  lemma {:induction false} ListsDiffer(make: Maker, other: Maker, xs: seq<Item>, ys: seq<Item>, x: Item)
    requires x in xs && forall i: nat, y | y in ys :: make(i, x) != other(i, y)
    ensures Operations(make, xs) != Operations(other, ys)
  {
    var i :| 0 <= i < |xs| && xs[i] == x;
    if |xs| == |ys| {
      assert Operations(make, xs)[i] == make(i + 1, x) != other(i + 1, ys[i]) == Operations(other, ys)[i];
    }
  }

  lemma {:induction false} ListsAgree(make: Maker, other: Maker, xs: seq<Item>)
    requires forall i: nat, x | x in xs :: make(i, x) == other(i, x)
    ensures Operations(make, xs) == Operations(other, xs)
  {
  }

  /** An operation depends on the mirror of its own group only. */
  lemma {:induction false} OperationIsLocal(
    i: nat, realm: string, irods: IrodsSnapshot, a: MirrorSnapshot, b: MirrorSnapshot, x: Item)
    requires x.group in a <==> x.group in b
    requires x.group in a ==> a[x.group] == b[x.group]
    ensures Operation(i, realm, irods, a, x) == Operation(i, realm, irods, b, x)
  {
  }

  lemma {:induction false} SnapshotIds(zone: string, r: Realm, mirror: MirrorSnapshot, g: string)
    requires ValidRealm(r) && IsSnapshot(ZoneNaming(zone), r, mirror) && g in mirror
    ensures TrimSpace(mirror[g].id) == mirror[g].id != ""
    ensures mirror[g].members.Keys == NamesOf(r, mirror[g].id).Keys
  {
    assert ValidRecord(r, mirror[g].id);
    EntryMirrors(r, mirror[g].id, mirror[g].zone);
    SameEntry(r, mirror[g].id, mirror[g], EntryOf(r, mirror[g].id, mirror[g].zone));
  }

  lemma {:induction false} NamedAlike(n: Naming, r: Realm, a: MirrorSnapshot, b: MirrorSnapshot, g: string)
    requires IsSnapshot(n, r, a) && IsSnapshot(n, r, b) && g in a
    ensures g in b && NameIn(n, r, a[g].id) == NameIn(n, r, b[g].id) == Some(g)
  {
    assert NameIn(n, r, a[g].id) == Some(g);
  }

  /** The two readings show the same of every name, or mirrors that need nothing. */
  ghost predicate Alike(
    zone: string, irods: IrodsSnapshot, r: Realm, a: MirrorSnapshot, b: MirrorSnapshot)
    requires IsSnapshot(ZoneNaming(zone), r, a) && IsSnapshot(ZoneNaming(zone), r, b)
  {
    forall g | g in a && g in b && a[g].id != b[g].id ::
      InOrder(zone, irods, r, a[g].id) && InOrder(zone, irods, r, b[g].id)
  }

  lemma {:induction false} ReadAlike(
    zone: string, irods: IrodsSnapshot, r: Realm, a: MirrorSnapshot, b: MirrorSnapshot, g: string)
    requires ValidRealm(r) && IsSnapshot(ZoneNaming(zone), r, a) && IsSnapshot(ZoneNaming(zone), r, b)
    requires (forall h | h in a :: a[h].zone == zone) && forall h | h in b :: b[h].zone == zone
    requires Alike(zone, irods, r, a, b)
    ensures g in a <==> g in b
    ensures g in a && a[g] != b[g] ==>
              g in irods && a[g].members.Keys == irods[g].members && b[g].members.Keys == irods[g].members
  {
    var n := ZoneNaming(zone);
    if g in b {
      NamedAlike(n, r, b, a, g);
    }
    if g in a {
      NamedAlike(n, r, a, b, g);
      SnapshotIds(zone, r, a, g);
      SnapshotIds(zone, r, b, g);
      if a[g].id == b[g].id {
        SameEntry(r, a[g].id, a[g], b[g]);
      }
    }
  }

  lemma {:induction false} PlannedAlike(
    realm: string, zone: string, irods: IrodsSnapshot, r: Realm, a: MirrorSnapshot, b: MirrorSnapshot,
    p: SyncPlan, xs: seq<Item>, q: SyncPlan, ws: seq<Item>)
    requires ValidRealm(r) && IsSnapshot(ZoneNaming(zone), r, a) && IsSnapshot(ZoneNaming(zone), r, b)
    requires (forall h | h in a :: a[h].zone == zone) && forall h | h in b :: b[h].zone == zone
    requires Alike(zone, irods, r, a, b)
    requires IsPlan(realm, zone, irods, a, p, xs) && IsPlan(realm, zone, irods, b, q, ws)
    ensures p.(planId := "") == q.(planId := "")
  {
    forall x ensures x in xs <==> x in ws {
      ReadAlike(zone, irods, r, a, b, x.group);
    }
    OrderIsUnique(xs, ws);
    forall i: nat, x | x in xs
      ensures MakerOf(realm, irods, a)(i, x) == MakerOf(realm, irods, b)(i, x)
    {
      ReadAlike(zone, irods, r, a, b, x.group);
      OperationIsLocal(i, realm, irods, a, b, x);
    }
    ListsAgree(MakerOf(realm, irods, a), MakerOf(realm, irods, b), xs);
  }

  lemma {:induction false} ReadingsAlike(
    zone: string, irods: IrodsSnapshot, r: Realm, o: seq<string>, o': seq<string>,
    a: MirrorSnapshot, b: MirrorSnapshot)
    requires ValidRealm(r) && LowestInOrder(zone, irods, r) && ReadIn(zone, r, o, a) && ReadIn(zone, r, o', b)
    requires IsSnapshot(ZoneNaming(zone), r, a) && IsSnapshot(ZoneNaming(zone), r, b)
    ensures Alike(zone, irods, r, a, b)
  {
    forall g | g in a && g in b && a[g].id != b[g].id
      ensures InOrder(zone, irods, r, a[g].id) && InOrder(zone, irods, r, b[g].id)
    {
      ReadsLowest(zone, r, o, a, g);
      ReadsLowest(zone, r, o', b, g);
      assert Twins(ZoneNaming(zone), r, a[g].id, b[g].id) && Twins(ZoneNaming(zone), r, b[g].id, a[g].id);
    }
  }

  /** Plans for readings with different mirrors of a name differ when there is something to do for the name. */
  lemma {:induction false} PlannedApart(
    realm: string, zone: string, irods: IrodsSnapshot, r: Realm, a: MirrorSnapshot, b: MirrorSnapshot,
    p: SyncPlan, xs: seq<Item>, q: SyncPlan, ws: seq<Item>, x: Item)
    requires ValidRealm(r)
    requires IsSnapshot(ZoneNaming(zone), r, a) && IsSnapshot(ZoneNaming(zone), r, b)
    requires IsPlan(realm, zone, irods, a, p, xs) && IsPlan(realm, zone, irods, b, q, ws)
    requires InDiff(irods, a, x) && x.group in a && x.group in b && a[x.group].id != b[x.group].id
    ensures p.operations != q.operations
  {
    forall i: nat, y | y in ws
      ensures MakerOf(realm, irods, a)(i, x) != MakerOf(realm, irods, b)(i, y)
    {
      OperationsDiffer(i, realm, irods, zone, r, a, b, x, y);
    }
    ListsDiffer(MakerOf(realm, irods, a), MakerOf(realm, irods, b), xs, ws, x);
  }

  /** The plan does not depend, apart from its id, on how Keycloak orders the groups if and only if, wherever a name has
      more than one lowest mirror, all of these have exactly the members that iRODS has. */
  lemma {:induction false} PlanOrderMatters(realm: string, zone: string, irods: IrodsSnapshot, r: Realm)
    requires ValidRealm(r)
    ensures OnePlan(realm, zone, irods, r) <==> LowestInOrder(zone, irods, r)
  {
    var n := ZoneNaming(zone);
    if LowestInOrder(zone, irods, r) {
      forall o, o', a, b, p, xs, q, ws |
        ReadIn(zone, r, o, a) && IsPlan(realm, zone, irods, a, p, xs)
        && ReadIn(zone, r, o', b) && IsPlan(realm, zone, irods, b, q, ws)
        ensures p.(planId := "") == q.(planId := "")
      {
        ReadsSnapshot(zone, r, o, a);
        ReadsSnapshot(zone, r, o', b);
        ReadingsAlike(zone, irods, r, o, o', a, b);
        PlannedAlike(realm, zone, irods, r, a, b, p, xs, q, ws);
      }
    }
    if OnePlan(realm, zone, irods, r) {
      forall a, b | Twins(n, r, a, b) && a != b && Lowest(n, r, a) && Lowest(n, r, b)
        ensures InOrder(zone, irods, r, a)
      {
        OnePlanInOrder(realm, zone, irods, r, a, b);
      }
    }
  }

  lemma {:induction false} OnePlanInOrder(
    realm: string, zone: string, irods: IrodsSnapshot, r: Realm, x: string, y: string)
    requires ValidRealm(r) && OnePlan(realm, zone, irods, r) && Twins(ZoneNaming(zone), r, x, y) && x != y
    requires Lowest(ZoneNaming(zone), r, x) && Lowest(ZoneNaming(zone), r, y)
    ensures InOrder(zone, irods, r, x)
  {
    var g := NameIn(ZoneNaming(zone), r, x).value;
    var o, a := LowestIsRead(zone, r, x, g);
    var o', b := LowestIsRead(zone, r, y, g);
    ReadsSnapshot(zone, r, o, a);
    ReadsSnapshot(zone, r, o', b);
    var p, xs := PlanExists(realm, zone, irods, a, "");
    var q, ws := PlanExists(realm, zone, irods, b, "");
    assert p.(planId := "") == q.(planId := "");
    SnapshotIds(zone, r, a, g);
    if !InOrder(zone, irods, r, x) {
      var item := Undone(irods, a, g);
      PlannedApart(realm, zone, irods, r, a, b, p, xs, q, ws, item);
    }
  }

  lemma {:induction false} Undone(irods: IrodsSnapshot, mirror: MirrorSnapshot, g: string) returns (x: Item)
    requires g in mirror && !(g in irods && mirror[g].members.Keys == irods[g].members)
    ensures InDiff(irods, mirror, x) && x.group == g
  {
    if g !in irods {
      x := Stale(g);
    } else if u :| u in irods[g].members && u !in mirror[g].members {
      x := Absent(g, u);
    } else {
      var u :| u in mirror[g].members && u !in irods[g].members;
      x := Extra(g, u);
    }
  }
}
