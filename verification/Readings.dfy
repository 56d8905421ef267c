/** How many ways there are to read the mirrors of a realm: at least one, and just one when each name is mirrored
    once. */
module Readings {
  import opened Wrappers
  import opened Paths
  import opened Realms
  import opened Mirrors
  import opened Reach

  ghost function IdOf(r: Realm, u: string): string
    requires IsUsername(r, u)
  {
    var uid :| uid in r.users && r.users[uid] == u;
    uid
  }

  /** The members of a group by username. */
  ghost function NamesOf(r: Realm, id: string): map<string, string>
    requires id in r.groups
  {
    map u | u in (set uid | uid in r.groups[id].members && uid in r.users :: r.users[uid]) :: IdOf(r, u)
  }

  /** The entry of a group. */
  ghost function EntryOf(r: Realm, id: string, zone: string): MirrorGroup
    requires id in r.groups
  {
    MirrorGroup(id, PathOf(r.groups[id].segs), zone, NamesOf(r, id))
  }

  lemma {:induction false} EntryMirrors(r: Realm, id: string, zone: string)
    requires ValidRealm(r) && id in r.groups
    ensures Mirrored(r, id, EntryOf(r, id, zone))
  {
    assert ValidRecord(r, id);
    var names := NamesOf(r, id);
    forall uid | uid in r.groups[id].members
      ensures uid in r.users && r.users[uid] in names && names[r.users[uid]] == uid
    {
    }
  }

  ghost predicate IsMirrorName(n: Naming, r: Realm, g: string) {
    exists id :: id in r.groups && NameIn(n, r, id) == Some(g)
  }

  ghost function MirrorNames(n: Naming, r: Realm): (names: set<string>)
    ensures forall g | g in names :: IsMirrorName(n, r, g)
  {
    set id | id in r.groups && NameIn(n, r, id).Some? :: NameIn(n, r, id).value
  }

  ghost function MirrorOf(n: Naming, r: Realm, g: string): string
    requires IsMirrorName(n, r, g)
  {
    var id :| id in r.groups && NameIn(n, r, id) == Some(g);
    id
  }

  /** The mirrors of a valid realm can be read. */
  lemma {:induction false} SnapshotExists(n: Naming, r: Realm, zone: string) returns (mirror: MirrorSnapshot)
    requires ValidRealm(r)
    ensures IsSnapshot(n, r, mirror) && forall g | g in mirror :: mirror[g].zone == zone
  {
    mirror := map g | g in MirrorNames(n, r) :: EntryOf(r, MirrorOf(n, r, g), zone);
    forall id | id in r.groups && NameIn(n, r, id).Some? ensures NameIn(n, r, id).value in mirror {
      assert NameIn(n, r, id).value in MirrorNames(n, r);
    }
    forall g | g in mirror
      ensures mirror[g].id in r.groups && NameIn(n, r, mirror[g].id) == Some(g) && Mirrored(r, mirror[g].id, mirror[g])
    {
      EntryMirrors(r, MirrorOf(n, r, g), zone);
    }
  }

  lemma {:induction false} SameEntry(r: Realm, id: string, a: MirrorGroup, b: MirrorGroup)
    requires id in r.groups && Mirrored(r, id, a) && Mirrored(r, id, b) && a.zone == b.zone
    ensures a == b
  {
    forall u ensures u in a.members <==> u in b.members {
      assert u in a.members ==> a.members[u] in r.groups[id].members;
      assert u in b.members ==> b.members[u] in r.groups[id].members;
    }
    assert a.members.Keys == b.members.Keys;
    forall u | u in a.members ensures a.members[u] == b.members[u] {
      assert a.members[u] in r.groups[id].members;
    }
  }

  /** When each name is mirrored once, a realm has one snapshot in a zone, however it was listed. */
  lemma {:induction false} OneMirrorOneSnapshot(n: Naming, r: Realm, zone: string, a: MirrorSnapshot, b: MirrorSnapshot)
    requires OneMirrorEach(n, r) && IsSnapshot(n, r, a) && IsSnapshot(n, r, b)
    requires (forall g | g in a :: a[g].zone == zone) && forall g | g in b :: b[g].zone == zone
    ensures a == b
  {
    forall g ensures (g in a <==> g in b) && (g in a && g in b ==> a[g] == b[g]) {
      if g in a || g in b {
        var id := if g in a then a[g].id else b[g].id;
        assert id in r.groups && NameIn(n, r, id) == Some(g);
        assert g in a && g in b;
        SameEntry(r, id, a[g], b[g]);
      }
    }
    assert a.Keys == b.Keys;
  }
}
