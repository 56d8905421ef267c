/** The Keycloak server as the client sees it: one method per request. An assumption about the environment, with
    requests that may fail, answers that may get lost, and other clients that may add groups. */
module KeycloakServer {
  import opened Paths
  import opened Groups
  import opened Flattening
  import opened Realms

  datatype Reply<+T> = Success(value: T) | NotFound | Conflict | Failed

  /** The ids of the groups directly below a path, in listing order. */
  function ChildIds(r: Realm, order: seq<string>, p: seq<string>): seq<string> {
    if order == [] then []
    else (if IsChild(r, p, order[0]) then [order[0]] else []) + ChildIds(r, order[1..], p)
  }

  predicate IsChild(r: Realm, p: seq<string>, id: string) {
    id in r.groups && r.groups[id].segs != [] && Init(r.groups[id].segs) == p
  }

  lemma {:induction false} ChildIdsFacts(r: Realm, order: seq<string>, p: seq<string>)
    ensures forall id :: id in ChildIds(r, order, p) <==> id in order && IsChild(r, p, id)
  {
    if order != [] {
      assert order == [order[0]] + order[1..];
      ChildIdsFacts(r, order[1..], p);
    }
  }

  /** A listed group: its children are counted, not inlined. */
  function Response(r: Realm, order: seq<string>, id: string): GroupResponse
    requires id in r.groups && r.groups[id].segs != []
  {
    var g := r.groups[id];
    GroupResponse(Group(id, PathOf(g.segs), Name(g.segs), g.attributes), |ChildIds(r, order, g.segs)|, [])
  }

  function Responses(r: Realm, order: seq<string>, ids: seq<string>): seq<GroupResponse>
    requires forall id | id in ids :: id in r.groups && r.groups[id].segs != []
  {
    seq(|ids|, i requires 0 <= i < |ids| => Response(r, order, ids[i]))
  }

  function Listing(r: Realm, order: seq<string>, p: seq<string>): seq<GroupResponse> {
    ChildIdsFacts(r, order, p);
    Responses(r, order, ChildIds(r, order, p))
  }

  /** The forest as a graph of listings. */
  function ForestOf(r: Realm, order: seq<string>): Graph {
    Graph(Listing(r, order, []), map id | id in r.groups :: Listing(r, order, r.groups[id].segs))
  }

  function Page<T>(items: seq<T>, first: nat, max: nat): seq<T> {
    if first >= |items| then [] else if first + max >= |items| then items[first..] else items[first..first + max]
  }

  ghost predicate NoRepeats(ids: seq<string>) {
    forall i, j | 0 <= i < j < |ids| :: ids[i] != ids[j]
  }

  /** An order of all the groups of a realm. */
  ghost predicate IsOrder(r: Realm, order: seq<string>) {
    NoRepeats(order) && forall id :: id in order <==> id in r.groups
  }

  /** Creating a group adds it, unless there is one in its place; then there is a conflict and nothing changes. */
  ghost predicate Posted(r: Realm, s: Realm, segs: seq<string>, attributes: Attributes, reply: Reply<()>) {
    if Has(r, segs) then s == r && !reply.Success? else Growing(r, s, segs, attributes) && !reply.Conflict?
  }

  /** The ids still to be drawn are none of those used before. */
  ghost predicate Unused(supply: nat -> string, issued: nat, used: set<string>) {
    forall n: nat | n >= issued :: supply(n) !in used
  }

  class Server {
    var realm: Realm
    var order: seq<string>
    /** Ids for new groups; none is drawn twice. */
    const supply: nat -> string
    var issued: nat
    /** No request fails for reasons of its own. */
    const reliable: bool
    /** No other client adds groups. */
    const quiet: bool

    constructor (realm: Realm, order: seq<string>, supply: nat -> string, reliable: bool, quiet: bool)
      requires ValidRealm(realm) && IsOrder(realm, order)
      requires forall n: nat :: ValidId(supply(n)) && supply(n) !in realm.groups && supply(n) !in realm.retired
      requires forall m: nat, n: nat | m != n :: supply(m) != supply(n)
      ensures Valid() && this.realm == realm && this.order == order
      ensures this.reliable == reliable && this.quiet == quiet
    {
      this.realm, this.order, this.supply, this.issued := realm, order, supply, 0;
      this.reliable, this.quiet := reliable, quiet;
    }

    ghost predicate Valid()
      reads this
    {
      ValidRealm(realm) && ValidOrder() && GoodSupply()
    }

    ghost predicate ValidOrder()
      reads this
    {
      IsOrder(realm, order)
    }

    ghost predicate GoodSupply()
      reads this
    {
      && (forall n: nat :: ValidId(supply(n)))
      && (forall m: nat, n: nat | m != n :: supply(m) != supply(n))
      && Unused(supply, issued, realm.groups.Keys + realm.retired)
    }

    method Faulty() returns (fails: bool)
      ensures reliable ==> !fails
    {
      var chance: bool := *;
      fails := !reliable && chance;
    }

    // ----- GET -----

    method GetTopGroups(first: nat, max: nat) returns (reply: Reply<seq<GroupResponse>>)
      ensures reply.Success? || reply.Failed?
      ensures reply.Success? ==> reply.value == Page(Listing(realm, order, []), first, max)
      ensures reliable ==> reply.Success?
    {
      var fails := Faulty();
      reply := if fails then Failed else Success(Page(Listing(realm, order, []), first, max));
    }

    method GetChildren(id: string, first: nat, max: nat) returns (reply: Reply<seq<GroupResponse>>)
      ensures reply.Success? ==>
                id in realm.groups && reply.value == Page(Listing(realm, order, realm.groups[id].segs), first, max)
      ensures reliable && id in realm.groups ==> reply.Success?
    {
      var fails := Faulty();
      if fails {
        return Failed;
      }
      if id !in realm.groups {
        return NotFound;
      }
      reply := Success(Page(Listing(realm, order, realm.groups[id].segs), first, max));
    }

    /** All the members of a group, in any order. */
    method GetMembers(id: string) returns (reply: Reply<seq<User>>)
      requires Valid()
      ensures reply.Success? ==> id in realm.groups && MembersListed(realm, id, reply.value)
      ensures reply.NotFound? ==> id !in realm.groups
      ensures reply.Success? || reply.NotFound? || reply.Failed?
      ensures reliable ==> !reply.Failed?
    {
      var fails := Faulty();
      if fails {
        return Failed;
      }
      if id !in realm.groups {
        return NotFound;
      }
      assert ValidRecord(realm, id);
      var rest: set<string>, users: seq<User> := realm.groups[id].members, [];
      while rest != {}
        invariant rest <= realm.groups[id].members
        invariant forall u: User :: u in users ==>
                    u.id in realm.groups[id].members - rest && realm.users[u.id] == u.username
        invariant forall uid | uid in realm.groups[id].members - rest :: User(uid, realm.users[uid]) in users
        decreases |rest|
      {
        var uid :| uid in rest;
        rest, users := rest - {uid}, users + [User(uid, realm.users[uid])];
      }
      reply := Success(users);
    }

    /** The users with exactly this username: none or one. */
    method FindUsers(username: string) returns (reply: Reply<seq<User>>)
      requires Valid()
      ensures reply.Success? || reply.Failed?
      ensures reliable ==> reply.Success?
      ensures reply.Success? && reply.value == [] ==> username !in realm.users.Values
      ensures reply.Success? && reply.value != [] ==>
                var u := reply.value[0]; u.id in realm.users && realm.users[u.id] == u.username == username
    {
      var fails := Faulty();
      if fails {
        return Failed;
      }
      if username in realm.users.Values {
        var uid :| uid in realm.users && realm.users[uid] == username;
        reply := Success([User(uid, username)]);
      } else {
        reply := Success([]);
      }
    }

    // ----- POST -----

    /** Draws an id and adds a group below an existing parent. */
    method AddGroup(segs: seq<string>, attributes: Attributes)
      requires Valid() && segs != [] && CleanNames(segs) && !Has(realm, segs)
      requires |segs| > 1 ==> Has(realm, Init(segs))
      modifies this
      ensures Valid() && Growing(old(realm), realm, segs, attributes) && Has(realm, segs)
    {
      var id := supply(issued);
      InsertIsGrowing(realm, id, segs, attributes);
      realm, order, issued := Insert(realm, id, segs, attributes), order + [id], issued + 1;
      assert At(realm, segs, id);
    }

    /** Other clients add any groups that fit. */
    method OthersAdd()
      requires Valid()
      modifies this
      ensures Valid() && Grew(old(realm), realm)
      ensures quiet ==> realm == old(realm)
    {
      if quiet {
        return;
      }
      var count: int := *;
      while count > 0
        invariant Valid() && Grew(old(realm), realm)
        decreases count
      {
        count := count - 1;
        var parent: seq<string>, name: string, attributes: Attributes := *, *, *;
        var segs := parent + [name];
        if CleanNames(segs) && (parent == [] || Occupied(parent)) && !Occupied(segs) {
          assert Init(segs) == parent;
          ghost var before := realm;
          AddGroup(segs, attributes);
          GrewTwice(old(realm), before, realm);
        }
      }
    }

    predicate Occupied(p: seq<string>)
      reads this
      ensures Occupied(p) <==> Has(realm, p)
    {
      assert forall id :: At(realm, p, id) <==> id in realm.groups && realm.groups[id].segs == p;
      exists id | id in realm.groups :: realm.groups[id].segs == p
    }

    /** Creates a group at the top or below a parent given by id. */
    method PostGroup(parent: string, top: bool, name: string, attributes: Attributes) returns (reply: Reply<()>)
      requires Valid()
      modifies this
      ensures Valid() && Grew(old(realm), realm)
      ensures top || parent in old(realm).groups ==>
        var segs := (if top then [] else old(realm).groups[parent].segs) + [name];
        && (quiet ==> Posted(old(realm), realm, segs, attributes, reply))
        && (reply.Success? || reply.Conflict? ==> Has(realm, segs))
        && (reliable && CleanName(name) ==> reply.Success? || reply.Conflict?)
    {
      assert top || parent !in realm.groups || ValidRecord(realm, parent);
      OthersAdd();
      if !top && parent !in realm.groups {
        return NotFound;
      }
      assert top || At(realm, realm.groups[parent].segs, parent);
      reply := PostAt(if top then [] else realm.groups[parent].segs, name, attributes);
    }

    method PostAt(above: seq<string>, name: string, attributes: Attributes) returns (reply: Reply<()>)
      requires Valid() && CleanNames(above) && (above == [] || Has(realm, above))
      modifies this
      ensures Valid() && Grew(old(realm), realm)
      ensures Posted(old(realm), realm, above + [name], attributes, reply)
      ensures reply.Success? || reply.Conflict? ==> Has(realm, above + [name])
      ensures reliable && CleanName(name) ==> reply.Success? || reply.Conflict?
    {
      var segs := above + [name];
      assert Init(segs) == above;
      var fails := Faulty();
      var lost: bool := *;
      if !CleanName(name) || (fails && !lost) {
        return Failed;
      }
      if Occupied(segs) {
        return if fails then Failed else Conflict;
      }
      AddGroup(segs, attributes);
      reply := if fails then Failed else Success(());
    }

    // ----- PUT and DELETE -----

    /** Replaces the attributes of a group. A change of name is refused. */
    method PutGroup(id: string, name: string, attributes: Attributes) returns (reply: Reply<()>)
      requires Valid()
      modifies this
      ensures Valid()
      ensures reply.Success? ==> id in old(realm).groups && realm == SetAttributes(old(realm), id, attributes)
      ensures realm == old(realm) || (id in old(realm).groups && realm == SetAttributes(old(realm), id, attributes))
      ensures reliable && id in old(realm).groups && name == Name(old(realm).groups[id].segs) ==> reply.Success?
    {
      if id !in realm.groups {
        return NotFound;
      }
      assert ValidRecord(realm, id);
      var fails := Faulty();
      var lost: bool := *;
      if name != Name(realm.groups[id].segs) || (fails && !lost) {
        return Failed;
      }
      EditKeepsValid(realm, id, realm.groups[id].(attributes := attributes));
      realm := SetAttributes(realm, id, attributes);
      reply := if fails then Failed else Success(());
    }

    method RemoveGroup(id: string) returns (reply: Reply<()>)
      requires Valid()
      modifies this
      ensures Valid()
      ensures reply.Success? ==> id in old(realm).groups && realm == DeleteSubtree(old(realm), id)
      ensures reply.NotFound? ==> id !in old(realm).groups && realm == old(realm)
      ensures realm == old(realm) || (id in old(realm).groups && realm == DeleteSubtree(old(realm), id))
      ensures reliable ==> reply.Success? || reply.NotFound?
    {
      if id !in realm.groups {
        var fails := Faulty();
        return if fails then Failed else NotFound;
      }
      var fails := Faulty();
      var lost: bool := *;
      if fails && !lost {
        return Failed;
      }
      CutOff(id);
      reply := if fails then Failed else Success(());
    }

    /** Takes a group and everything below it out of the forest. */
    method CutOff(id: string)
      requires Valid() && id in realm.groups
      modifies this
      ensures Valid() && realm == DeleteSubtree(old(realm), id)
    {
      DeleteKeepsValid(realm, id);
      IdsAfterDelete(realm, id);
      realm := DeleteSubtree(realm, id);
      order := Kept(order);
      assert GoodSupply();
    }

    method Kept(ids: seq<string>) returns (kept: seq<string>)
      requires NoRepeats(ids)
      ensures NoRepeats(kept)
      ensures forall id :: id in kept <==> id in ids && id in realm.groups
    {
      kept := [];
      for i := 0 to |ids|
        invariant NoRepeats(kept)
        invariant forall id :: id in kept <==> id in ids[..i] && id in realm.groups
      {
        if ids[i] in realm.groups {
          kept := kept + [ids[i]];
        }
      }
      assert ids[..|ids|] == ids;
    }

    method PutMember(uid: string, gid: string) returns (reply: Reply<()>)
      requires Valid()
      modifies this
      ensures Valid()
      ensures reply.Success? ==>
                uid in old(realm).users && gid in old(realm).groups && realm == AddMember(old(realm), gid, uid)
      ensures realm == old(realm) ||
                (uid in old(realm).users && gid in old(realm).groups && realm == AddMember(old(realm), gid, uid))
      ensures reliable && uid in old(realm).users && gid in old(realm).groups ==> reply.Success?
    {
      if uid !in realm.users || gid !in realm.groups {
        return NotFound;
      }
      assert ValidRecord(realm, gid);
      var fails := Faulty();
      var lost: bool := *;
      if fails && !lost {
        return Failed;
      }
      EditKeepsValid(realm, gid, realm.groups[gid].(members := realm.groups[gid].members + {uid}));
      realm := AddMember(realm, gid, uid);
      reply := if fails then Failed else Success(());
    }

    method DropMember(uid: string, gid: string) returns (reply: Reply<()>)
      requires Valid()
      modifies this
      ensures Valid()
      ensures reply.Success? ==> gid in old(realm).groups && realm == RemoveMember(old(realm), gid, uid)
      ensures reply.NotFound? ==>
                (uid !in old(realm).users || gid !in old(realm).groups) && realm == old(realm)
      ensures realm == old(realm) || (gid in old(realm).groups && realm == RemoveMember(old(realm), gid, uid))
      ensures reliable ==> reply.Success? || reply.NotFound?
    {
      var fails := Faulty();
      var lost: bool := *;
      if fails && !lost {
        return Failed;
      }
      if uid !in realm.users || gid !in realm.groups {
        return if fails then Failed else NotFound;
      }
      assert ValidRecord(realm, gid);
      EditKeepsValid(realm, gid, realm.groups[gid].(members := realm.groups[gid].members - {uid}));
      realm := RemoveMember(realm, gid, uid);
      reply := if fails then Failed else Success(());
    }
  }

  lemma {:induction false} IdsAfterDelete(r: Realm, gid: string)
    requires gid in r.groups
    ensures var s := DeleteSubtree(r, gid);
            s.groups.Keys <= r.groups.Keys && s.groups.Keys + s.retired == r.groups.Keys + r.retired
  {
  }

  /** Exactly the members of a group, with their usernames. */
  ghost predicate MembersListed(r: Realm, gid: string, users: seq<User>)
    requires gid in r.groups
  {
    && (forall u | u in users :: u.id in r.groups[gid].members && u.id in r.users && r.users[u.id] == u.username)
    && (forall uid | uid in r.groups[gid].members :: uid in r.users && User(uid, r.users[uid]) in users)
  }
}
