/** The Keycloak admin client without its transport (internal/keycloakadmin/http_client.go). */
module KeycloakClient {
  import opened Wrappers
  import opened Text
  import opened Paths
  import opened Groups
  import opened Flattening
  import opened Realms
  import opened KeycloakServer
  import opened Listings

  const PAGE_SIZE := 100

  datatype ClientError =
    | RequestFailed | GroupNotFound | UserNotFound | NotFoundAfterCreate
    | GroupReferenceRequired | UserReferenceRequired | PathOrNameRequired

  /** matchingMember's test. */
  predicate Matches(m: User, userId: string, ref: string, resolved: Option<User>) {
    || (TrimSpace(userId) != "" && TrimSpace(m.id) == TrimSpace(userId))
    || (TrimSpace(ref) != "" && TrimSpace(m.username) == TrimSpace(ref))
    || (resolved.Some? && TrimSpace(resolved.value.username) != "" &&
        TrimSpace(m.username) == TrimSpace(resolved.value.username))
  }

  /** matchingMember: the first member that passes its test. */
  method MatchingMember(members: seq<User>, userId: string, ref: string, resolved: Option<User>)
    returns (found: Option<User>)
    ensures found.Some? ==> found.value in members && Matches(found.value, userId, ref, resolved)
    ensures found.None? ==> forall m | m in members :: !Matches(m, userId, ref, resolved)
  {
    found := FirstMember(members, (m: User) => Matches(m, userId, ref, resolved));
  }

  method FirstMember(members: seq<User>, passes: User -> bool) returns (found: Option<User>)
    ensures found.Some? ==> found.value in members && passes(found.value)
    ensures found.None? ==> forall m | m in members :: !passes(m)
  {
    for i := 0 to |members|
      invariant forall m | m in members[..i] :: !passes(m)
    {
      if passes(members[i]) {
        return Some(members[i]);
      }
    }
    assert members[..|members|] == members;
    found := None;
  }

  /** What resolving a user reference yields: the id to use, and the user when it was found by name. */
  ghost predicate UserResolved(r: Realm, ref: string, uid: string, user: Option<User>) {
    && TrimSpace(ref) != "" && Trimmed(uid)
    && (user.Some? ==> user.value == User(uid, TrimSpace(ref)))
    && forall u :: IsUser(r, ref, u) <==> u == uid && uid in r.users
  }

  /** Among the listed members of a group, the test singles out the user the reference names. */
  lemma {:induction false} MatchIsMembership(
    r: Realm, gid: string, members: seq<User>, ref: string, uid: string, user: Option<User>, m: User)
    requires ValidRealm(r) && gid in r.groups && MembersListed(r, gid, members) && UserResolved(r, ref, uid, user)
    requires m in members
    ensures Matches(m, uid, ref, user) <==> m.id == uid
  {
    assert ValidUser(r, m.id);
    if TrimSpace(m.username) == TrimSpace(ref) {
      assert IsUser(r, ref, m.id);
    }
  }

  ghost predicate GroupResolved(r: Realm, ref: string, gid: string) {
    && (gid == "" ==> forall g :: !IsGroup(r, ref, g))
    && (gid != "" ==> ValidId(gid) && forall g :: IsGroup(r, ref, g) <==> g == gid && gid in r.groups)
  }

  /** Whether a member was found tells whether the user is one; adding or removing then changes nothing. */
  lemma {:induction false} MatchMeansMember(
    r: Realm, gid: string, members: seq<User>, ref: string, uid: string, user: Option<User>, found: Option<User>)
    requires ValidRealm(r) && gid in r.groups && MembersListed(r, gid, members) && UserResolved(r, ref, uid, user)
    requires found.Some? ==> found.value in members && Matches(found.value, uid, ref, user)
    requires found.None? ==> forall m | m in members :: !Matches(m, uid, ref, user)
    ensures found.Some? <==> uid in r.groups[gid].members
    ensures found.Some? ==> uid in r.users && AddMember(r, gid, uid) == r
    ensures found.None? ==> RemoveMember(r, gid, uid) == r
  {
    assert ValidRecord(r, gid);
    if found.Some? {
      MatchIsMembership(r, gid, members, ref, uid, user, found.value);
      assert r.groups[gid].members + {uid} == r.groups[gid].members;
    } else {
      if uid in r.groups[gid].members {
        MatchIsMembership(r, gid, members, ref, uid, user, User(uid, r.users[uid]));
      }
      assert r.groups[gid].members - {uid} == r.groups[gid].members;
    }
    SameRecord(r, gid);
  }

  lemma {:induction false} ListedMatches(r: Realm, g: Group, path: string)
    requires ValidRealm(r) && g.id in r.groups && r.groups[g.id].segs != [] && g == GroupOf(r, g.id)
    ensures Normalize(g.path) == Normalize(path) <==> At(r, Segments(path), g.id)
  {
    assert ValidRecord(r, g.id);
    PathMatches(r.groups[g.id].segs, path);
  }

  /** The first listed group whose path is the wanted one; there is at most one. */
  method FirstAtPath(groups: seq<Group>, path: string, ghost r: Realm) returns (found: Option<Group>)
    requires ValidRealm(r) && GroupsListed(r, groups)
    ensures found.Some? ==> At(r, Segments(path), found.value.id) && Listed(r, found.value)
    ensures found.None? ==> !Has(r, Segments(path))
  {
    var wanted := Normalize(path);
    ghost var p := Segments(path);
    for i := 0 to |groups|
      invariant forall g | g in groups[..i] :: !At(r, p, g.id)
    {
      ListedMatches(r, groups[i], path);
      if Normalize(groups[i].path) == wanted {
        return Some(groups[i]);
      }
    }
    assert groups[..|groups|] == groups;
    AllPassedOver(r, groups, p);
    found := None;
  }

  lemma {:induction false} NamedByPath(r: Realm, ref: string)
    requires HasPrefix(TrimSpace(ref), "/")
    ensures forall g :: IsGroup(r, ref, g) <==> At(r, Segments(TrimSpace(ref)), g)
  {
  }

  lemma {:induction false} NamedById(r: Realm, gid: string)
    requires ValidId(gid)
    ensures TrimSpace(gid) == gid && forall g :: IsGroup(r, gid, g) <==> g == gid && gid in r.groups
  {
    assert !HasPrefix(gid, "/");
  }

  /** The user has become a member. */
  predicate Inserted(r: Realm, gid: string, uid: string, s: Realm) {
    gid in r.groups && uid in r.users && s == AddMember(r, gid, uid)
  }

  /** The user is not a member any more, or never was one. */
  predicate Removed(r: Realm, gid: string, uid: string, s: Realm) {
    if gid in r.groups && uid in r.users then s == RemoveMember(r, gid, uid) else s == r
  }

  lemma {:induction false} AddPermitted(
    r: Realm, user: string, group: string, uid: string, gid: string, ok: bool, s: Realm)
    requires gid != "" && GroupResolved(r, group, gid) && forall u :: IsUser(r, user, u) <==> u == uid && uid in r.users
    requires Inserted(r, gid, uid, s) || (!ok && s == r)
    ensures Permits(Call.AddUserToGroup(user, group), r, ok, s)
    ensures Enabled(Call.AddUserToGroup(user, group), r) <==> gid in r.groups && uid in r.users
  {
    assert forall u, g :: Both(r, user, group, u, g) <==> u == uid && uid in r.users && g == gid && gid in r.groups;
    assert gid in r.groups && uid in r.users ==> Both(r, user, group, uid, gid);
  }

  lemma {:induction false} RemovePermitted(
    r: Realm, user: string, group: string, uid: string, gid: string, ok: bool, s: Realm)
    requires gid != "" && GroupResolved(r, group, gid) && forall u :: IsUser(r, user, u) <==> u == uid && uid in r.users
    requires Removed(r, gid, uid, s) || (!ok && s == r)
    ensures Permits(Call.RemoveUserFromGroup(user, group), r, ok, s)
  {
    assert forall u, g :: Both(r, user, group, u, g) <==> u == uid && uid in r.users && g == gid && gid in r.groups;
    assert gid in r.groups && uid in r.users ==> Both(r, user, group, uid, gid);
  }

  lemma {:induction false} AllPassedOver(r: Realm, groups: seq<Group>, p: seq<string>)
    requires GroupsListed(r, groups) && forall g | g in groups :: !At(r, p, g.id)
    ensures !Has(r, p)
  {
  }

  class HTTPClient {
    const server: Server

    constructor (server: Server)
      ensures this.server == server
    {
      this.server := server;
    }

    ghost function TheForest(): Graph
      reads server
    {
      ForestOf(server.realm, server.order)
    }

    // ----- listing -----

    method ListGroupChildren(id: string) returns (r: Result<seq<GroupResponse>, ClientError>)
      ensures r.Ok? ==> r.value == Loaded(TheForest(), id)
      ensures server.reliable && id in server.realm.groups ==> r.Ok?
    {
      if TrimSpace(id) == "" {
        return Ok([]);
      }
      ghost var all := Loaded(TheForest(), id);
      var result, first := [], 0;
      while true
        invariant first <= |all| && result == all[..first]
        decreases |all| - first
      {
        var reply := server.GetChildren(id, first, PAGE_SIZE);
        if !reply.Success? {
          return Err(RequestFailed);
        }
        PageStep(all, first, reply.value);
        result := result + reply.value;
        if |reply.value| < PAGE_SIZE {
          break;
        }
        first := first + PAGE_SIZE;
      }
      r := Ok(result);
    }

    /** The walk below one listed group; result and seen stand for the walk so far. */
    method AppendGroupHierarchy(result: seq<Group>, seen: set<string>, node: GroupResponse, ghost w: Walk)
      returns (r: Result<(seq<Group>, set<string>), ClientError>)
      requires IdsIn([node]) <= Universe(TheForest()) && w.seen <= Universe(TheForest())
      requires Stands(result, seen, w)
      ensures r.Ok? ==> Stands(r.value.0, r.value.1, Visit(TheForest(), [node], w))
      ensures server.reliable && FromServer(server.realm, server.order, [node]) ==> r.Ok?
      decreases |Universe(TheForest()) - w.seen|, Weight([node]), 0
    {
      ghost var g := TheForest();
      if node.group.id != "" && node.group.id in seen {
        assert [node][1..] == [];
        return Ok((result, seen));
      }
      ChildrenInUniverse(g, [node]);
      VisitStep(g, [node], w);
      ghost var entered := Enter(w, node);
      EnterStands(result, seen, w, node);
      Shrinks(Universe(g), w.seen, entered.seen);
      ChildrenFromServer(server.realm, server.order, node);

      var children := node.subGroups;
      if node.subGroupCount > 0 {
        var loaded := ListGroupChildren(node.group.id);
        if loaded.Err? {
          return Err(loaded.error);
        }
        if |loaded.value| > 0 {
          children := loaded.value;
        }
      }
      assert [node][1..] == [];
      r := AppendAll(result + [node.group], if node.group.id != "" then seen + {node.group.id} else seen,
                     children, entered);
    }

    /** The loop over listed groups of appendGroupHierarchy and of ListGroups. */
    method AppendAll(result: seq<Group>, seen: set<string>, nodes: seq<GroupResponse>, ghost w: Walk)
      returns (r: Result<(seq<Group>, set<string>), ClientError>)
      requires IdsIn(nodes) <= Universe(TheForest()) && w.seen <= Universe(TheForest())
      requires Stands(result, seen, w)
      ensures r.Ok? ==> Stands(r.value.0, r.value.1, Visit(TheForest(), nodes, w))
      ensures server.reliable && FromServer(server.realm, server.order, nodes) ==> r.Ok?
      decreases |Universe(TheForest()) - w.seen|, Weight(nodes), 1
    {
      ghost var g, walk := TheForest(), w;
      var result, seen := result, seen;
      for i := 0 to |nodes|
        invariant IdsIn(nodes[..i]) <= Universe(g)
        invariant walk == Visit(g, nodes[..i], w)
        invariant Stands(result, seen, walk)
      {
        OneMore(g, nodes, i, w);
        Shrinks(Universe(g), w.seen, walk.seen);
        ElementOf(nodes, i);
        assert nodes[i] in nodes;
        var next := AppendGroupHierarchy(result, seen, nodes[i], walk);
        if next.Err? {
          return Err(next.error);
        }
        result, seen := next.value.0, next.value.1;
        walk := Visit(g, [nodes[i]], walk);
      }
      assert nodes[..|nodes|] == nodes;
      r := Ok((result, seen));
    }

    /** Every group visible to the client, flattened. */
    method ListGroups() returns (r: Result<seq<Group>, ClientError>)
      requires server.Valid()
      ensures r.Ok? ==> r.value == GroupsOf(Flatten(TheForest())) && GroupsListed(server.realm, r.value)
      ensures server.reliable ==> r.Ok?
    {
      ghost var g := TheForest();
      assert Ordered(server.realm, server.order) by {
        assert forall id | id in server.realm.groups :: ValidRecord(server.realm, id);
      }
      ForestFlattened(server.realm, server.order);
      RootsFromServer(server.realm, server.order);
      r := ListPages();
    }

    /** The paging loop of ListGroups. */
    method ListPages() returns (r: Result<seq<Group>, ClientError>)
      ensures r.Ok? ==> r.value == GroupsOf(Flatten(TheForest()))
      ensures server.reliable && FromServer(server.realm, server.order, TheForest().roots) ==> r.Ok?
    {
      ghost var g, start := TheForest(), Walk({}, []);
      ghost var roots := g.roots;
      var result: seq<Group>, seen: set<string>, first := [], {}, 0;
      while true
        invariant first <= |roots| && IdsIn(roots[..first]) <= Universe(g)
        invariant Stands(result, seen, Visit(g, roots[..first], start))
        decreases |roots| - first
      {
        var next := AppendPage(first, result, seen, g, start);
        if next.Err? {
          return Err(next.error);
        }
        var count := next.value.2;
        result, seen := next.value.0, next.value.1;
        if count < PAGE_SIZE {
          break;
        }
        first := first + PAGE_SIZE;
      }
      r := Ok(result);
    }

    /** One turn of the loop: the next page of the top groups, and how many groups it held. */
    method AppendPage(first: nat, result: seq<Group>, seen: set<string>, ghost g: Graph, ghost w: Walk)
      returns (r: Result<(seq<Group>, set<string>, nat), ClientError>)
      requires g == TheForest() && IdsIn(g.roots) <= Universe(g) && w.seen <= Universe(g)
      requires first <= |g.roots| && IdsIn(g.roots[..first]) <= Universe(g)
      requires Stands(result, seen, Visit(g, g.roots[..first], w))
      ensures r.Ok? ==> first + r.value.2 <= |g.roots| && IdsIn(g.roots[..first + r.value.2]) <= Universe(g)
      ensures r.Ok? ==> Stands(r.value.0, r.value.1, Visit(g, g.roots[..first + r.value.2], w))
      ensures r.Ok? ==> r.value.2 <= PAGE_SIZE && (r.value.2 < PAGE_SIZE ==> g.roots[..first + r.value.2] == g.roots)
      ensures server.reliable && FromServer(server.realm, server.order, g.roots) ==> r.Ok?
    {
      var page := GetPage(first, g);
      if page.Err? {
        return Err(page.error);
      }
      OnePageMore(g, g.roots, first, page.value, w);
      ghost var walk := Visit(g, g.roots[..first], w);
      var next := AppendAll(result, seen, page.value, walk);
      if next.Err? {
        return Err(next.error);
      }
      r := Ok((next.value.0, next.value.1, |page.value|));
    }

    method GetPage(first: nat, ghost g: Graph) returns (r: Result<seq<GroupResponse>, ClientError>)
      requires g == TheForest()
      ensures r.Ok? ==> r.value == Page(g.roots, first, PAGE_SIZE)
      ensures server.reliable ==> r.Ok?
    {
      var reply := server.GetTopGroups(first, PAGE_SIZE);
      r := if reply.Success? then Ok(reply.value) else Err(RequestFailed);
    }

    // ----- looking groups and users up -----

    method FindGroupByPath(path: string) returns (r: Result<Option<Group>, ClientError>)
      requires server.Valid()
      ensures r.Ok? && r.value.Some? ==>
                At(server.realm, Segments(path), r.value.value.id) && Listed(server.realm, r.value.value)
      ensures r.Ok? && r.value.None? ==> !Has(server.realm, Segments(path))
      ensures server.reliable ==> r.Ok?
    {
      var listed := ListGroups();
      if listed.Err? {
        return Err(listed.error);
      }
      var found := FirstAtPath(listed.value, path, server.realm);
      r := Ok(found);
    }

    /** All the members of a group given by id, or by path when it starts with a slash. */
    method ListGroupMembers(ref: string) returns (r: Result<seq<User>, ClientError>, ghost gid: string)
      requires server.Valid()
      ensures r.Ok? ==> IsGroup(server.realm, ref, gid) && gid in server.realm.groups
      ensures r.Ok? ==> MembersListed(server.realm, gid, r.value)
      ensures r.Err? && r.error == GroupNotFound ==> forall g :: !IsGroup(server.realm, ref, g)
      ensures server.reliable && TrimSpace(ref) != "" ==> r.Ok? || r.error == GroupNotFound
    {
      var groupId := TrimSpace(ref);
      gid := groupId;
      if groupId == "" {
        return Err(GroupReferenceRequired), gid;
      }
      if HasPrefix(groupId, "/") {
        var found := FindGroupByPath(groupId);
        if found.Err? {
          return Err(RequestFailed), gid;
        }
        NamedByPath(server.realm, ref);
        if found.value.None? {
          return Err(GroupNotFound), gid;
        }
        groupId := found.value.value.id;
        gid := groupId;
      }
      var reply := server.GetMembers(groupId);
      match reply {
        case Success(users) => r := Ok(users);
        case NotFound => r := Err(GroupNotFound);
        case _ => r := Err(RequestFailed);
      }
    }

    /** resolveExistingGroupID: "" when there is no group at the path; an id is taken as it is. */
    method ResolveExistingGroupId(ref: string) returns (r: Result<string, ClientError>)
      requires server.Valid()
      ensures r.Ok? ==> TrimSpace(ref) != "" && GroupResolved(server.realm, ref, r.value)
      ensures r.Err? ==> r.error != GroupNotFound
      ensures server.reliable && TrimSpace(ref) != "" ==> r.Ok?
    {
      var t := TrimSpace(ref);
      if t == "" {
        return Err(GroupReferenceRequired);
      }
      if !HasPrefix(t, "/") {
        return Ok(t);
      }
      var found := FindGroupByPath(t);
      if found.Err? {
        return Err(RequestFailed);
      }
      NamedByPath(server.realm, ref);
      if found.value.None? {
        return Ok("");
      }
      assert ValidRecord(server.realm, found.value.value.id);
      r := Ok(found.value.value.id);
    }

    method ResolveUserId(ref: string) returns (r: Result<(string, Option<User>), ClientError>)
      requires server.Valid()
      ensures r.Ok? ==> UserResolved(server.realm, ref, r.value.0, r.value.1)
      ensures server.reliable && TrimSpace(ref) != "" ==> r.Ok?
    {
      var t := TrimSpace(ref);
      if t == "" {
        return Err(UserReferenceRequired);
      }
      var reply := server.FindUsers(t);
      if !reply.Success? {
        return Err(RequestFailed);
      }
      assert forall u | u in server.realm.users :: ValidUser(server.realm, u);
      if |reply.value| > 0 {
        r := Ok((reply.value[0].id, Some(reply.value[0])));
      } else {
        r := Ok((t, None));
      }
    }

    // ----- members -----

    /** Set insertion: it fails, without effect, when there is no such group or user. */
    method AddUserToGroup(user: string, group: string) returns (r: Result<(), ClientError>)
      requires server.Valid()
      modifies server
      ensures server.Valid()
      ensures Permits(Call.AddUserToGroup(user, group), old(server.realm), r.Ok?, server.realm)
      ensures !Exact(Call.AddUserToGroup(user, group)) ==> r.Err? && server.realm == old(server.realm)
      ensures server.reliable && Exact(Call.AddUserToGroup(user, group)) ==>
                (r.Ok? <==> Enabled(Call.AddUserToGroup(user, group), old(server.realm)))
    {
      var groupId := ResolveExistingGroupId(group);
      if groupId.Err? {
        return Err(groupId.error);
      }
      if groupId.value == "" {
        return Err(GroupNotFound);
      }
      var userId := ResolveUserId(user);
      if userId.Err? {
        return Err(userId.error);
      }
      var uid, gid := userId.value.0, groupId.value;
      if uid == "" {
        return Err(UserNotFound);
      }
      var added := AddResolved(uid, gid, user, userId.value.1);
      AddPermitted(old(server.realm), user, group, uid, gid, added.Ok?, server.realm);
      r := added;
    }

    /** The rest of AddUserToGroup, once both references are resolved. */
    method AddResolved(uid: string, gid: string, ref: string, user: Option<User>) returns (r: Result<(), ClientError>)
      requires server.Valid() && ValidId(gid) && UserResolved(server.realm, ref, uid, user)
      modifies server
      ensures server.Valid()
      ensures Inserted(old(server.realm), gid, uid, server.realm) || (r.Err? && server.realm == old(server.realm))
      ensures server.reliable ==> (r.Ok? <==> gid in old(server.realm).groups && uid in old(server.realm).users)
    {
      var members := ListResolved(gid);
      if members.Err? {
        return Err(members.error);
      }
      var member := MatchingMember(members.value, uid, ref, user);
      MatchMeansMember(server.realm, gid, members.value, ref, uid, user, member);
      if member.Some? {
        return Ok(());
      }
      var reply := server.PutMember(uid, gid);
      r := if reply.Success? then Ok(()) else Err(RequestFailed);
    }

    /** ListGroupMembers on an id that has been resolved. */
    method ListResolved(gid: string) returns (r: Result<seq<User>, ClientError>)
      requires server.Valid() && ValidId(gid)
      ensures r.Ok? ==> gid in server.realm.groups && MembersListed(server.realm, gid, r.value)
      ensures r.Err? && r.error == GroupNotFound ==> gid !in server.realm.groups
      ensures server.reliable ==> r.Ok? || r.error == GroupNotFound
    {
      NamedById(server.realm, gid);
      assert gid in server.realm.groups ==> IsGroup(server.realm, gid, gid);
      ghost var g;
      r, g := ListGroupMembers(gid);
    }

    /** Set removal: nothing to do when there is no such group, user or member. */
    method RemoveUserFromGroup(user: string, group: string) returns (r: Result<(), ClientError>)
      requires server.Valid()
      modifies server
      ensures server.Valid()
      ensures Permits(Call.RemoveUserFromGroup(user, group), old(server.realm), r.Ok?, server.realm)
      ensures !Exact(Call.RemoveUserFromGroup(user, group)) ==> server.realm == old(server.realm)
      ensures Blank(group) ==> r.Err?
      ensures server.reliable && Exact(Call.RemoveUserFromGroup(user, group)) ==> r.Ok?
    {
      var groupId := ResolveExistingGroupId(group);
      if groupId.Err? {
        return Err(groupId.error);
      }
      if groupId.value == "" {
        return Ok(());
      }
      var userId := ResolveUserId(user);
      if userId.Err? {
        return Err(userId.error);
      }
      var uid, gid := userId.value.0, groupId.value;
      var removed := RemoveResolved(uid, gid, user, userId.value.1);
      RemovePermitted(old(server.realm), user, group, uid, gid, removed.Ok?, server.realm);
      r := removed;
    }

    /** The rest of RemoveUserFromGroup, once both references are resolved. */
    method RemoveResolved(uid: string, gid: string, ref: string, user: Option<User>)
      returns (r: Result<(), ClientError>)
      requires server.Valid() && ValidId(gid) && UserResolved(server.realm, ref, uid, user)
      modifies server
      ensures server.Valid()
      ensures Removed(old(server.realm), gid, uid, server.realm) || (r.Err? && server.realm == old(server.realm))
      ensures server.reliable ==> r.Ok?
    {
      var members := ListResolved(gid);
      if members.Err? {
        return if members.error == GroupNotFound then Ok(()) else Err(members.error);
      }
      var member := MatchingMember(members.value, uid, ref, user);
      MatchMeansMember(server.realm, gid, members.value, ref, uid, user, member);
      if member.None? {
        return Ok(());
      }
      assert uid in server.realm.users;
      // A resolved user id is never empty, so the member's own id is not needed here.
      var reply := server.DropMember(uid, gid);
      r := if reply.Success? || reply.NotFound? then Ok(()) else Err(RequestFailed);
    }

    // ----- groups -----

    /** Deletes a group and what is below it; a group that is not there is fine. */
    method DeleteGroup(group: string) returns (r: Result<(), ClientError>)
      requires server.Valid()
      modifies server
      ensures server.Valid()
      ensures Permits(Call.DeleteGroup(group), old(server.realm), r.Ok?, server.realm)
      ensures Blank(group) ==> r.Err? && server.realm == old(server.realm)
      ensures server.reliable && Exact(Call.DeleteGroup(group)) ==> r.Ok?
    {
      var groupId := ResolveExistingGroupId(group);
      if groupId.Err? {
        return Err(groupId.error);
      }
      if groupId.value == "" {
        return Ok(());
      }
      var gid := groupId.value;
      assert gid in server.realm.groups ==> IsGroup(server.realm, group, gid);
      var reply := server.RemoveGroup(gid);
      r := if reply.Success? || reply.NotFound? then Ok(()) else Err(RequestFailed);
    }

    /** Makes sure that a path exists, creating the groups that are missing from the top down. */
    method EnsureGroupPath(path: string) returns (r: Result<Group, ClientError>)
      requires server.Valid()
      modifies server
      ensures server.Valid() && Grew(old(server.realm), server.realm)
      ensures CleanTarget(path) && r.Ok? ==> At(server.realm, Segments(path), r.value.id)
      ensures r.Ok? ==> Listed(server.realm, r.value)
      ensures CleanTarget(path) && server.quiet ==> Growing(old(server.realm), server.realm, Segments(path), map[])
      ensures CleanTarget(path) && server.reliable ==> r.Ok?
      decreases |Segments(path)|, 1
    {
      var groupPath := Normalize(path);
      NormalizeShrinks(path);
      if CleanTarget(path) {
        CleanNormalize(path);
      }
      if groupPath == "" || groupPath == "/" {
        return Err(PathOrNameRequired);
      }
      var existing := FindGroupByPath(groupPath);
      if existing.Err? {
        return Err(existing.error);
      }
      if existing.value.Some? {
        return Ok(existing.value.value);
      }
      r := CreateMissing(groupPath, GroupName(groupPath), map[]);
    }

    /** The tail that ensureGroupPath and CreateOrUpdateGroup share: the parent, the group itself, and a last look. */
    method CreateMissing(path: string, name: string, attributes: Attributes) returns (r: Result<Group, ClientError>)
      requires server.Valid() && !Has(server.realm, Segments(path))
      modifies server
      ensures server.Valid() && Grew(old(server.realm), server.realm)
      ensures r.Ok? ==> At(server.realm, Segments(path), r.value.id) && Listed(server.realm, r.value)
      ensures CleanTarget(path) && name == Name(Segments(path)) && server.quiet ==>
                Growing(old(server.realm), server.realm, Segments(path), attributes)
      ensures CleanTarget(path) && name == Name(Segments(path)) && server.reliable ==> r.Ok?
      decreases |Segments(path)|, 0
    {
      ghost var p, before := Segments(path), server.realm;
      if CleanTarget(path) {
        CleanParent(path);
      }
      var parentPath, parentId := Parent(path), "";
      if parentPath != "" {
        ParentShrinks(path);
        var parent := EnsureGroupPath(parentPath);
        if parent.Err? {
          return Err(parent.error);
        }
        parentId := parent.value.id;
      }
      ghost var middle := server.realm;
      r := PostAndLook(path, parentId, parentPath == "", name, attributes);
      GrewTwice(before, middle, server.realm);
      if CleanTarget(path) && name == Name(p) {
        CreatedBelow(before, middle, server.realm, p, attributes, server.quiet);
      }
    }

    /** Creates the group. */
    method PostBelow(ghost p: seq<string>, parent: string, top: bool, name: string, attributes: Attributes)
      returns (reply: Reply<()>)
      requires server.Valid()
      modifies server
      ensures server.Valid() && Grew(old(server.realm), server.realm)
      ensures PlacedBelow(old(server.realm), p, parent, top) && name == Name(p) ==>
        && (server.quiet ==> Posted(old(server.realm), server.realm, p, attributes, reply))
        && (reply.Success? || reply.Conflict? ==> Has(server.realm, p))
        && (server.reliable && CleanName(name) ==> reply.Success? || reply.Conflict?)
    {
      reply := server.PostGroup(parent, top, name, attributes);
      if PlacedBelow(old(server.realm), p, parent, top) && name == Name(p) {
        PlacedSegments(old(server.realm), p, parent, top, name);
      }
    }

    /** Creates the group and looks it up. A conflict means that another client was faster, which is fine. */
    method PostAndLook(path: string, parent: string, top: bool, name: string, attributes: Attributes)
      returns (r: Result<Group, ClientError>)
      requires server.Valid()
      modifies server
      ensures server.Valid() && Grew(old(server.realm), server.realm)
      ensures r.Ok? ==> At(server.realm, Segments(path), r.value.id) && Listed(server.realm, r.value)
      ensures PlacedBelow(old(server.realm), Segments(path), parent, top) && name == Name(Segments(path)) ==>
        && (server.quiet && !Has(old(server.realm), Segments(path)) ==>
              Growing(old(server.realm), server.realm, Segments(path), attributes))
        && (server.reliable && CleanName(name) ==> r.Ok?)
    {
      var reply := PostBelow(Segments(path), parent, top, name, attributes);
      if !reply.Success? && !reply.Conflict? {
        return Err(RequestFailed);
      }
      var created := FindGroupByPath(path);
      if created.Err? {
        return Err(created.error);
      }
      if created.value.None? {
        return Err(NotFoundAfterCreate);
      }
      r := Ok(created.value.value);
    }

    /** Creates the mirror group, or brings the attributes of an existing one up to date. */
    method CreateOrUpdateGroup(name: string, path: string, attributes: Attributes)
      returns (r: Result<Option<Group>, ClientError>)
      requires server.Valid()
      modifies server
      ensures server.Valid()
      ensures server.quiet ==>
        Permits(Call.CreateOrUpdateGroup(name, path, attributes), old(server.realm), r.Ok?, server.realm)
      ensures Exact(Call.CreateOrUpdateGroup(name, path, attributes)) && server.reliable ==> r.Ok?
      ensures Exact(Call.CreateOrUpdateGroup(name, path, attributes)) && r.Ok? ==>
        r.value.Some? && At(server.realm, Segments(path), r.value.value.id) && Listed(server.realm, r.value.value)
      ensures Exact(Call.CreateOrUpdateGroup(name, path, attributes)) && !Has(old(server.realm), Segments(path)) ==>
        Grew(old(server.realm), server.realm)
      ensures Exact(Call.CreateOrUpdateGroup(name, path, attributes)) ==>
        forall id | At(old(server.realm), Segments(path), id) ::
          || server.realm == SetAttributes(old(server.realm), id, attributes)
          || (r.Err? && server.realm == old(server.realm))
      ensures Blank(path) && Blank(name) ==> r.Err? && server.realm == old(server.realm)
      ensures !Has(old(server.realm), TargetSegments(path, name)) ==> Grew(old(server.realm), server.realm)
      ensures forall id | At(old(server.realm), TargetSegments(path, name), id) ::
          || server.realm == SetAttributes(old(server.realm), id, attributes)
          || (r.Err? && server.realm == old(server.realm))
      ensures r.Ok? ==>
        && r.value.Some? && At(server.realm, TargetSegments(path, name), r.value.value.id)
        && Listed(server.realm, r.value.value)
    {
      ghost var call, p := Call.CreateOrUpdateGroup(name, path, attributes), Segments(path);
      if TrimSpace(path) == "" && TrimSpace(name) == "" {
        return Err(PathOrNameRequired);
      }
      var groupPath := if TrimSpace(path) != "" then Normalize(path) else Normalize("/" + name);
      if CleanTarget(path) {
        CleanNormalize(path);
      }
      var groupName := if TrimSpace(name) != "" then TrimSpace(name) else GroupName(groupPath);

      var existing := FindGroupByPath(groupPath);
      if existing.Err? {
        return Err(existing.error);
      }
      if existing.value.Some? {
        r := UpdateFound(existing.value.value.id, groupName, groupPath, attributes);
        if Exact(call) {
          UpdatePermitted(old(server.realm), call, existing.value.value.id, r.Ok?, server.realm);
        }
        return;
      }
      var created := CreateMissing(groupPath, groupName, attributes);
      if Exact(call) && server.quiet {
        CreatePermitted(old(server.realm), call, created.Ok?, server.realm);
      }
      r := if created.Ok? then Ok(Some(created.value)) else Err(created.error);
    }

    method UpdateFound(id: string, name: string, path: string, attributes: Attributes)
      returns (r: Result<Option<Group>, ClientError>)
      requires server.Valid() && At(server.realm, Segments(path), id)
      modifies server
      ensures server.Valid()
      ensures server.realm == SetAttributes(old(server.realm), id, attributes) ||
                (r.Err? && server.realm == old(server.realm))
      ensures r.Ok? ==> r.value.Some? && At(server.realm, Segments(path), r.value.value.id)
      ensures r.Ok? ==> Listed(server.realm, r.value.value)
      ensures server.reliable && Segments(path) != [] && name == Name(Segments(path)) ==> r.Ok?
    {
      var reply := server.PutGroup(id, name, attributes);
      if !reply.Success? {
        return Err(RequestFailed);
      }
      assert At(server.realm, Segments(path), id);
      r := FindGroupByPath(path);
    }
  }

  /** Where a group is created or updated: at the path, or at the top level when there is only a name. */
  function TargetSegments(path: string, name: string): seq<string> {
    Segments(Normalize(if Blank(path) then "/" + name else path))
  }

  /** A path that names a group and whose segments keep their spelling. */
  predicate CleanTarget(path: string) {
    Segments(path) != [] && CleanNames(Segments(path))
  }

  lemma {:induction false} NormalizeShrinks(path: string)
    ensures |Segments(Normalize(path))| <= |Segments(path)|
  {
    NormalizeRooted(path);
    var segs := Segments(path);
    if TrimSpace(path) != "" {
      PathStart(segs);
      if segs == [] {
        SegmentsOfPath([]);
      } else {
        FlatBound(segs, Flat(segs));
      }
    }
  }

  lemma {:induction false} CleanNormalize(path: string)
    requires CleanTarget(path)
    ensures Segments(Normalize(path)) == Segments(path) && Normalize(path) != "" && Normalize(path) != "/"
    ensures GroupName(Normalize(path)) == Name(Segments(path))
  {
    NormalizeRooted(path);
    var segs := Segments(path);
    CleanNamesPath(segs);
    PathNotDot(segs);
    assert segs == Init(segs) + [Name(segs)];
    BaseAndParent(Init(segs), Name(segs), Normalize(path));
  }

  lemma {:induction false} CleanParent(path: string)
    requires CleanTarget(path)
    ensures var p := Segments(path);
            && GroupName(path) == Name(p) && (Parent(path) == "" <==> Init(p) == [])
            && (Init(p) != [] ==> CleanTarget(Parent(path)) && Segments(Parent(path)) == Init(p))
  {
    var p := Segments(path);
    NormalizeRooted(path);
    assert p == Init(p) + [Name(p)];
    BaseAndParent(Init(p), Name(p), path);
    CleanFlatPath(Init(p), Parent(path));
  }

  lemma {:induction false} CleanFlatPath(segs: seq<string>, path: string)
    requires CleanNames(segs) && path == Flat(segs)
    ensures path == "" <==> segs == []
    ensures segs != [] ==> CleanTarget(path) && Segments(path) == segs
  {
    if segs != [] {
      CleanNamesPath(segs);
      PathStart(segs);
    }
  }

  lemma {:induction false} ParentShrinks(path: string)
    requires Parent(path) != ""
    ensures |Segments(Parent(path))| < |Segments(path)|
  {
    NormalizeRooted(path);
    if Segments(path) != [] {
      ParentIsShorter(path);
    }
  }

  lemma {:induction false} UpdatePermitted(r: Realm, call: Call, id: string, ok: bool, s: Realm)
    requires ValidRealm(r) && call.CreateOrUpdateGroup? && At(r, Segments(call.path), id)
    requires s == SetAttributes(r, id, call.attributes) || (!ok && s == r)
    ensures Permits(call, r, ok, s)
  {
    assert forall x | At(r, Segments(call.path), x) :: x == id;
  }

  lemma {:induction false} CreatePermitted(r: Realm, call: Call, ok: bool, s: Realm)
    requires call.CreateOrUpdateGroup? && !Has(r, Segments(call.path))
    requires Growing(r, s, Segments(call.path), call.attributes) && (ok ==> Has(s, Segments(call.path)))
    ensures Permits(call, r, ok, s)
  {
  }

  /** The parent is there, or none is needed. */
  predicate PlacedBelow(r: Realm, p: seq<string>, parent: string, top: bool) {
    p != [] && if top then Init(p) == [] else At(r, Init(p), parent)
  }

  lemma {:induction false} PlacedSegments(r: Realm, p: seq<string>, parent: string, top: bool, name: string)
    requires PlacedBelow(r, p, parent, top) && name == Name(p)
    ensures top || parent in r.groups
    ensures p == (if top then [] else r.groups[parent].segs) + [name]
  {
    assert p == Init(p) + [name];
  }

  /** What creating a group below its parent comes to, when nobody interferes. */
  lemma {:induction false} CreatedBelow(
    before: Realm, middle: Realm, after: Realm, p: seq<string>, attributes: Attributes, quiet: bool)
    requires p != [] && !Has(before, p)
    requires if Init(p) == [] then middle == before else quiet ==> Growing(before, middle, Init(p), map[])
    requires quiet && !Has(middle, p) ==> Growing(middle, after, p, attributes)
    ensures quiet ==> Growing(before, after, p, attributes)
  {
    if quiet && Init(p) != [] {
      forall id ensures !At(middle, p, id) {
        assert At(middle, p, id) ==> id !in before.groups || At(before, p, id);
        assert |Init(p)| < |p|;
      }
      GrowingDown(before, middle, after, p, attributes);
    }
  }

  lemma {:induction false} PageStep(items: seq<GroupResponse>, first: nat, page: seq<GroupResponse>)
    requires first <= |items| && page == Page(items, first, PAGE_SIZE)
    ensures first + |page| <= |items| && items[..first] + page == items[..first + |page|]
    ensures |page| < PAGE_SIZE ==> items[..first + |page|] == items
    ensures forall n | n in page :: n in items
  {
  }

  /** What the program carries along stands for a walk. */
  ghost predicate Stands(result: seq<Group>, seen: set<string>, w: Walk) {
    result == GroupsOf(w.out) && seen == w.seen
  }

  lemma {:induction false} EnterStands(result: seq<Group>, seen: set<string>, w: Walk, node: GroupResponse)
    requires Stands(result, seen, w)
    ensures Stands(result + [node.group], if node.group.id != "" then seen + {node.group.id} else seen, Enter(w, node))
  {
  }

  ghost predicate FromServer(r: Realm, order: seq<string>, nodes: seq<GroupResponse>) {
    Ordered(r, order) && forall n | n in nodes :: IsResponse(r, order, n)
  }

  lemma {:induction false} ChildrenFromServer(r: Realm, order: seq<string>, node: GroupResponse)
    ensures FromServer(r, order, [node]) ==>
              node.group.id in r.groups && FromServer(r, order, Children(ForestOf(r, order), node))
  {
    if FromServer(r, order, [node]) {
      assert node in [node];
      ResponseChildren(r, order, node);
      ListedAreResponses(r, order, r.groups[node.group.id].segs);
    }
  }

  lemma {:induction false} RootsFromServer(r: Realm, order: seq<string>)
    requires Ordered(r, order)
    ensures FromServer(r, order, ForestOf(r, order).roots)
  {
    ListedAreResponses(r, order, []);
  }

  /** One more page of a list that is being walked. */
  lemma {:induction false} OnePageMore(
    g: Graph, nodes: seq<GroupResponse>, first: nat, page: seq<GroupResponse>, w: Walk)
    requires first <= |nodes| && page == Page(nodes, first, PAGE_SIZE)
    requires IdsIn(nodes) <= Universe(g) && w.seen <= Universe(g) && IdsIn(nodes[..first]) <= Universe(g)
    ensures first + |page| <= |nodes| && |page| <= PAGE_SIZE && forall n | n in page :: n in nodes
    ensures |page| < PAGE_SIZE ==> nodes[..first + |page|] == nodes
    ensures IdsIn(page) <= Universe(g) && IdsIn(nodes[..first + |page|]) <= Universe(g)
    ensures Visit(g, nodes[..first + |page|], w) == Visit(g, page, Visit(g, nodes[..first], w))
  {
    PageStep(nodes, first, page);
    var last := first + |page|;
    assert nodes[..last] + nodes[last..] == nodes;
    VisitAppend(g, nodes[..last], nodes[last..], w);
    VisitAppend(g, nodes[..first], page, w);
  }

  lemma {:induction false} ElementOf(nodes: seq<GroupResponse>, i: nat)
    requires i < |nodes|
    ensures IdsIn([nodes[i]]) <= IdsIn(nodes) && Weight([nodes[i]]) <= Weight(nodes)
    ensures IdsIn(nodes[..i]) <= IdsIn(nodes) && IdsIn(nodes[..i + 1]) <= IdsIn(nodes)
    decreases nodes
  {
    assert [nodes[0]][1..] == [];
    if i > 0 {
      ElementOf(nodes[1..], i - 1);
      assert nodes[..i][1..] == nodes[1..][..i - 1];
      assert nodes[..i + 1][1..] == nodes[1..][..i];
    } else {
      assert nodes[..i + 1] == [nodes[0]];
    }
  }

  /** One more node of a list that is being walked. */
  lemma {:induction false} OneMore(g: Graph, nodes: seq<GroupResponse>, i: nat, w: Walk)
    requires i < |nodes| && IdsIn(nodes) <= Universe(g) && w.seen <= Universe(g)
    ensures IdsIn([nodes[i]]) <= Universe(g) && IdsIn(nodes[..i]) <= Universe(g) && IdsIn(nodes[..i + 1]) <= Universe(g)
    ensures Visit(g, nodes[..i + 1], w) == Visit(g, [nodes[i]], Visit(g, nodes[..i], w))
  {
    ElementOf(nodes, i);
    assert nodes[..i + 1] == nodes[..i] + [nodes[i]];
    VisitAppend(g, nodes[..i], [nodes[i]], w);
  }
}
