/** The state of one Keycloak realm, and what the program's calls do to it. */
module Realms {
  import opened Text
  import opened Paths
  import opened Groups

  /** A group record; its place in the forest is the list of names from the root down to its own. */
  datatype Record = Record(segs: seq<string>, attributes: Attributes, members: set<string>)

  /** Groups and users by id; a user's value is the username. Ids of deleted groups are retired for good. */
  datatype Realm = Realm(groups: map<string, Record>, users: map<string, string>, retired: set<string>)

  function Init(segs: seq<string>): seq<string>
    requires segs != []
  {
    segs[..|segs| - 1]
  }

  function Name(segs: seq<string>): string
    requires segs != []
  {
    segs[|segs| - 1]
  }

  /** An id cannot be mistaken for a path and survives trimming. */
  predicate ValidId(id: string) {
    id != "" && Trimmed(id) && id[0] != '/'
  }

  predicate At(r: Realm, p: seq<string>, id: string) {
    id in r.groups && r.groups[id].segs == p
  }

  ghost predicate Has(r: Realm, p: seq<string>) {
    exists id :: At(r, p, id)
  }

  predicate ValidRecord(r: Realm, id: string)
    requires id in r.groups
  {
    ValidId(id) && r.groups[id].segs != [] && CleanNames(r.groups[id].segs) && r.groups[id].members <= r.users.Keys
  }

  predicate UniquePaths(r: Realm) {
    forall a, b | a in r.groups && b in r.groups && r.groups[a].segs == r.groups[b].segs :: a == b
  }

  /** The group above is there too. */
  ghost predicate HasParent(r: Realm, id: string)
    requires id in r.groups
  {
    |r.groups[id].segs| > 1 ==> Has(r, Init(r.groups[id].segs))
  }

  // The trigger keeps the solver from climbing from parent to parent by itself.
  ghost predicate PrefixClosed(r: Realm) {
    forall id {:trigger HasParent(r, id)} | id in r.groups :: HasParent(r, id)
  }

  ghost predicate ValidGroups(r: Realm) {
    && (forall id | id in r.groups :: ValidRecord(r, id)) && UniquePaths(r) && PrefixClosed(r)
    && r.retired !! r.groups.Keys
  }

  predicate ValidUser(r: Realm, id: string)
    requires id in r.users
  {
    id != "" && Trimmed(id) && r.users[id] != "" && Trimmed(r.users[id]) && r.users[id] !in r.users
  }

  predicate ValidUsers(r: Realm) {
    && (forall id | id in r.users :: ValidUser(r, id))
    && (forall a, b | a in r.users && b in r.users && r.users[a] == r.users[b] :: a == b)
  }

  ghost predicate ValidRealm(r: Realm) {
    ValidGroups(r) && ValidUsers(r)
  }

  // ----- edits -----

  function AddMember(r: Realm, gid: string, uid: string): Realm
    requires gid in r.groups
  {
    r.(groups := r.groups[gid := r.groups[gid].(members := r.groups[gid].members + {uid})])
  }

  function RemoveMember(r: Realm, gid: string, uid: string): Realm
    requires gid in r.groups
  {
    r.(groups := r.groups[gid := r.groups[gid].(members := r.groups[gid].members - {uid})])
  }

  function SetAttributes(r: Realm, gid: string, attributes: Attributes): Realm
    requires gid in r.groups
  {
    r.(groups := r.groups[gid := r.groups[gid].(attributes := attributes)])
  }

  function Insert(r: Realm, gid: string, segs: seq<string>, attributes: Attributes): Realm {
    r.(groups := r.groups[gid := Record(segs, attributes, {})])
  }

  /** Keycloak deletes a group together with everything below it. */
  function DeleteSubtree(r: Realm, gid: string): Realm
    requires gid in r.groups
  {
    r.(groups := map id | id in r.groups && !(r.groups[gid].segs <= r.groups[id].segs) :: r.groups[id],
       retired := r.retired + set id | id in r.groups && r.groups[gid].segs <= r.groups[id].segs)
  }

  /** Groups were added by anybody; nothing else happened. */
  ghost predicate Grew(before: Realm, after: Realm) {
    && after.users == before.users && after.retired == before.retired && ValidRealm(after)
    && forall id | id in before.groups :: id in after.groups && after.groups[id] == before.groups[id]
  }

  /** Groups were added on the way down to a path: empty ones, plain except for the last. */
  ghost predicate Growing(before: Realm, after: Realm, p: seq<string>, attributes: Attributes) {
    && Grew(before, after)
    && forall id | id in after.groups && id !in before.groups ::
         && after.groups[id].segs <= p && after.groups[id].members == {}
         && after.groups[id].attributes == if after.groups[id].segs == p then attributes else map[]
  }

  lemma {:induction false} GrewTwice(a: Realm, b: Realm, c: Realm)
    requires Grew(a, b) && Grew(b, c)
    ensures Grew(a, c)
  {
  }

  lemma {:induction false} GrowingDown(a: Realm, b: Realm, c: Realm, p: seq<string>, attributes: Attributes)
    requires p != [] && Growing(a, b, Init(p), map[]) && Growing(b, c, p, attributes)
    ensures Growing(a, c, p, attributes)
  {
    assert Init(p) <= p;
  }

  ghost predicate Insertable(r: Realm, gid: string, p: seq<string>) {
    && p != [] && CleanNames(p) && !Has(r, p) && ValidId(gid) && gid !in r.groups && gid !in r.retired
    && (|p| > 1 ==> Has(r, Init(p)))
  }

  lemma {:induction false} InsertIsGrowing(r: Realm, gid: string, p: seq<string>, attributes: Attributes)
    requires ValidRealm(r) && Insertable(r, gid, p)
    ensures Growing(r, Insert(r, gid, p, attributes), p, attributes)
    ensures Has(Insert(r, gid, p, attributes), p)
  {
    var after := Insert(r, gid, p, attributes);
    assert At(after, p, gid);
    InsertKeepsUnique(r, gid, p, attributes);
    InsertKeepsClosed(r, gid, p, attributes);
    InsertKeepsRecords(r, gid, p, attributes);
  }

  lemma {:induction false} InsertKeepsRecords(r: Realm, gid: string, p: seq<string>, attributes: Attributes)
    requires (forall id | id in r.groups :: ValidRecord(r, id)) && Insertable(r, gid, p)
    ensures var s := Insert(r, gid, p, attributes); forall id | id in s.groups :: ValidRecord(s, id)
  {
    var s := Insert(r, gid, p, attributes);
    forall id | id in s.groups ensures ValidRecord(s, id) {
      if id != gid {
        assert ValidRecord(r, id);
      }
    }
  }

  lemma {:induction false} InsertKeepsUnique(r: Realm, gid: string, p: seq<string>, attributes: Attributes)
    requires UniquePaths(r) && Insertable(r, gid, p)
    ensures UniquePaths(Insert(r, gid, p, attributes))
  {
    assert forall id | id in r.groups :: !At(r, p, id);
  }

  lemma {:induction false} InsertKeepsClosed(r: Realm, gid: string, p: seq<string>, attributes: Attributes)
    requires PrefixClosed(r) && Insertable(r, gid, p)
    ensures PrefixClosed(Insert(r, gid, p, attributes))
  {
    var after := Insert(r, gid, p, attributes);
    forall id | id in after.groups ensures HasParent(after, id) {
      if |after.groups[id].segs| > 1 {
        assert id != gid ==> HasParent(r, id);
        var parent :| At(r, Init(after.groups[id].segs), parent);
        assert At(after, Init(after.groups[id].segs), parent);
      }
    }
  }

  lemma {:induction false} SameRecord(r: Realm, gid: string)
    requires gid in r.groups
    ensures r.(groups := r.groups[gid := r.groups[gid]]) == r
    ensures SetAttributes(r, gid, r.groups[gid].attributes) == r
  {
    assert r.groups[gid := r.groups[gid]] == r.groups;
  }

  /** A group that keeps its place may change its attributes and its members. */
  lemma {:induction false} EditKeepsValid(r: Realm, gid: string, record: Record)
    requires ValidRealm(r) && gid in r.groups
    requires record.segs == r.groups[gid].segs && record.members <= r.users.Keys
    ensures ValidRealm(r.(groups := r.groups[gid := record]))
  {
    assert ValidRecord(r, gid);
    assert forall id | id in r.groups :: ValidRecord(r, id);
    SameForest(r, r.(groups := r.groups[gid := record]));
  }

  lemma {:induction false} SameForest(r: Realm, s: Realm)
    requires ValidRealm(r) && s.users == r.users && s.retired == r.retired && s.groups.Keys == r.groups.Keys
    requires forall id | id in r.groups ::
               s.groups[id].segs == r.groups[id].segs && s.groups[id].members <= r.users.Keys
    ensures ValidRealm(s)
  {
    assert forall q, id :: At(r, q, id) <==> At(s, q, id);
    assert forall id | id in s.groups :: ValidRecord(r, id);
    forall id | id in s.groups ensures HasParent(s, id) {
      if |s.groups[id].segs| > 1 {
        assert HasParent(r, id);
        var parent :| At(r, Init(s.groups[id].segs), parent);
        assert At(s, Init(s.groups[id].segs), parent);
      }
    }
  }

  lemma {:induction false} DeleteKeepsValid(r: Realm, gid: string)
    requires ValidRealm(r) && gid in r.groups
    ensures ValidRealm(DeleteSubtree(r, gid))
  {
    var s, top := DeleteSubtree(r, gid), r.groups[gid].segs;
    assert forall id | id in s.groups :: ValidRecord(r, id) && s.groups[id] == r.groups[id];
    forall id | id in s.groups ensures HasParent(s, id) {
      var segs := s.groups[id].segs;
      if |segs| > 1 {
        assert HasParent(r, id);
        var parent :| At(r, Init(segs), parent);
        assert Init(segs) <= segs;
        assert top <= Init(segs) ==> top <= segs;
        assert At(s, Init(segs), parent);
      }
    }
  }

  // ----- the calls of the repair workflow -----

  datatype Call =
    | CreateOrUpdateGroup(name: string, path: string, attributes: Attributes)
    | AddUserToGroup(user: string, group: string)
    | RemoveUserFromGroup(user: string, group: string)
    | DeleteGroup(group: string)

  /** A reference beginning with a slash is a path, any other is an id. */
  predicate IsGroup(r: Realm, ref: string, gid: string) {
    var t := TrimSpace(ref);
    if HasPrefix(t, "/") then At(r, Segments(t), gid) else gid == t && gid in r.groups
  }

  /** A user reference is a username or else an id. */
  predicate IsUser(r: Realm, ref: string, uid: string) {
    uid in r.users && (r.users[uid] == TrimSpace(ref) || uid == TrimSpace(ref))
  }

  ghost predicate Both(r: Realm, user: string, group: string, uid: string, gid: string) {
    IsUser(r, user, uid) && IsGroup(r, group, gid)
  }

  /** The calls whose effect is pinned down: references are not blank, and a created group is named after the last
      segment of a path whose segments keep their spelling. */
  predicate Exact(call: Call) {
    match call
    case CreateOrUpdateGroup(name, path, _) =>
      var p := Segments(path);
      p != [] && CleanNames(p) && TrimSpace(name) == Name(p)
    case AddUserToGroup(user, group) => TrimSpace(user) != "" && TrimSpace(group) != ""
    case RemoveUserFromGroup(user, group) => TrimSpace(user) != "" && TrimSpace(group) != ""
    case DeleteGroup(group) => TrimSpace(group) != ""
  }

  /** Whether Keycloak can carry the call out. */
  ghost predicate Enabled(call: Call, r: Realm) {
    match call
    case AddUserToGroup(user, group) => exists uid, gid :: Both(r, user, group, uid, gid)
    case _ => true
  }

  /** What the call does when it succeeds. */
  ghost predicate Performed(call: Call, r: Realm, s: Realm) {
    match call
    case CreateOrUpdateGroup(_, path, attributes) =>
      var p := Segments(path);
      if Has(r, p) then forall id | At(r, p, id) :: s == SetAttributes(r, id, attributes)
      else Growing(r, s, p, attributes) && Has(s, p)
    case AddUserToGroup(user, group) =>
      forall uid, gid | Both(r, user, group, uid, gid) :: gid in r.groups && s == AddMember(r, gid, uid)
    case RemoveUserFromGroup(user, group) =>
      && (forall uid, gid | Both(r, user, group, uid, gid) :: gid in r.groups && s == RemoveMember(r, gid, uid))
      && ((forall uid, gid :: !Both(r, user, group, uid, gid)) ==> s == r)
    case DeleteGroup(group) =>
      && (forall gid | IsGroup(r, group, gid) :: gid in r.groups && s == DeleteSubtree(r, gid))
      && ((forall gid :: !IsGroup(r, group, gid)) ==> s == r)
  }

  /** What a failed call may have left: nothing, everything (the answer was lost), or the first part of a new path. */
  ghost predicate Partly(call: Call, r: Realm, s: Realm) {
    || s == r
    || (Enabled(call, r) && Performed(call, r, s))
    || (call.CreateOrUpdateGroup? && !Has(r, Segments(call.path)) &&
       Growing(r, s, Segments(call.path), call.attributes))
  }

  /** The outcomes of a call on a realm that nobody else changes. */
  ghost predicate Permits(call: Call, r: Realm, ok: bool, s: Realm) {
    Exact(call) ==> if ok then Enabled(call, r) && Performed(call, r, s) else Partly(call, r, s)
  }

  /** Creating a group makes the set of paths the old one and the path with everything above it. */
  lemma {:induction false} CreatedPaths(r: Realm, s: Realm, p: seq<string>, attributes: Attributes, q: seq<string>)
    requires ValidRealm(r) && Growing(r, s, p, attributes) && Has(s, p)
    ensures Has(s, q) <==> Has(r, q) || (q != [] && q <= p)
  {
    if q != [] && q <= p {
      AncestorsExist(s, p, q);
    } else if Has(s, q) {
      var id :| At(s, q, id);
      assert ValidRecord(s, id);
      assert At(r, q, id);
    }
    if Has(r, q) {
      var id :| At(r, q, id);
      assert At(s, q, id);
    }
  }

  lemma {:induction false} AncestorsExist(r: Realm, p: seq<string>, q: seq<string>)
    requires PrefixClosed(r) && Has(r, p) && q != [] && q <= p
    ensures Has(r, q)
    decreases |p|
  {
    if q != p {
      var id :| At(r, p, id);
      assert HasParent(r, id);
      AncestorsExist(r, Init(p), q);
    }
  }

  // ----- doing a call again -----

  lemma {:induction false} UpdateTwice(r: Realm, call: Call, id: string, s: Realm, t: Realm)
    requires call.CreateOrUpdateGroup? && At(r, Segments(call.path), id) && Performed(call, r, s) &&
             Performed(call, s, t)
    ensures t == s
  {
    assert s == SetAttributes(r, id, call.attributes);
    assert At(s, Segments(call.path), id);
    SameRecord(s, id);
  }

  lemma {:induction false} CreateTwice(call: Call, r: Realm, s: Realm, t: Realm)
    requires call.CreateOrUpdateGroup? && Performed(call, r, s) && Performed(call, s, t)
    ensures t == s
  {
    var p := Segments(call.path);
    if id :| At(r, p, id) {
      UpdateTwice(r, call, id, s, t);
    } else {
      var id :| At(s, p, id);
      assert !At(r, p, id);
      SameRecord(s, id);
    }
  }

  lemma {:induction false} SameReferences(r: Realm, s: Realm, user: string, group: string, uid: string, gid: string)
    requires s.users == r.users && Both(r, user, group, uid, gid) && gid in s.groups &&
             s.groups[gid].segs == r.groups[gid].segs
    ensures Both(s, user, group, uid, gid)
  {
  }

  lemma {:induction false} AddTwice(call: Call, r: Realm, s: Realm, t: Realm)
    requires call.AddUserToGroup? && Enabled(call, r) && Performed(call, r, s) && Performed(call, s, t)
    ensures t == s
  {
    var uid, gid :| Both(r, call.user, call.group, uid, gid);
    SameReferences(r, s, call.user, call.group, uid, gid);
    assert s.groups[gid].members + {uid} == s.groups[gid].members;
    SameRecord(s, gid);
  }

  lemma {:induction false} RemoveTwice(call: Call, r: Realm, s: Realm, t: Realm)
    requires call.RemoveUserFromGroup? && Performed(call, r, s) && Performed(call, s, t)
    ensures t == s
  {
    if uid, gid :| Both(r, call.user, call.group, uid, gid) {
      SameReferences(r, s, call.user, call.group, uid, gid);
      assert s.groups[gid].members - {uid} == s.groups[gid].members;
      SameRecord(s, gid);
    }
  }

  lemma {:induction false} DeleteTwice(call: Call, r: Realm, s: Realm, t: Realm)
    requires ValidRealm(r) && call.DeleteGroup? && Performed(call, r, s) && Performed(call, s, t)
    ensures t == s
  {
    var group := call.group;
    if gid :| IsGroup(r, group, gid) {
      assert r.groups[gid].segs <= r.groups[gid].segs;
      forall id ensures !IsGroup(s, group, id) {
        assert IsGroup(s, group, id) ==> IsGroup(r, group, id);
      }
    }
  }

  /** Every call is idempotent: carried out twice in a row it does what it does once. */
  lemma {:induction false} TwiceIsOnce(call: Call, r: Realm, s: Realm, t: Realm)
    requires ValidRealm(r) && Enabled(call, r) && Performed(call, r, s) && Performed(call, s, t)
    ensures t == s
  {
    match call
    case CreateOrUpdateGroup(_, _, _) => CreateTwice(call, r, s, t);
    case AddUserToGroup(_, _) => AddTwice(call, r, s, t);
    case RemoveUserFromGroup(_, _) => RemoveTwice(call, r, s, t);
    case DeleteGroup(_) => DeleteTwice(call, r, s, t);
  }
}
