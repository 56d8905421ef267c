/** What a realm looks like after some of the differences of a plan have been removed, in any order. */
module Reach {
  import opened Wrappers
  import opened Text
  import opened Paths
  import opened Groups
  import opened Realms
  import opened Mirrors

  /** How mirrors are recognised (from their place and attributes), marked and placed. */
  datatype Naming = Naming(
    name: (seq<string>, Attributes) -> Option<string>, marks: string -> Attributes, root: string)

  /** A planning situation: the naming, what iRODS has, and the realm and its mirror when the plan was made. */
  datatype Situation = Situation(naming: Naming, irods: IrodsSnapshot, start: Realm, mirror: MirrorSnapshot)

  /** The place of a mirror that has to be created. */
  function Spot(n: Naming, g: string): seq<string> {
    [n.root, g]
  }

  function NameIn(n: Naming, r: Realm, id: string): Option<string>
    requires id in r.groups
  {
    n.name(r.groups[id].segs, r.groups[id].attributes)
  }

  /** A mirror entry tells a group's id and path, and its members' names and ids. */
  ghost predicate Mirrored(r: Realm, id: string, m: MirrorGroup)
    requires id in r.groups
  {
    && m.id == id && m.path == PathOf(r.groups[id].segs)
    && (forall uid | uid in r.groups[id].members ::
          uid in r.users && r.users[uid] in m.members && m.members[r.users[uid]] == uid)
    && (forall u | u in m.members ::
          m.members[u] in r.groups[id].members && m.members[u] in r.users && r.users[m.members[u]] == u)
  }

  /** The snapshot has an entry for every mirror name, and every entry is that of a group with the name. */
  ghost predicate IsSnapshot(n: Naming, r: Realm, mirror: MirrorSnapshot) {
    && (forall id | id in r.groups && NameIn(n, r, id).Some? :: NameIn(n, r, id).value in mirror)
    && (forall g | g in mirror ::
          mirror[g].id in r.groups && NameIn(n, r, mirror[g].id) == Some(g) && Mirrored(r, mirror[g].id, mirror[g]))
  }

  // ----- tidy situations -----

  /** Each name is the mirror of at most one group. */
  ghost predicate OneMirrorEach(n: Naming, r: Realm) {
    forall a, b | a in r.groups && b in r.groups && NameIn(n, r, a).Some? && NameIn(n, r, a) == NameIn(n, r, b) ::
        a == b
  }

  /** Nothing sits where a missing mirror belongs. */
  ghost predicate SpotsFree(s: Situation) {
    forall g | g in s.irods && g !in s.mirror :: !Has(s.start, Spot(s.naming, g))
  }

  predicate IsStale(s: Situation, g: string) {
    g in s.mirror && g !in s.irods
  }

  /** A group from the start is the mirror of a name or lies below it. */
  predicate Holds(s: Situation, g: string, id: string) {
    && g in s.mirror && s.mirror[g].id in s.start.groups && id in s.start.groups
    && s.start.groups[s.mirror[g].id].segs <= s.start.groups[id].segs
  }

  /** No mirror of an existing iRODS group lies below a stale mirror. */
  ghost predicate StaleHoldNoLive(s: Situation) {
    forall g, id | IsStale(s, g) && Holds(s, g, id) && NameIn(s.naming, s.start, id).Some? ::
      NameIn(s.naming, s.start, id).value !in s.irods
  }

  /** No missing mirror belongs below a stale mirror. */
  ghost predicate NoSpotBelowStale(s: Situation) {
    forall g, m | IsStale(s, g) && m in s.irods && m !in s.mirror && s.mirror[g].id in s.start.groups ::
      !(s.start.groups[s.mirror[g].id].segs <= Spot(s.naming, m))
  }

  /** A marked group in its spot is the mirror it is meant to be, and a plain root is no mirror. */
  ghost predicate NamingWorks(n: Naming, irods: IrodsSnapshot) {
    && n.name([n.root], map[]).None? && CleanName(n.root)
    && forall g | g in irods :: CleanName(g) && n.name(Spot(n, g), n.marks(g)) == Some(g)
  }

  /** A member name is trimmed, not empty, and nobody's id in Keycloak. */
  ghost predicate MembersNamed(irods: IrodsSnapshot, r: Realm) {
    forall g, u | g in irods && u in irods[g].members :: u != "" && Trimmed(u) && u !in r.users
  }

  /** What reading a plan back needs: a valid realm, its snapshot, and clean names. */
  ghost predicate WellRead(s: Situation) {
    && ValidRealm(s.start) && IsSnapshot(s.naming, s.start, s.mirror)
    && NamingWorks(s.naming, s.irods) && MembersNamed(s.irods, s.start)
  }

  ghost predicate Tidy(s: Situation) {
    && WellRead(s) && OneMirrorEach(s.naming, s.start) && SpotsFree(s) && StaleHoldNoLive(s) && NoSpotBelowStale(s)
  }

  // ----- the realm after some differences are removed -----

  ghost predicate IsUsername(r: Realm, u: string) {
    exists uid :: uid in r.users && r.users[uid] == u
  }

  /** A stale mirror that is another one or lies below it. */
  predicate Nested(s: Situation, g: string, h: string) {
    IsStale(s, h) && Holds(s, g, s.mirror[h].id)
  }

  /** What removing a difference removes: a stale mirror goes together with those below it. */
  function Effect(s: Situation, x: Item): set<Item> {
    if x.Stale? then set h | h in s.mirror && Nested(s, x.group, h) :: Stale(h) else {x}
  }

  /** The differences that can have been removed. */
  ghost predicate Removable(s: Situation, done: set<Item>) {
    forall x | x in done ::
      && InDiff(s.irods, s.mirror, x) && Effect(s, x) <= done
      && (x.Absent? ==> IsUsername(s.start, x.user) && (x.group !in s.mirror ==> Missing(x.group) in done))
  }

  /** Whether a user belongs to a group that mirrors a name, given whether the user did at the start. */
  predicate Wanted(done: set<Item>, name: Option<string>, u: string, was: bool) {
    match name
    case None => was
    case Some(g) => if Absent(g, u) in done then true else if Extra(g, u) in done then false else was
  }

  ghost predicate HasWanted(
    done: set<Item>, name: Option<string>, users: map<string, string>, start: set<string>, members: set<string>) {
    forall uid | uid in users :: uid in members <==> Wanted(done, name, users[uid], uid in start)
  }

  /** A stale mirror was deleted that the group was, or lay below. */
  ghost predicate Gone(s: Situation, done: set<Item>, id: string) {
    exists g :: Stale(g) in done && Holds(s, g, id)
  }

  /** Differences about other things do not tell whether a group is gone. */
  lemma {:induction false} GoneSame(s: Situation, done: set<Item>, more: set<Item>, id: string)
    requires forall g :: Stale(g) !in more
    ensures Gone(s, done + more, id) == Gone(s, done, id)
  {
    if g :| Stale(g) in done && Holds(s, g, id) {
      assert Stale(g) in done + more;
    }
  }

  /** The mirror of an existing iRODS group is never gone. */
  lemma {:induction false} LiveNotGone(s: Situation, done: set<Item>, id: string)
    requires StaleHoldNoLive(s) && Removable(s, done)
    requires id in s.start.groups && NameIn(s.naming, s.start, id).Some?
    requires NameIn(s.naming, s.start, id).value in s.irods
    ensures !Gone(s, done, id)
  {
    forall g ensures !(Stale(g) in done && Holds(s, g, id)) {
      assert Stale(g) in done ==> InDiff(s.irods, s.mirror, Stale(g));
      assert IsStale(s, g) ==> !Holds(s, g, id);
    }
  }

  /** A stale mirror is gone only if its own difference is removed. */
  lemma {:induction false} StaleNotGone(s: Situation, done: set<Item>, g: string)
    requires Removable(s, done) && IsStale(s, g) && Stale(g) !in done
    ensures !Gone(s, done, s.mirror[g].id)
  {
    forall h ensures !(Stale(h) in done && Holds(s, h, s.mirror[g].id)) {
      assert Stale(h) in done ==> Effect(s, Stale(h)) <= done;
      assert Holds(s, h, s.mirror[g].id) ==> Stale(g) in Effect(s, Stale(h));
    }
  }

  /** A group that was there from the start: deleted, or in place with the wanted members. */
  ghost predicate OldGroup(s: Situation, done: set<Item>, r: Realm, id: string)
    requires id in s.start.groups
  {
    if Gone(s, done, id) then id in r.retired
    else id in r.groups && KeptRecord(s, done, s.start.groups[id], r.groups[id])
  }

  ghost predicate KeptRecord(s: Situation, done: set<Item>, was: Record, now: Record) {
    && now.segs == was.segs && now.attributes == was.attributes
    && HasWanted(done, s.naming.name(was.segs, was.attributes), s.start.users, was.members, now.members)
  }

  ghost predicate RootNeeded(s: Situation) {
    !Has(s.start, [s.naming.root]) && exists g :: g in s.irods && g !in s.mirror
  }

  /** A group that was created since: a missing mirror with its additions, or the plain root above it. */
  ghost predicate NewRecord(s: Situation, done: set<Item>, record: Record) {
    if record.segs == [s.naming.root] then record.attributes == map[] && record.members == {} && RootNeeded(s)
    else
      && |record.segs| == 2 && record.segs[0] == s.naming.root && Missing(record.segs[1]) in done
      && record.attributes == s.naming.marks(record.segs[1])
      && HasWanted(done, Some(record.segs[1]), s.start.users, {}, record.members)
  }

  ghost predicate OldGroups(s: Situation, done: set<Item>, r: Realm) {
    forall id | id in s.start.groups :: OldGroup(s, done, r, id)
  }

  ghost predicate NewGroups(s: Situation, done: set<Item>, r: Realm) {
    forall id | id in r.groups && id !in s.start.groups :: NewRecord(s, done, r.groups[id])
  }

  ghost predicate SpotsFilled(s: Situation, done: set<Item>, r: Realm) {
    forall g | Missing(g) in done :: Has(r, Spot(s.naming, g))
  }

  ghost predicate Reached(s: Situation, done: set<Item>, r: Realm) {
    && ValidRealm(r) && r.users == s.start.users && Removable(s, done)
    && OldGroups(s, done, r) && NewGroups(s, done, r) && SpotsFilled(s, done, r)
  }

  lemma {:induction false} ReachedAtStart(s: Situation)
    requires ValidRealm(s.start)
    ensures Reached(s, {}, s.start)
  {
    assert OldGroups(s, {}, s.start);
    assert NewGroups(s, {}, s.start);
  }

  // ----- one step -----

  /** The call that removes a difference. */
  function CallOf(s: Situation, x: Item): Call {
    var g := x.group;
    match x
    case Missing(_) => CreateOrUpdateGroup(g, PathOf(Spot(s.naming, g)), s.naming.marks(g))
    case Absent(_, u) => AddUserToGroup(u, if g in s.mirror then s.mirror[g].id else PathOf(Spot(s.naming, g)))
    case Extra(_, u) => RemoveUserFromGroup(UserId(s.mirror, g, u), GroupId(s.mirror, g))
    case Stale(_) => DeleteGroup(GroupId(s.mirror, g))
  }

  /** The group that a difference is about, when it is there. */
  ghost predicate Concerns(s: Situation, r: Realm, g: string, id: string) {
    id in r.groups && if g in s.mirror then id == s.mirror[g].id else At(r, Spot(s.naming, g), id)
  }

  lemma {:induction false} SpotPath(s: Situation, g: string)
    requires NamingWorks(s.naming, s.irods) && g in s.irods
    ensures var p := PathOf(Spot(s.naming, g));
            && Segments(p) == Spot(s.naming, g) && Trimmed(p) && HasPrefix(p, "/") && p != ""
            && CleanNames(Spot(s.naming, g))
  {
    var p := Spot(s.naming, g);
    assert CleanName(p[0]) && CleanName(p[1]);
    CleanNamesPath(p);
    PathStart(p);
  }

  /** References resolve to the group concerned. */
  lemma {:induction false} RefersTo(s: Situation, done: set<Item>, r: Realm, g: string, ref: string, id: string)
    requires Tidy(s) && Reached(s, done, r)
    requires g in s.irods || g in s.mirror
    requires ref == if g in s.mirror then s.mirror[g].id else PathOf(Spot(s.naming, g))
    ensures TrimSpace(ref) == ref && ref != ""
    ensures IsGroup(r, ref, id) <==> Concerns(s, r, g, id)
  {
    if g in s.mirror {
      assert ValidRecord(s.start, ref);
      assert !HasPrefix(ref, "/");
    } else {
      SpotPath(s, g);
    }
  }

  /** The groups of a name: one that was there from the start, or one created in its spot. */
  lemma {:induction false} ConcernedGroup(s: Situation, done: set<Item>, r: Realm, g: string, id: string)
    requires Tidy(s) && Reached(s, done, r) && g in s.irods && Concerns(s, r, g, id)
    ensures if g in s.mirror
              then id in s.start.groups && NameIn(s.naming, s.start, id) == Some(g) && !Gone(s, done, id)
              else id !in s.start.groups && Missing(g) in done
  {
    assert id in s.start.groups ==> OldGroup(s, done, r, id);
    if g !in s.mirror {
      assert !At(s.start, Spot(s.naming, g), id);
    } else {
      LiveNotGone(s, done, id);
    }
  }

  ghost predicate UniqueNames(users: map<string, string>) {
    forall a, b | a in users && b in users && users[a] == users[b] :: a == b
  }

  /** A difference about a membership that has not been removed yet, and the user it is about. */
  ghost predicate ForUser(s: Situation, done: set<Item>, x: Item, uid: string) {
    && (x.Absent? || x.Extra?) && (x.Extra? ==> Absent(x.group, x.user) !in done)
    && uid in s.start.users && s.start.users[uid] == x.user && UniqueNames(s.start.users)
  }

  function Changed(x: Item, members: set<string>, uid: string): set<string> {
    if x.Absent? then members + {uid} else members - {uid}
  }

  /** Adding or removing the member makes a group have what is wanted; other groups had it already. */
  lemma {:induction false} WantedStep(
    s: Situation, done: set<Item>, x: Item, uid: string, name: Option<string>, start: set<string>, members: set<string>)
    requires ForUser(s, done, x, uid) && HasWanted(done, name, s.start.users, start, members)
    ensures name == Some(x.group) ==>
              HasWanted(done + {x}, name, s.start.users, start, Changed(x, members, uid))
    ensures name != Some(x.group) ==> HasWanted(done + {x}, name, s.start.users, start, members)
  {
  }

  function Edited(r: Realm, id: string, x: Item, uid: string): Realm
    requires id in r.groups
  {
    r.(groups := r.groups[id := r.groups[id].(members := Changed(x, r.groups[id].members, uid))])
  }

  lemma {:induction false} MemberStepOld(
    s: Situation, done: set<Item>, r: Realm, x: Item, id: string, uid: string, i: string)
    requires ForUser(s, done, x, uid) && id in r.groups && i in s.start.groups
    requires OldGroup(s, done, r, i) && (i == id <==> NameIn(s.naming, s.start, i) == Some(x.group))
    ensures OldGroup(s, done + {x}, Edited(r, id, x, uid), i)
  {
    GoneSame(s, done, {x}, i);
    if !Gone(s, done, i) {
      var was, now := s.start.groups[i], r.groups[i];
      WantedStep(s, done, x, uid, NameIn(s.naming, s.start, i), was.members, now.members);
    }
  }

  lemma {:induction false} MemberStepNew(
    s: Situation, done: set<Item>, r: Realm, x: Item, id: string, uid: string, i: string)
    requires ForUser(s, done, x, uid) && id in r.groups && i in r.groups
    requires NewRecord(s, done, r.groups[i]) && (i == id <==> r.groups[i].segs == Spot(s.naming, x.group))
    ensures NewRecord(s, done + {x}, Edited(r, id, x, uid).groups[i])
  {
    var record := r.groups[i];
    if record.segs != [s.naming.root] {
      assert record.segs == Spot(s.naming, record.segs[1]);
      WantedStep(s, done, x, uid, Some(record.segs[1]), {}, record.members);
    }
  }

  /** Which of the groups from the start, and which of the new ones, a difference is about. */
  lemma {:induction false} OnlyConcerned(s: Situation, done: set<Item>, r: Realm, g: string, id: string)
    requires Tidy(s) && Reached(s, done, r) && g in s.irods && Concerns(s, r, g, id)
    ensures forall i | i in s.start.groups :: i == id <==> NameIn(s.naming, s.start, i) == Some(g)
    ensures forall i | i in r.groups && i !in s.start.groups :: i == id <==> r.groups[i].segs == Spot(s.naming, g)
  {
    ConcernedGroup(s, done, r, g, id);
    forall i | i in r.groups && i !in s.start.groups
      ensures i == id <==> r.groups[i].segs == Spot(s.naming, g)
    {
      assert NewRecord(s, done, r.groups[i]);
      if r.groups[i].segs == Spot(s.naming, g) {
        assert InDiff(s.irods, s.mirror, Missing(g));
      }
    }
  }

  lemma {:induction false} SpotsStayFilled(s: Situation, done: set<Item>, r: Realm, x: Item, id: string, uid: string)
    requires SpotsFilled(s, done, r) && id in r.groups && !x.Missing?
    ensures SpotsFilled(s, done + {x}, Edited(r, id, x, uid))
  {
    forall g | Missing(g) in done + {x} ensures Has(Edited(r, id, x, uid), Spot(s.naming, g)) {
      var i :| At(r, Spot(s.naming, g), i);
      assert At(Edited(r, id, x, uid), Spot(s.naming, g), i);
    }
  }

  lemma {:induction false} StillRemovable(s: Situation, done: set<Item>, x: Item)
    requires Removable(s, done) && InDiff(s.irods, s.mirror, x) && !x.Stale?
    requires x.Absent? ==> IsUsername(s.start, x.user) && (x.group !in s.mirror ==> Missing(x.group) in done)
    ensures Removable(s, done + {x})
  {
  }

  lemma {:induction false} MemberStepGroups(s: Situation, done: set<Item>, r: Realm, x: Item, id: string, uid: string)
    requires OldGroups(s, done, r) && NewGroups(s, done, r) && ForUser(s, done, x, uid) && id in r.groups
    requires forall i | i in s.start.groups :: i == id <==> NameIn(s.naming, s.start, i) == Some(x.group)
    requires forall i | i in r.groups && i !in s.start.groups ::
               i == id <==> r.groups[i].segs == Spot(s.naming, x.group)
    ensures OldGroups(s, done + {x}, Edited(r, id, x, uid)) && NewGroups(s, done + {x}, Edited(r, id, x, uid))
  {
    var r' := Edited(r, id, x, uid);
    forall i | i in s.start.groups ensures OldGroup(s, done + {x}, r', i) {
      MemberStepOld(s, done, r, x, id, uid, i);
    }
    forall i | i in r'.groups && i !in s.start.groups ensures NewRecord(s, done + {x}, r'.groups[i]) {
      MemberStepNew(s, done, r, x, id, uid, i);
    }
  }

  /** Adding or removing the member that a difference is about. */
  lemma {:induction false} MemberStep(s: Situation, done: set<Item>, r: Realm, x: Item, id: string, uid: string)
    requires Tidy(s) && Reached(s, done, r) && InDiff(s.irods, s.mirror, x) && ForUser(s, done, x, uid)
    requires Concerns(s, r, x.group, id)
    ensures Reached(s, done + {x}, Edited(r, id, x, uid))
  {
    ConcernedGroup(s, done, r, x.group, id);
    OnlyConcerned(s, done, r, x.group, id);
    SpotsStayFilled(s, done, r, x, id, uid);
    MemberStepValid(r, x, id, uid);
    assert IsUsername(s.start, x.user);
    StillRemovable(s, done, x);
    MemberStepGroups(s, done, r, x, id, uid);
  }

  lemma {:induction false} MemberStepValid(r: Realm, x: Item, id: string, uid: string)
    requires ValidRealm(r) && id in r.groups && uid in r.users
    ensures ValidRealm(Edited(r, id, x, uid))
  {
    assert ValidRecord(r, id);
    EditKeepsValid(r, id, r.groups[id].(members := Changed(x, r.groups[id].members, uid)));
  }

  // ----- creating a missing mirror -----

  /** Nobody has created the mirror yet if the difference is still there. */
  lemma {:induction false} StillMissing(s: Situation, done: set<Item>, r: Realm, g: string)
    requires SpotsFree(s) && OldGroups(s, done, r) && NewGroups(s, done, r) && r.retired !! r.groups.Keys
    requires g in s.irods && g !in s.mirror && Missing(g) !in done
    ensures !Has(r, Spot(s.naming, g))
  {
    forall id | id in r.groups ensures !At(r, Spot(s.naming, g), id) {
      if id in s.start.groups {
        assert OldGroup(s, done, r, id);
        assert !At(s.start, Spot(s.naming, g), id);
      } else {
        assert NewRecord(s, done, r.groups[id]);
      }
    }
  }

  /** A root that was there at the start is there as long as some mirror is missing. */
  lemma {:induction false} RootStays(s: Situation, done: set<Item>, r: Realm, g: string)
    requires Tidy(s) && OldGroups(s, done, r) && Removable(s, done)
    requires g in s.irods && g !in s.mirror && Has(s.start, [s.naming.root])
    ensures Has(r, [s.naming.root])
  {
    var id :| At(s.start, [s.naming.root], id);
    assert OldGroup(s, done, r, id);
    RootNotGone(s, done, g, id);
    assert At(r, [s.naming.root], id);
  }

  lemma {:induction false} RootNotGone(s: Situation, done: set<Item>, g: string, id: string)
    requires NoSpotBelowStale(s) && Removable(s, done) && ValidRealm(s.start)
    requires g in s.irods && g !in s.mirror && At(s.start, [s.naming.root], id)
    ensures !Gone(s, done, id)
  {
    forall h ensures !(Stale(h) in done && Holds(s, h, id)) {
      assert Stale(h) in done ==> InDiff(s.irods, s.mirror, Stale(h));
      if Holds(s, h, id) {
        assert ValidRecord(s.start, s.mirror[h].id);
        assert s.start.groups[s.mirror[h].id].segs == [s.naming.root] <= Spot(s.naming, g);
      }
    }
  }

  lemma {:induction false} CreateStepOld(s: Situation, done: set<Item>, r: Realm, r': Realm, more: set<Item>)
    requires OldGroups(s, done, r) && Grew(r, r') && NoMembership(more) && forall g :: Stale(g) !in more
    ensures OldGroups(s, done + more, r')
  {
    forall id | id in s.start.groups ensures OldGroup(s, done + more, r', id) {
      assert OldGroup(s, done, r, id);
      GoneSame(s, done, more, id);
      if !Gone(s, done, id) {
        SameWanted(done, more, NameIn(s.naming, s.start, id), s.start.users, s.start.groups[id].members,
            r.groups[id].members);
      }
    }
  }

  /** Differences about groups say nothing about who belongs to one. */
  predicate NoMembership(more: set<Item>) {
    forall x | x in more :: x.Missing? || x.Stale?
  }

  lemma {:induction false} SameWanted(done: set<Item>, more: set<Item>, name: Option<string>,
                                      users: map<string, string>, start: set<string>, members: set<string>)
    requires NoMembership(more) && HasWanted(done, name, users, start, members)
    ensures HasWanted(done + more, name, users, start, members)
  {
    forall uid | uid in users
      ensures Wanted(done + more, name, users[uid], uid in start) == Wanted(done, name, users[uid], uid in start)
    {
    }
  }

  lemma {:induction false} NewStaysNew(s: Situation, done: set<Item>, record: Record, more: set<Item>)
    requires NewRecord(s, done, record) && NoMembership(more)
    ensures NewRecord(s, done + more, record)
  {
    if record.segs != [s.naming.root] {
      SameWanted(done, more, Some(record.segs[1]), s.start.users, {}, record.members);
    }
  }

  /** A group that was just created on the way to the spot of a missing mirror. */
  lemma {:induction false} JustCreated(
    s: Situation, done: set<Item>, r: Realm, r': Realm, g: string, more: set<Item>, id: string)
    requires Tidy(s) && Reached(s, done, r) && g in s.irods && g !in s.mirror && Missing(g) !in done
    requires Growing(r, r', Spot(s.naming, g), s.naming.marks(g))
    requires more == if Has(r', Spot(s.naming, g)) then {Missing(g)} else {}
    requires id in r'.groups && id !in r.groups
    ensures NewRecord(s, done + more, r'.groups[id])
  {
    var record := r'.groups[id];
    assert ValidRecord(r', id);
    PrefixesOfSpot(s.naming, g, record.segs);
    if record.segs == Spot(s.naming, g) {
      assert At(r', Spot(s.naming, g), id);
      NoneAddedYet(s, done, g);
    } else {
      RootIsNew(s, done, r, r', g, id);
    }
  }

  lemma {:induction false} PrefixesOfSpot(n: Naming, g: string, p: seq<string>)
    requires p <= Spot(n, g) && p != []
    ensures p == Spot(n, g) || p == [n.root]
  {
  }

  lemma {:induction false} NoneAddedYet(s: Situation, done: set<Item>, g: string)
    requires Removable(s, done) && g in s.irods && g !in s.mirror && Missing(g) !in done
    ensures HasWanted(done + {Missing(g)}, Some(g), s.start.users, {}, {})
  {
    assert forall u :: Absent(g, u) !in done;
  }

  lemma {:induction false} NewPathIsNew(r: Realm, r': Realm, id: string)
    requires Grew(r, r') && id in r'.groups && id !in r.groups
    ensures !Has(r, r'.groups[id].segs)
  {
    forall i | i in r.groups ensures !At(r, r'.groups[id].segs, i) {
      assert i in r'.groups && r'.groups[i].segs == r.groups[i].segs;
    }
  }

  /** A root that is created was not there at the start. */
  lemma {:induction false} RootIsNew(s: Situation, done: set<Item>, r: Realm, r': Realm, g: string, id: string)
    requires Tidy(s) && Reached(s, done, r) && g in s.irods && g !in s.mirror && Grew(r, r')
    requires id in r'.groups && id !in r.groups && r'.groups[id].segs == [s.naming.root]
    ensures RootNeeded(s)
  {
    NewPathIsNew(r, r', id);
    if Has(s.start, [s.naming.root]) {
      RootStays(s, done, r, g);
      assert false;
    }
  }

  /** Creating the mirror, or only the first part of its path. */
  lemma {:induction false} CreateStep(s: Situation, done: set<Item>, r: Realm, r': Realm, g: string)
    requires Tidy(s) && Reached(s, done, r) && g in s.irods && g !in s.mirror && Missing(g) !in done
    requires Growing(r, r', Spot(s.naming, g), s.naming.marks(g))
    ensures Reached(s, done + (if Has(r', Spot(s.naming, g)) then {Missing(g)} else {}), r')
  {
    var more := if Has(r', Spot(s.naming, g)) then {Missing(g)} else {};
    CreateStepOld(s, done, r, r', more);
    CreateStepNews(s, done, r, r', g, more);
    CreateStepSpots(s, done, r, r', more);
    if more == {} {
      assert done + more == done;
    } else {
      StillRemovable(s, done, Missing(g));
    }
  }

  lemma {:induction false} CreateStepNews(
    s: Situation, done: set<Item>, r: Realm, r': Realm, g: string, more: set<Item>)
    requires Tidy(s) && Reached(s, done, r) && g in s.irods && g !in s.mirror && Missing(g) !in done
    requires Growing(r, r', Spot(s.naming, g), s.naming.marks(g))
    requires more == if Has(r', Spot(s.naming, g)) then {Missing(g)} else {}
    ensures NewGroups(s, done + more, r')
  {
    forall id | id in r'.groups && id !in s.start.groups ensures NewRecord(s, done + more, r'.groups[id]) {
      if id in r.groups {
        NewStaysNew(s, done, r.groups[id], more);
      } else {
        JustCreated(s, done, r, r', g, more, id);
      }
    }
  }

  lemma {:induction false} CreateStepSpots(s: Situation, done: set<Item>, r: Realm, r': Realm, more: set<Item>)
    requires SpotsFilled(s, done, r) && Grew(r, r')
    requires forall h | Missing(h) in more :: Has(r', Spot(s.naming, h))
    ensures SpotsFilled(s, done + more, r')
  {
    forall h | Missing(h) in done + more ensures Has(r', Spot(s.naming, h)) {
      if Missing(h) in done {
        var i :| At(r, Spot(s.naming, h), i);
        assert At(r', Spot(s.naming, h), i);
      }
    }
  }

  // ----- deleting a stale mirror -----

  /** No new group is below a stale mirror. */
  lemma {:induction false} StaleNotAboveNew(s: Situation, done: set<Item>, r: Realm, g: string, id: string)
    requires NoSpotBelowStale(s) && NewGroups(s, done, r) && Removable(s, done)
    requires IsStale(s, g) && s.mirror[g].id in s.start.groups && ValidRecord(s.start, s.mirror[g].id)
    requires id in r.groups && id !in s.start.groups
    ensures !(s.start.groups[s.mirror[g].id].segs <= r.groups[id].segs)
  {
    var top, segs := s.start.groups[s.mirror[g].id].segs, r.groups[id].segs;
    assert NewRecord(s, done, r.groups[id]);
    if segs == [s.naming.root] {
      assert At(s.start, top, s.mirror[g].id);
      assert top <= segs ==> top == segs;
    } else {
      assert segs == Spot(s.naming, segs[1]);
      assert InDiff(s.irods, s.mirror, Missing(segs[1]));
    }
  }

  /** Stale mirrors below one that is below another are below the other. */
  lemma {:induction false} NestedFurther(s: Situation, g: string, h: string, id: string)
    requires h in s.mirror && Holds(s, g, s.mirror[h].id) && Holds(s, h, id)
    ensures Holds(s, g, id)
  {
  }

  lemma {:induction false} StaleRemovable(s: Situation, done: set<Item>, g: string)
    requires Removable(s, done) && IsStale(s, g)
    ensures Removable(s, done + Effect(s, Stale(g)))
  {
    var more := Effect(s, Stale(g));
    forall x | x in more ensures InDiff(s.irods, s.mirror, x) && Effect(s, x) <= more {
      forall h | h in s.mirror && Nested(s, x.group, h) ensures Stale(h) in more {
        NestedFurther(s, g, x.group, s.mirror[h].id);
      }
    }
  }

  lemma {:induction false} OwnEffect(s: Situation, x: Item)
    requires WellRead(s) && InDiff(s.irods, s.mirror, x)
    ensures x in Effect(s, x)
  {
  }

  lemma {:induction false} DeleteStep(s: Situation, done: set<Item>, r: Realm, g: string)
    requires Tidy(s) && Reached(s, done, r) && IsStale(s, g) && Stale(g) !in done
    ensures s.mirror[g].id in r.groups
    ensures Reached(s, done + Effect(s, Stale(g)), DeleteSubtree(r, s.mirror[g].id))
  {
    var top := s.mirror[g].id;
    assert OldGroup(s, done, r, top);
    StaleNotGone(s, done, g);
    DeleteKeepsValid(r, top);
    StaleRemovable(s, done, g);
    OwnEffect(s, Stale(g));
    DeleteStepOld(s, done, r, g, DeleteSubtree(r, top));
    DeleteStepNew(s, done, r, g, DeleteSubtree(r, top));
  }

  lemma {:induction false} DeleteStepOld(s: Situation, done: set<Item>, r: Realm, g: string, r': Realm)
    requires OldGroups(s, done, r) && IsStale(s, g) && s.mirror[g].id in s.start.groups
    requires !Gone(s, done, s.mirror[g].id) && s.mirror[g].id in r.groups && r' == DeleteSubtree(r, s.mirror[g].id)
    requires Stale(g) in Effect(s, Stale(g))
    ensures OldGroups(s, done + Effect(s, Stale(g)), r')
  {
    var more := Effect(s, Stale(g));
    assert OldGroup(s, done, r, s.mirror[g].id);
    forall id | id in s.start.groups ensures OldGroup(s, done + more, r', id) {
      assert OldGroup(s, done, r, id);
      GoneStep(s, done, g, id);
      if !Gone(s, done + more, id) {
        SameWanted(done, more, NameIn(s.naming, s.start, id), s.start.users, s.start.groups[id].members,
                   r.groups[id].members);
      }
    }
  }

  /** After the deletion of a stale mirror, what is gone is what was gone and what the mirror held. */
  lemma {:induction false} GoneStep(s: Situation, done: set<Item>, g: string, id: string)
    requires Stale(g) in Effect(s, Stale(g))
    ensures Gone(s, done + Effect(s, Stale(g)), id) <==> Gone(s, done, id) || Holds(s, g, id)
  {
    var more := Effect(s, Stale(g));
    if Gone(s, done, id) {
      var h :| Stale(h) in done && Holds(s, h, id);
      assert Stale(h) in done + more;
    } else if Holds(s, g, id) {
      assert Stale(g) in done + more;
    } else {
      forall h ensures !(Stale(h) in done + more && Holds(s, h, id)) {
        assert Stale(h) in more && Holds(s, h, id) ==> Holds(s, g, id) by {
          if Stale(h) in more && Holds(s, h, id) {
            NestedFurther(s, g, h, id);
          }
        }
      }
    }
  }

  lemma {:induction false} DeleteStepNew(s: Situation, done: set<Item>, r: Realm, g: string, r': Realm)
    requires OldGroups(s, done, r) && NewGroups(s, done, r) && SpotsFilled(s, done, r) && Removable(s, done)
    requires SpotsFree(s) && NoSpotBelowStale(s) && r.retired !! r.groups.Keys
    requires IsStale(s, g) && s.mirror[g].id in s.start.groups && ValidRecord(s.start, s.mirror[g].id)
    requires !Gone(s, done, s.mirror[g].id) && s.mirror[g].id in r.groups && r' == DeleteSubtree(r, s.mirror[g].id)
    ensures NewGroups(s, done + Effect(s, Stale(g)), r') && SpotsFilled(s, done + Effect(s, Stale(g)), r')
  {
    var top, more := s.mirror[g].id, Effect(s, Stale(g));
    assert OldGroup(s, done, r, top);
    forall i | i in r'.groups && i !in s.start.groups ensures NewRecord(s, done + more, r'.groups[i]) {
      NewStaysNew(s, done, r.groups[i], more);
    }
    forall h | Missing(h) in done + more ensures Has(r', Spot(s.naming, h)) {
      var i :| At(r, Spot(s.naming, h), i);
      SpotIsNew(s, done, r, h, i);
      StaleNotAboveNew(s, done, r, g, i);
      assert At(r', Spot(s.naming, h), i);
    }
  }

  /** The group in the spot of a missing mirror is not one from the start. */
  lemma {:induction false} SpotIsNew(s: Situation, done: set<Item>, r: Realm, h: string, i: string)
    requires OldGroups(s, done, r) && Removable(s, done) && SpotsFree(s)
    requires Missing(h) in done && At(r, Spot(s.naming, h), i) && r.retired !! r.groups.Keys
    ensures i !in s.start.groups
  {
    assert InDiff(s.irods, s.mirror, Missing(h));
    assert !At(s.start, Spot(s.naming, h), i);
    assert i in s.start.groups ==> OldGroup(s, done, r, i);
  }

  // ----- any call of a plan -----

  /** A user named in a difference is named by nothing else in Keycloak. */
  lemma {:induction false} NamesUser(s: Situation, r: Realm, x: Item, ref: string, uid: string)
    requires WellRead(s) && r.users == s.start.users && InDiff(s.irods, s.mirror, x)
    requires (x.Absent? && ref == x.user) || (x.Extra? && ref == UserId(s.mirror, x.group, x.user))
    ensures TrimSpace(ref) == ref && ref != ""
    ensures IsUser(r, ref, uid) <==> uid in r.users && r.users[uid] == x.user
  {
    if x.Extra? {
      assert Mirrored(s.start, s.mirror[x.group].id, s.mirror[x.group]);
      assert ref in r.users && r.users[ref] == x.user;
      IdNamesUser(r, ref, uid);
    } else {
      MemberName(s.irods, s.start, x.group, ref);
      NameNamesUser(r, ref, uid);
    }
  }

  lemma {:induction false} MemberName(irods: IrodsSnapshot, r: Realm, g: string, u: string)
    requires MembersNamed(irods, r) && g in irods && u in irods[g].members
    ensures u != "" && Trimmed(u) && u !in r.users
  {
    assert Trimmed(u);
  }

  lemma {:induction false} NameNamesUser(r: Realm, ref: string, uid: string)
    requires ref != "" && Trimmed(ref) && ref !in r.users
    ensures TrimSpace(ref) == ref && ref != ""
    ensures IsUser(r, ref, uid) <==> uid in r.users && r.users[uid] == ref
  {
  }

  lemma {:induction false} IdNamesUser(r: Realm, ref: string, uid: string)
    requires ValidUsers(r) && ref in r.users
    ensures TrimSpace(ref) == ref && ref != ""
    ensures IsUser(r, ref, uid) <==> uid in r.users && r.users[uid] == r.users[ref]
  {
    assert ValidUser(r, ref);
    if uid in r.users {
      assert ValidUser(r, uid);
    }
  }

  /** The calls of a plan have pinned-down effects. */
  lemma {:induction false} CallIsExact(s: Situation, x: Item)
    requires WellRead(s) && InDiff(s.irods, s.mirror, x)
    ensures Exact(CallOf(s, x))
  {
    if x.Absent? || x.Extra? {
      NamesUser(s, s.start, x, if x.Absent? then x.user else UserId(s.mirror, x.group, x.user), "");
    }
    if x.group in s.mirror {
      assert ValidRecord(s.start, s.mirror[x.group].id);
    } else {
      SpotPath(s, x.group);
    }
  }

  /** What a membership call means in terms of the group and the user concerned. */
  lemma {:induction false} MembershipCall(s: Situation, done: set<Item>, r: Realm, x: Item, uid: string, gid: string)
    requires Tidy(s) && Reached(s, done, r) && InDiff(s.irods, s.mirror, x) && (x.Absent? || x.Extra?)
    ensures Both(r, CallOf(s, x).user, CallOf(s, x).group, uid, gid) <==>
              uid in r.users && r.users[uid] == x.user && Concerns(s, r, x.group, gid)
  {
    NamesUser(s, r, x, CallOf(s, x).user, uid);
    RefersTo(s, done, r, x.group, CallOf(s, x).group, gid);
  }

  /** A group that is to stay is still there. */
  lemma {:induction false} StillThere(s: Situation, done: set<Item>, r: Realm, g: string)
    requires Tidy(s) && Reached(s, done, r) && g in s.irods && g in s.mirror
    ensures Concerns(s, r, g, s.mirror[g].id)
  {
    LiveNotGone(s, done, s.mirror[g].id);
    assert OldGroup(s, done, r, s.mirror[g].id);
  }

  /** The member that is to be removed, and the group it is to be removed from. */
  lemma {:induction false} ExtraIsThere(s: Situation, done: set<Item>, r: Realm, x: Item)
    requires Tidy(s) && Reached(s, done, r) && InDiff(s.irods, s.mirror, x) && x.Extra?
    ensures var uid, gid := UserId(s.mirror, x.group, x.user), s.mirror[x.group].id;
            uid in r.users && r.users[uid] == x.user && Concerns(s, r, x.group, gid)
  {
    StillThere(s, done, r, x.group);
    assert Mirrored(s.start, s.mirror[x.group].id, s.mirror[x.group]);
  }

  /** What a successful membership call does. */
  lemma {:induction false} MembershipPerformed(s: Situation, done: set<Item>, r: Realm, x: Item, r': Realm)
    returns (uid: string, gid: string)
    requires Tidy(s) && Reached(s, done, r) && InDiff(s.irods, s.mirror, x) && (x.Absent? || x.Extra?)
    requires Enabled(CallOf(s, x), r) && Performed(CallOf(s, x), r, r')
    ensures uid in r.users && r.users[uid] == x.user && Concerns(s, r, x.group, gid)
    ensures r' == Edited(r, gid, x, uid)
  {
    var call := CallOf(s, x);
    if x.Absent? {
      uid, gid :| Both(r, call.user, call.group, uid, gid);
    } else {
      ExtraIsThere(s, done, r, x);
      uid, gid := UserId(s.mirror, x.group, x.user), s.mirror[x.group].id;
    }
    MembershipCall(s, done, r, x, uid, gid);
    assert Both(r, call.user, call.group, uid, gid);
  }

  /** A difference that was not removed yet, and a user it can be about. */
  lemma {:induction false} UserOfItem(s: Situation, done: set<Item>, x: Item, uid: string)
    requires ValidUsers(s.start) && Removable(s, done) && InDiff(s.irods, s.mirror, x) && (x.Absent? || x.Extra?)
    requires uid in s.start.users && s.start.users[uid] == x.user
    ensures ForUser(s, done, x, uid)
  {
    assert x.Extra? ==> !InDiff(s.irods, s.mirror, Absent(x.group, x.user));
  }

  lemma {:induction false} MembershipDone(s: Situation, done: set<Item>, r: Realm, x: Item, r': Realm)
    requires Tidy(s) && Reached(s, done, r) && InDiff(s.irods, s.mirror, x) && (x.Absent? || x.Extra?)
    requires Enabled(CallOf(s, x), r) && Performed(CallOf(s, x), r, r')
    ensures Reached(s, done + {x}, r')
  {
    var uid, gid := MembershipPerformed(s, done, r, x, r');
    UserOfItem(s, done, x, uid);
    MemberStep(s, done, r, x, gid, uid);
  }

  /** Whatever comes out of the creation of a missing mirror. */
  lemma {:induction false} CreateOutcome(s: Situation, done: set<Item>, r: Realm, g: string, ok: bool, r': Realm)
    requires Tidy(s) && Reached(s, done, r) && g in s.irods && g !in s.mirror && Missing(g) !in done
    requires Permits(CallOf(s, Missing(g)), r, ok, r')
    ensures r' == r || Growing(r, r', Spot(s.naming, g), s.naming.marks(g))
    ensures ok ==> r' != r && Has(r', Spot(s.naming, g))
  {
    CallIsExact(s, Missing(g));
    SpotPath(s, g);
    StillMissing(s, done, r, g);
  }

  lemma {:induction false} DeleteOutcome(s: Situation, done: set<Item>, r: Realm, g: string, ok: bool, r': Realm)
    requires Tidy(s) && Reached(s, done, r) && g in s.mirror && g !in s.irods
    requires Permits(CallOf(s, Stale(g)), r, ok, r')
    ensures s.mirror[g].id in r.groups ==> r' == DeleteSubtree(r, s.mirror[g].id) || (!ok && r' == r)
    ensures s.mirror[g].id !in r.groups ==> r' == r
  {
    CallIsExact(s, Stale(g));
    assert forall id :: IsGroup(r, s.mirror[g].id, id) <==> id == s.mirror[g].id && id in r.groups by {
      forall id { RefersTo(s, done, r, g, s.mirror[g].id, id); }
    }
    assert s.mirror[g].id in r.groups ==> IsGroup(r, s.mirror[g].id, s.mirror[g].id);
  }

  /** The creation of a missing mirror, whatever comes out of it. */
  lemma {:induction false} CreateItem(s: Situation, done: set<Item>, r: Realm, g: string, ok: bool, r': Realm)
    returns (done': set<Item>)
    requires Tidy(s) && Reached(s, done, r) && g in s.irods && g !in s.mirror && Missing(g) !in done
    requires Permits(CallOf(s, Missing(g)), r, ok, r') && (ok || r' != r)
    ensures Reached(s, done', r') && (done' == done || done' == done + {Missing(g)})
    ensures ok ==> Missing(g) in done'
  {
    CreateOutcome(s, done, r, g, ok, r');
    CreateStep(s, done, r, r', g);
    done' := if Has(r', Spot(s.naming, g)) then done + {Missing(g)} else done;
    assert done + {} == done;
  }

  /** The deletion of a stale mirror, whatever comes out of it. */
  lemma {:induction false} DeleteItem(s: Situation, done: set<Item>, r: Realm, g: string, ok: bool, r': Realm)
    requires Tidy(s) && Reached(s, done, r) && IsStale(s, g) && Stale(g) !in done
    requires Permits(CallOf(s, Stale(g)), r, ok, r') && (ok || r' != r)
    ensures Reached(s, done + Effect(s, Stale(g)), r')
  {
    DeleteStep(s, done, r, g);
    DeleteOutcome(s, done, r, g, ok, r');
  }

  /** A change of membership, whatever comes out of it. */
  lemma {:induction false} MemberItem(s: Situation, done: set<Item>, r: Realm, x: Item, ok: bool, r': Realm)
    requires Tidy(s) && Reached(s, done, r) && InDiff(s.irods, s.mirror, x) && (x.Absent? || x.Extra?)
    requires Permits(CallOf(s, x), r, ok, r') && (ok || r' != r)
    ensures Reached(s, done + {x}, r')
  {
    CallIsExact(s, x);
    MembershipDone(s, done, r, x, r');
  }

  /** One operation of a plan, whatever comes out of it: its difference is removed, together with the stale mirrors
      below a stale one, or nothing is; it is removed when the call succeeds, and not when the call fails without
      effect. */
  lemma {:induction false} ItemStep(s: Situation, done: set<Item>, r: Realm, x: Item, ok: bool, r': Realm)
    returns (done': set<Item>)
    requires Tidy(s) && Reached(s, done, r) && InDiff(s.irods, s.mirror, x) && x !in done
    requires Permits(CallOf(s, x), r, ok, r')
    ensures Reached(s, done', r') && (done' == done || done' == done + Effect(s, x))
    ensures ok ==> done' == done + Effect(s, x)
    ensures !ok && r' == r ==> done' == done
  {
    if !ok && r' == r {
      return done;
    }
    if x.Missing? {
      done' := CreateItem(s, done, r, x.group, ok, r');
    } else if x.Stale? {
      DeleteItem(s, done, r, x.group, ok, r');
      done' := done + Effect(s, x);
    } else {
      MemberItem(s, done, r, x, ok, r');
      done' := done + {x};
    }
  }

  lemma {:induction false} EffectWithin(s: Situation, done: set<Item>, x: Item)
    requires Removable(s, done) && x in done
    ensures done + Effect(s, x) == done
  {
  }

  /** Doing an operation again whose difference is gone changes nothing. */
  lemma {:induction false} ItemAgain(s: Situation, done: set<Item>, r: Realm, x: Item, ok: bool, r': Realm)
    requires Tidy(s) && Reached(s, done, r) && x in done && Permits(CallOf(s, x), r, ok, r')
    ensures r' == r
  {
    CallIsExact(s, x);
    match x
    case Missing(g) => CreateAgain(s, done, r, g, ok, r');
    case Stale(g) =>
      assert OldGroup(s, done, r, s.mirror[g].id);
      assert Holds(s, g, s.mirror[g].id);
      DeleteOutcome(s, done, r, g, ok, r');
    case _ =>
      if r' != r {
        MembershipAgain(s, done, r, x, r');
      }
  }

  lemma {:induction false} CreateAgain(s: Situation, done: set<Item>, r: Realm, g: string, ok: bool, r': Realm)
    requires Tidy(s) && Reached(s, done, r) && Missing(g) in done && Permits(CallOf(s, Missing(g)), r, ok, r')
    ensures r' == r
  {
    CallIsExact(s, Missing(g));
    SpotPath(s, g);
    var id := MarkedAlready(s, done, r, g);
    UpdateOutcome(r, CallOf(s, Missing(g)), id, ok, r');
    SameRecord(r, id);
  }

  lemma {:induction false} MarkedAlready(s: Situation, done: set<Item>, r: Realm, g: string) returns (id: string)
    requires Tidy(s) && Reached(s, done, r) && Missing(g) in done
    ensures At(r, Spot(s.naming, g), id) && r.groups[id].attributes == s.naming.marks(g)
  {
    id :| At(r, Spot(s.naming, g), id);
    ConcernedGroup(s, done, r, g, id);
    assert NewRecord(s, done, r.groups[id]);
  }

  lemma {:induction false} UpdateOutcome(r: Realm, call: Call, id: string, ok: bool, r': Realm)
    requires call.CreateOrUpdateGroup? && Exact(call) && At(r, Segments(call.path), id)
    requires Permits(call, r, ok, r')
    ensures r' == r || r' == SetAttributes(r, id, call.attributes)
  {
  }

  lemma {:induction false} MembershipAgain(s: Situation, done: set<Item>, r: Realm, x: Item, r': Realm)
    requires Tidy(s) && Reached(s, done, r) && x in done && (x.Absent? || x.Extra?)
    requires Enabled(CallOf(s, x), r) && Performed(CallOf(s, x), r, r')
    ensures r' == r
  {
    var uid, gid := MembershipPerformed(s, done, r, x, r');
    UserOfItem(s, done, x, uid);
    ConcernedGroup(s, done, r, x.group, gid);
    NoChange(s, done, r, x, uid, gid);
    SameRecord(r, gid);
  }

  lemma {:induction false} NoChange(s: Situation, done: set<Item>, r: Realm, x: Item, uid: string, gid: string)
    requires OldGroups(s, done, r) && NewGroups(s, done, r) && ForUser(s, done, x, uid) && x in done
    requires gid in r.groups
    requires if gid in s.start.groups then NameIn(s.naming, s.start, gid) == Some(x.group) && !Gone(s, done, gid)
             else r.groups[gid].segs == Spot(s.naming, x.group)
    ensures Changed(x, r.groups[gid].members, uid) == r.groups[gid].members
  {
    if gid in s.start.groups {
      assert OldGroup(s, done, r, gid);
    } else {
      assert NewRecord(s, done, r.groups[gid]);
    }
  }

  /** An operation can be carried out unless it adds an unknown user, or adds to a mirror that was not created. */
  lemma {:induction false} ItemEnabled(s: Situation, done: set<Item>, r: Realm, x: Item)
    requires Tidy(s) && Reached(s, done, r) && InDiff(s.irods, s.mirror, x)
    ensures Enabled(CallOf(s, x), r) <==>
              (x.Absent? ==> IsUsername(s.start, x.user) && (x.group !in s.mirror ==> Missing(x.group) in done))
  {
    if x.Absent? {
      GroupAvailable(s, done, r, x.group);
      if Enabled(CallOf(s, x), r) {
        EnabledMeans(s, done, r, x);
      } else if IsUsername(s.start, x.user) && (exists gid :: Concerns(s, r, x.group, gid)) {
        MeansEnabled(s, done, r, x);
      }
    }
  }

  lemma {:induction false} EnabledMeans(s: Situation, done: set<Item>, r: Realm, x: Item)
    requires Tidy(s) && Reached(s, done, r) && InDiff(s.irods, s.mirror, x) && x.Absent? && Enabled(CallOf(s, x), r)
    ensures IsUsername(s.start, x.user) && exists gid :: Concerns(s, r, x.group, gid)
  {
    var uid, gid :| Both(r, CallOf(s, x).user, CallOf(s, x).group, uid, gid);
    MembershipCall(s, done, r, x, uid, gid);
  }

  lemma {:induction false} MeansEnabled(s: Situation, done: set<Item>, r: Realm, x: Item)
    requires Tidy(s) && Reached(s, done, r) && InDiff(s.irods, s.mirror, x) && x.Absent?
    requires IsUsername(s.start, x.user) && exists gid :: Concerns(s, r, x.group, gid)
    ensures Enabled(CallOf(s, x), r)
  {
    var uid :| uid in s.start.users && s.start.users[uid] == x.user;
    var gid :| Concerns(s, r, x.group, gid);
    MembershipCall(s, done, r, x, uid, gid);
    assert Both(r, CallOf(s, x).user, CallOf(s, x).group, uid, gid);
  }

  lemma {:induction false} GroupAvailable(s: Situation, done: set<Item>, r: Realm, g: string)
    requires Tidy(s) && Reached(s, done, r) && g in s.irods
    ensures (exists gid :: Concerns(s, r, g, gid)) <==> (g !in s.mirror ==> Missing(g) in done)
  {
    if g in s.mirror {
      StillThere(s, done, r, g);
    } else if Missing(g) in done {
      var id :| At(r, Spot(s.naming, g), id);
      assert Concerns(s, r, g, id);
    } else {
      StillMissing(s, done, r, g);
      assert forall gid :: Concerns(s, r, g, gid) ==> At(r, Spot(s.naming, g), gid);
    }
  }
}
