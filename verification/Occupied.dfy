/** Spots of missing mirrors that are taken by groups which mirror nothing. Creating such a mirror marks the group that
    is there. A run does what it would do had these groups been marked from the start. */
module Occupied {
  import opened Wrappers
  import opened Paths
  import opened Realms
  import opened Mirrors
  import opened Reach
  import opened Remaining
  import opened Readings
  import opened Runs

  /** The spot of a missing mirror. */
  predicate MissingSpot(s: Situation, segs: seq<string>) {
    |segs| == 2 && segs[0] == s.naming.root && segs[1] in s.irods && segs[1] !in s.mirror
  }

  /** The group sat in the spot of a missing mirror from the start. */
  predicate Occupies(s: Situation, g: string, id: string) {
    g in s.irods && g !in s.mirror && At(s.start, Spot(s.naming, g), id)
  }

  /** The groups that sit there mirror nothing. */
  ghost predicate SpotsUnmanaged(s: Situation) {
    forall g, id | Occupies(s, g, id) :: NameIn(s.naming, s.start, id).None?
  }

  /** What is tidy except that spots may be occupied. */
  ghost predicate NearlyTidy(s: Situation) {
    && WellRead(s) && OneMirrorEach(s.naming, s.start) && SpotsUnmanaged(s)
    && StaleHoldNoLive(s) && NoSpotBelowStale(s)
  }

  function Marking(s: Situation, record: Record): Record {
    if MissingSpot(s, record.segs) then record.(attributes := s.naming.marks(record.segs[1])) else record
  }

  /** The realm with whatever sits in the spot of a missing mirror marked. */
  function Marked(s: Situation, r: Realm): Realm {
    r.(groups := map id | id in r.groups :: Marking(s, r.groups[id]))
  }

  // ----- the situation with occupants marked -----

  ghost predicate IsOccupied(s: Situation, g: string) {
    exists id :: Occupies(s, g, id)
  }

  ghost function OccupiedNames(s: Situation): set<string> {
    set g | g in s.irods && IsOccupied(s, g)
  }

  ghost function Occupant(s: Situation, g: string): string
    requires IsOccupied(s, g)
  {
    var id :| Occupies(s, g, id);
    id
  }

  ghost function MarkedMirror(s: Situation): MirrorSnapshot {
    map g | g in s.mirror.Keys + OccupiedNames(s) ::
      if g in s.mirror then s.mirror[g]
      else assert IsOccupied(s, g); EntryOf(s.start, Occupant(s, g), "")
  }

  ghost function MarkedSituation(s: Situation): Situation {
    Situation(s.naming, s.irods, Marked(s, s.start), MarkedMirror(s))
  }

  lemma {:induction false} MarkedValid(s: Situation, r: Realm)
    requires ValidRealm(r)
    ensures ValidRealm(Marked(s, r))
  {
    assert forall id | id in r.groups :: ValidRecord(r, id);
    SameForest(r, Marked(s, r));
  }

  lemma {:induction false} OneOccupant(s: Situation, g: string, id: string)
    requires ValidRealm(s.start) && Occupies(s, g, id)
    ensures g in MarkedMirror(s) && MarkedMirror(s)[g] == EntryOf(s.start, id, "")
  {
    assert IsOccupied(s, g) && g in OccupiedNames(s);
    assert Occupies(s, g, Occupant(s, g));
  }

  /** A group in the spot of a missing mirror is named after the spot once it is marked, others are named as before. */
  lemma {:induction false} MarkedName(s: Situation, id: string)
    requires WellRead(s) && id in s.start.groups
    ensures var n, marked := s.naming, Marked(s, s.start);
            var segs := s.start.groups[id].segs;
            if MissingSpot(s, segs) then NameIn(n, marked, id) == Some(segs[1]) && Occupies(s, segs[1], id)
            else NameIn(n, marked, id) == NameIn(n, s.start, id)
  {
    var segs := s.start.groups[id].segs;
    if MissingSpot(s, segs) {
      assert segs == Spot(s.naming, segs[1]);
    }
  }

  lemma {:induction false} MirrorUnmarked(s: Situation, g: string)
    requires WellRead(s) && SpotsUnmanaged(s) && g in s.mirror
    ensures s.mirror[g].id in s.start.groups && !MissingSpot(s, s.start.groups[s.mirror[g].id].segs)
  {
    var id := s.mirror[g].id;
    MarkedName(s, id);
    assert NameIn(s.naming, s.start, id) == Some(g);
  }

  lemma {:induction false} MarkedEntry(s: Situation, g: string)
    requires WellRead(s) && SpotsUnmanaged(s) && g in MarkedMirror(s)
    ensures var m, r := MarkedMirror(s)[g], Marked(s, s.start);
            m.id in r.groups && NameIn(s.naming, r, m.id) == Some(g) && Mirrored(r, m.id, m)
  {
    if g in s.mirror {
      MirrorUnmarked(s, g);
      MarkedName(s, s.mirror[g].id);
    } else {
      var id := Occupant(s, g);
      assert Occupies(s, g, id);
      MarkedName(s, id);
      EntryMirrors(s.start, id, "");
    }
  }

  lemma {:induction false} MarkedSnapshot(s: Situation)
    requires WellRead(s) && SpotsUnmanaged(s)
    ensures IsSnapshot(s.naming, Marked(s, s.start), MarkedMirror(s))
  {
    var r := Marked(s, s.start);
    forall id | id in r.groups && NameIn(s.naming, r, id).Some?
      ensures NameIn(s.naming, r, id).value in MarkedMirror(s)
    {
      MarkedName(s, id);
      if MissingSpot(s, s.start.groups[id].segs) {
        OneOccupant(s, s.start.groups[id].segs[1], id);
      }
    }
    forall g | g in MarkedMirror(s)
      ensures var m := MarkedMirror(s)[g];
              m.id in r.groups && NameIn(s.naming, r, m.id) == Some(g) && Mirrored(r, m.id, m)
    {
      MarkedEntry(s, g);
    }
  }

  lemma {:induction false} MarkedOneEach(s: Situation)
    requires WellRead(s) && OneMirrorEach(s.naming, s.start)
    ensures OneMirrorEach(s.naming, Marked(s, s.start))
  {
    var n, r := s.naming, Marked(s, s.start);
    forall a, b | a in r.groups && b in r.groups && NameIn(n, r, a).Some? && NameIn(n, r, a) == NameIn(n, r, b)
      ensures a == b
    {
      MarkedName(s, a);
      MarkedName(s, b);
      var p, q := s.start.groups[a].segs, s.start.groups[b].segs;
      if MissingSpot(s, p) && MissingSpot(s, q) {
        assert p == q;
      }
    }
  }

  lemma {:induction false} MarkedSpotsFree(s: Situation)
    requires WellRead(s)
    ensures SpotsFree(MarkedSituation(s))
  {
    forall g | g in s.irods && g !in MarkedMirror(s) ensures !Has(Marked(s, s.start), Spot(s.naming, g)) {
      if id :| At(Marked(s, s.start), Spot(s.naming, g), id) {
        assert g !in s.mirror;
        assert Occupies(s, g, id);
        OneOccupant(s, g, id);
        assert false;
      }
    }
  }

  lemma {:induction false} StaleUnmarked(s: Situation, g: string)
    requires g in MarkedMirror(s) && g !in s.irods
    ensures g in s.mirror && MarkedMirror(s)[g] == s.mirror[g]
  {
  }

  lemma {:induction false} SamePlaces(s: Situation, a: string, b: string)
    requires a in s.start.groups && b in s.start.groups
    ensures var m := Marked(s, s.start);
            a in m.groups && b in m.groups &&
            (m.groups[a].segs <= m.groups[b].segs <==> s.start.groups[a].segs <= s.start.groups[b].segs)
  {
  }

  lemma {:induction false} MarkedHolds(s: Situation, g: string, id: string)
    requires IsStale(MarkedSituation(s), g) && Holds(MarkedSituation(s), g, id)
    ensures IsStale(s, g) && Holds(s, g, id)
  {
    StaleUnmarked(s, g);
    SamePlaces(s, s.mirror[g].id, id);
  }

  lemma {:induction false} HeldUnmarked(s: Situation, g: string, id: string)
    requires NearlyTidy(s) && IsStale(s, g) && Holds(s, g, id)
    ensures !MissingSpot(s, s.start.groups[id].segs)
  {
    var segs := s.start.groups[id].segs;
    assert MissingSpot(s, segs) ==> segs == Spot(s.naming, segs[1]);
  }

  lemma {:induction false} MarkedHoldsNoLive(s: Situation)
    requires NearlyTidy(s)
    ensures StaleHoldNoLive(MarkedSituation(s))
  {
    var s' := MarkedSituation(s);
    forall g, id | IsStale(s', g) && Holds(s', g, id) && NameIn(s.naming, s'.start, id).Some?
      ensures NameIn(s.naming, s'.start, id).value !in s.irods
    {
      MarkedHolds(s, g, id);
      HeldUnmarked(s, g, id);
      MarkedName(s, id);
    }
  }

  lemma {:induction false} MarkedNoSpotBelow(s: Situation)
    requires NoSpotBelowStale(s)
    ensures NoSpotBelowStale(MarkedSituation(s))
  {
    var s' := MarkedSituation(s);
    forall g, m | IsStale(s', g) && m in s.irods && m !in s'.mirror && s'.mirror[g].id in s'.start.groups
      ensures !(s'.start.groups[s'.mirror[g].id].segs <= Spot(s.naming, m))
    {
      StaleUnmarked(s, g);
      SamePlaces(s, s.mirror[g].id, s.mirror[g].id);
      MissingStillMissing(s, m);
    }
  }

  lemma {:induction false} MissingStillMissing(s: Situation, m: string)
    requires m in s.irods && m !in MarkedMirror(s)
    ensures m !in s.mirror
  {
  }

  lemma {:induction false} MarkedIsTidy(s: Situation)
    requires NearlyTidy(s)
    ensures Tidy(MarkedSituation(s))
  {
    MarkedValid(s, s.start);
    MarkedSnapshot(s);
    MarkedOneEach(s);
    MarkedSpotsFree(s);
    MarkedHoldsNoLive(s);
    MarkedNoSpotBelow(s);
  }

  // ----- the differences that are left when occupants are marked -----

  ghost predicate Kept(s: Situation, x: Item) {
    InDiff(s.irods, s.mirror, x) && InDiff(s.irods, MarkedMirror(s), x)
  }

  /** Marking an occupant takes away its creation and the additions of members that it has, and shows which of its
      members are too many. */
  lemma {:induction false} OccupantDiff(s: Situation, g: string, id: string, x: Item)
    requires ValidRealm(s.start) && Occupies(s, g, id) && x.group == g
    ensures InDiff(s.irods, s.mirror, x) <==> x.Missing? || (x.Absent? && x.user in s.irods[g].members)
    ensures InDiff(s.irods, MarkedMirror(s), x) <==>
            || (x.Absent? && x.user in s.irods[g].members && x.user !in NamesOf(s.start, id))
            || (x.Extra? && x.user !in s.irods[g].members && x.user in NamesOf(s.start, id))
  {
    OneOccupant(s, g, id);
  }

  lemma {:induction false} OtherDiff(s: Situation, x: Item)
    requires !IsOccupied(s, x.group)
    ensures x.group in MarkedMirror(s) <==> x.group in s.mirror
    ensures x.group in s.mirror ==> MarkedMirror(s)[x.group] == s.mirror[x.group]
    ensures InDiff(s.irods, MarkedMirror(s), x) <==> InDiff(s.irods, s.mirror, x)
  {
  }

  // ----- one call -----

  lemma {:induction false} SameForestMarked(s: Situation, r: Realm)
    ensures forall p, id :: At(Marked(s, r), p, id) <==> At(r, p, id)
    ensures forall ref, gid :: IsGroup(Marked(s, r), ref, gid) <==> IsGroup(r, ref, gid)
    ensures forall p :: Has(Marked(s, r), p) <==> Has(r, p)
  {
    var m := Marked(s, r);
    forall p, id ensures At(m, p, id) <==> At(r, p, id) {
    }
    forall p ensures Has(m, p) <==> Has(r, p) {
      if id :| At(r, p, id) {
        assert At(m, p, id);
      }
    }
  }

  lemma {:induction false} MarkedMembers(s: Situation, r: Realm, gid: string, uid: string)
    requires gid in r.groups
    ensures Marked(s, AddMember(r, gid, uid)) == AddMember(Marked(s, r), gid, uid)
    ensures Marked(s, RemoveMember(r, gid, uid)) == RemoveMember(Marked(s, r), gid, uid)
  {
    assert Marked(s, AddMember(r, gid, uid)).groups == AddMember(Marked(s, r), gid, uid).groups;
    assert Marked(s, RemoveMember(r, gid, uid)).groups == RemoveMember(Marked(s, r), gid, uid).groups;
  }

  lemma {:induction false} MarkedDelete(s: Situation, r: Realm, gid: string)
    requires gid in r.groups
    ensures Marked(s, DeleteSubtree(r, gid)) == DeleteSubtree(Marked(s, r), gid)
  {
    assert Marked(s, DeleteSubtree(r, gid)).groups == DeleteSubtree(Marked(s, r), gid).groups;
  }

  lemma {:induction false} MarkedUpdate(s: Situation, r: Realm, g: string, id: string)
    requires At(r, Spot(s.naming, g), id) && g in s.irods && g !in s.mirror
    ensures Marked(s, SetAttributes(r, id, s.naming.marks(g))) == Marked(s, r)
    ensures SetAttributes(Marked(s, r), id, s.naming.marks(g)) == Marked(s, r)
  {
    var m := Marked(s, r);
    assert Marked(s, SetAttributes(r, id, s.naming.marks(g))).groups == m.groups;
    SameRecord(m, id);
  }

  lemma {:induction false} MarkedGrowth(s: Situation, r: Realm, r': Realm, g: string)
    requires Growing(r, r', Spot(s.naming, g), s.naming.marks(g)) && g in s.irods && g !in s.mirror
    ensures Growing(Marked(s, r), Marked(s, r'), Spot(s.naming, g), s.naming.marks(g))
  {
    MarkedValid(s, r');
    MarkedGrew(s, r, r');
    MarkedNew(s, r, r', g);
  }

  lemma {:induction false} MarkedGrew(s: Situation, r: Realm, r': Realm)
    requires Grew(r, r') && ValidRealm(Marked(s, r'))
    ensures Grew(Marked(s, r), Marked(s, r'))
  {
  }

  lemma {:induction false} MarkedNew(s: Situation, r: Realm, r': Realm, g: string)
    requires Growing(r, r', Spot(s.naming, g), s.naming.marks(g)) && g in s.irods && g !in s.mirror
    ensures var m, m' := Marked(s, r), Marked(s, r');
            forall id | id in m'.groups && id !in m.groups ::
              && m'.groups[id].segs <= Spot(s.naming, g) && m'.groups[id].members == {}
              && m'.groups[id].attributes ==
                 if m'.groups[id].segs == Spot(s.naming, g) then s.naming.marks(g) else map[]
  {
    var m, m' := Marked(s, r), Marked(s, r');
    forall id | id in m'.groups && id !in m.groups
      ensures m'.groups[id].segs <= Spot(s.naming, g) && m'.groups[id].members == {}
      ensures m'.groups[id].attributes ==
              if m'.groups[id].segs == Spot(s.naming, g) then s.naming.marks(g) else map[]
    {
      assert r'.groups[id].segs <= Spot(s.naming, g);
    }
  }

  /** A call on members or a deletion does the same to the realm with occupants marked. */
  lemma {:induction false} MarkedPerformed(s: Situation, call: Call, r: Realm, r': Realm)
    requires !call.CreateOrUpdateGroup?
    requires Enabled(call, r) && Performed(call, r, r')
    ensures Performed(call, Marked(s, r), Marked(s, r'))
  {
    var m, m' := Marked(s, r), Marked(s, r');
    SameForestMarked(s, r);
    match call
    case AddUserToGroup(user, group) =>
      forall uid, gid | Both(m, user, group, uid, gid) ensures gid in m.groups && m' == AddMember(m, gid, uid) {
        assert Both(r, user, group, uid, gid);
        MarkedMembers(s, r, gid, uid);
      }
    case RemoveUserFromGroup(user, group) =>
      forall uid, gid | Both(m, user, group, uid, gid) ensures gid in m.groups && m' == RemoveMember(m, gid, uid) {
        assert Both(r, user, group, uid, gid);
        MarkedMembers(s, r, gid, uid);
      }
      forall uid, gid | Both(r, user, group, uid, gid) ensures Both(m, user, group, uid, gid) {
      }
    case DeleteGroup(group) =>
      forall gid | IsGroup(m, group, gid) ensures gid in m.groups && m' == DeleteSubtree(m, gid) {
        assert IsGroup(r, group, gid);
        MarkedDelete(s, r, gid);
      }
  }

  lemma {:induction false} MarkedEnabled(s: Situation, call: Call, r: Realm)
    ensures Enabled(call, Marked(s, r)) <==> Enabled(call, r)
  {
    SameForestMarked(s, r);
    if call.AddUserToGroup? {
      forall uid, gid ensures Both(Marked(s, r), call.user, call.group, uid, gid) <==>
                              Both(r, call.user, call.group, uid, gid)
      {
      }
    }
  }

  lemma {:induction false} MarkedPermits(s: Situation, call: Call, r: Realm, ok: bool, r': Realm)
    requires !call.CreateOrUpdateGroup? && Permits(call, r, ok, r')
    ensures Permits(call, Marked(s, r), ok, Marked(s, r'))
  {
    MarkedEnabled(s, call, r);
    if Exact(call) && Enabled(call, r) && Performed(call, r, r') {
      MarkedPerformed(s, call, r, r');
    }
  }

  lemma {:induction false} CreateFollows(s: Situation, g: string, r: Realm, ok: bool, r': Realm)
    requires WellRead(s) && InDiff(s.irods, s.mirror, Missing(g)) && Permits(CallOf(s, Missing(g)), r, ok, r')
    ensures Permits(CallOf(s, Missing(g)), Marked(s, r), ok, Marked(s, r'))
    ensures Has(r, Spot(s.naming, g)) ==> Marked(s, r') == Marked(s, r)
  {
    CallIsExact(s, Missing(g));
    SpotPath(s, g);
    SameForestMarked(s, r);
    SameForestMarked(s, r');
    if id :| At(r, Spot(s.naming, g), id) {
      CreateFound(s, g, r, ok, r', id);
    } else if r' != r {
      MarkedGrowth(s, r, r', g);
    }
  }

  lemma {:induction false} CreateFound(s: Situation, g: string, r: Realm, ok: bool, r': Realm, id: string)
    requires WellRead(s) && InDiff(s.irods, s.mirror, Missing(g)) && Permits(CallOf(s, Missing(g)), r, ok, r')
    requires Segments(PathOf(Spot(s.naming, g))) == Spot(s.naming, g) && Exact(CallOf(s, Missing(g)))
    requires At(r, Spot(s.naming, g), id)
    ensures Permits(CallOf(s, Missing(g)), Marked(s, r), ok, Marked(s, r'))
    ensures Marked(s, r') == Marked(s, r)
  {
    var call, m := CallOf(s, Missing(g)), Marked(s, r);
    assert At(r, Segments(call.path), id);
    MarkedUpdate(s, r, g, id);
    assert r' == r || r' == SetAttributes(r, id, s.naming.marks(g));
    SameForestMarked(s, r);
    assert At(m, Segments(call.path), id);
    forall other | At(m, Segments(call.path), other) ensures m == SetAttributes(m, other, call.attributes) {
      assert At(r, Spot(s.naming, g), other);
      MarkedUpdate(s, r, g, other);
    }
  }

  // ----- one step of a run -----

  /** Where the run has got: with occupants marked, the realm is what removing some differences leads to. */
  ghost predicate Follows(s: Situation, done: set<Item>, r: Realm) {
    NearlyTidy(s) && Reached(MarkedSituation(s), done, Marked(s, r))
  }

  lemma {:induction false} LiveStays(s: Situation, done: set<Item>, m: Realm, id: string)
    requires StaleHoldNoLive(s) && Removable(s, done) && OldGroups(s, done, m)
    requires id in s.start.groups && NameIn(s.naming, s.start, id).Some?
    requires NameIn(s.naming, s.start, id).value in s.irods
    ensures OldGroup(s, done, m, id) && !Gone(s, done, id)
  {
    LiveNotGone(s, done, id);
  }

  lemma {:induction false} OccupantMarked(s: Situation, g: string, id: string)
    requires WellRead(s) && Occupies(s, g, id)
    ensures id in MarkedSituation(s).start.groups && MarkedSituation(s).start.groups[id].segs == Spot(s.naming, g)
    ensures NameIn(s.naming, MarkedSituation(s).start, id) == Some(g)
  {
    MarkedName(s, id);
  }

  lemma {:induction false} StaysAt(s: Situation, done: set<Item>, m: Realm, id: string)
    requires id in s.start.groups && OldGroup(s, done, m, id) && !Gone(s, done, id)
    ensures At(m, s.start.groups[id].segs, id)
  {
  }

  /** An occupant stays in its spot. */
  lemma {:induction false} OccupantStays(s: Situation, done: set<Item>, r: Realm, g: string, id: string)
    requires Follows(s, done, r) && Occupies(s, g, id)
    ensures At(r, Spot(s.naming, g), id)
    ensures id in MarkedSituation(s).start.groups && NameIn(s.naming, MarkedSituation(s).start, id) == Some(g)
    ensures OldGroup(MarkedSituation(s), done, Marked(s, r), id) && !Gone(MarkedSituation(s), done, id)
  {
    OccupantMarked(s, g, id);
    MarkedHoldsNoLive(s);
    LiveStays(MarkedSituation(s), done, Marked(s, r), id);
    StaysAt(MarkedSituation(s), done, Marked(s, r), id);
    SameForestMarked(s, r);
  }

  /** The occupant is who the path of the spot names. */
  lemma {:induction false} SpotNames(s: Situation, done: set<Item>, r: Realm, g: string, id: string, gid: string)
    requires Follows(s, done, r) && Occupies(s, g, id)
    ensures IsGroup(Marked(s, r), PathOf(Spot(s.naming, g)), gid) <==> gid == id
  {
    OccupantStays(s, done, r, g, id);
    SpotPath(s, g);
    SameForestMarked(s, r);
    if At(Marked(s, r), Spot(s.naming, g), gid) {
      OneAt(Marked(s, r), Spot(s.naming, g), id, gid);
    }
  }

  lemma {:induction false} IdNames(s: Situation, done: set<Item>, r: Realm, g: string, id: string, gid: string)
    requires Follows(s, done, r) && Occupies(s, g, id)
    ensures g in MarkedMirror(s) && MarkedMirror(s)[g].id == id
    ensures IsGroup(Marked(s, r), id, gid) <==> gid == id
  {
    OneOccupant(s, g, id);
    OccupantStays(s, done, r, g, id);
    assert ValidRecord(s.start, id);
  }

  lemma {:induction false} SameTarget(s: Situation, done: set<Item>, r: Realm, x: Item, uid: string, gid: string)
    requires Follows(s, done, r) && x.Absent? && IsOccupied(s, x.group) && Kept(s, x)
    ensures var m := Marked(s, r);
            Both(m, CallOf(s, x).user, CallOf(s, x).group, uid, gid) <==>
            Both(m, CallOf(MarkedSituation(s), x).user, CallOf(MarkedSituation(s), x).group, uid, gid)
  {
    var id := Occupant(s, x.group);
    SpotNames(s, done, r, x.group, id, gid);
    IdNames(s, done, r, x.group, id, gid);
  }

  lemma {:induction false} SameReferencesPermit(a: Call, b: Call, r: Realm, ok: bool, r': Realm)
    requires a.AddUserToGroup? && b.AddUserToGroup? && Exact(a) && Exact(b) && Permits(a, r, ok, r')
    requires forall uid, gid :: Both(r, a.user, a.group, uid, gid) <==> Both(r, b.user, b.group, uid, gid)
    ensures Permits(b, r, ok, r')
  {
    if Enabled(a, r) {
      var uid, gid :| Both(r, a.user, a.group, uid, gid);
      assert Both(r, b.user, b.group, uid, gid);
    }
    if uid, gid :| Both(r, b.user, b.group, uid, gid) {
      assert Both(r, a.user, a.group, uid, gid);
    }
  }

  lemma {:induction false} AddToOccupant(s: Situation, done: set<Item>, r: Realm, x: Item, ok: bool, r': Realm)
    requires Follows(s, done, r) && x.Absent? && IsOccupied(s, x.group) && Kept(s, x)
    requires Permits(CallOf(s, x), r, ok, r')
    ensures Permits(CallOf(MarkedSituation(s), x), Marked(s, r), ok, Marked(s, r'))
  {
    var s', m := MarkedSituation(s), Marked(s, r);
    MarkedPermits(s, CallOf(s, x), r, ok, r');
    forall uid, gid
      ensures Both(m, CallOf(s, x).user, CallOf(s, x).group, uid, gid) <==>
              Both(m, CallOf(s', x).user, CallOf(s', x).group, uid, gid)
    {
      SameTarget(s, done, r, x, uid, gid);
    }
    MarkedIsTidy(s);
    CallIsExact(s, x);
    CallIsExact(s', x);
    SameReferencesPermit(CallOf(s, x), CallOf(s', x), m, ok, Marked(s, r'));
  }

  /** Whom an occupant has as a member and iRODS wants it keeps. */
  lemma {:induction false} OccupantKeeps(s: Situation, done: set<Item>, r: Realm, g: string, id: string, uid: string)
    requires Follows(s, done, r) && Occupies(s, g, id) && uid in s.start.groups[id].members
    requires uid in s.start.users && s.start.users[uid] in s.irods[g].members
    ensures id in r.groups && uid in r.groups[id].members
  {
    OccupantStays(s, done, r, g, id);
    var x := Extra(g, s.start.users[uid]);
    OneOccupant(s, g, id);
    assert !InDiff(s.irods, MarkedMirror(s), x);
    assert x !in done;
  }

  lemma {:induction false} AddAgainToOccupant(s: Situation, done: set<Item>, r: Realm, x: Item, ok: bool, r': Realm)
    requires Follows(s, done, r) && x.Absent? && IsOccupied(s, x.group) && InDiff(s.irods, s.mirror, x) && !Kept(s, x)
    requires Permits(CallOf(s, x), r, ok, r')
    ensures r' == r
  {
    var g := x.group;
    var id := Occupant(s, g);
    OccupantDiff(s, g, id, x);
    CallIsExact(s, x);
    if r' != r {
      var uid, gid :| Both(r, CallOf(s, x).user, CallOf(s, x).group, uid, gid);
      OccupantIs(s, done, r, x, uid, gid, id);
      OccupantKeeps(s, done, r, g, id, uid);
      AddsNothing(r, gid, uid);
    }
  }

  lemma {:induction false} AddsNothing(r: Realm, gid: string, uid: string)
    requires gid in r.groups && uid in r.groups[gid].members
    ensures AddMember(r, gid, uid) == r
  {
    assert r.groups[gid].members + {uid} == r.groups[gid].members;
    SameRecord(r, gid);
  }

  lemma {:induction false} OccupantIs(
    s: Situation, done: set<Item>, r: Realm, x: Item, uid: string, gid: string, id: string)
    requires Follows(s, done, r) && x.Absent? && InDiff(s.irods, s.mirror, x) && Occupies(s, x.group, id)
    requires x.user in NamesOf(s.start, id) && Both(r, CallOf(s, x).user, CallOf(s, x).group, uid, gid)
    ensures gid == id && uid in s.start.users && s.start.users[uid] == x.user && uid in s.start.groups[id].members
  {
    NamesUser(s, r, x, x.user, uid);
    SpotPath(s, x.group);
    OccupantStays(s, done, r, x.group, id);
    SameForestMarked(s, r);
    OneAt(Marked(s, r), Spot(s.naming, x.group), id, gid);
    NamedMember(s.start, id, x.user, uid);
  }

  lemma {:induction false} OneAt(r: Realm, p: seq<string>, a: string, b: string)
    requires UniquePaths(r) && At(r, p, a) && At(r, p, b)
    ensures a == b
  {
  }

  lemma {:induction false} NamedMember(r: Realm, id: string, u: string, uid: string)
    requires ValidUsers(r) && id in r.groups && u in NamesOf(r, id) && uid in r.users && r.users[uid] == u
    ensures uid in r.groups[id].members
  {
    var other :| other in r.groups[id].members && other in r.users && r.users[other] == u;
    assert other == uid;
  }

  lemma {:induction false} SameCall(s: Situation, x: Item)
    requires !IsOccupied(s, x.group)
    ensures CallOf(MarkedSituation(s), x) == CallOf(s, x)
  {
    OtherDiff(s, x);
  }

  /** A step of the run is the same step for the realm with occupants marked, or none. */
  lemma {:induction false} StepFollows(s: Situation, done: set<Item>, r: Realm, x: Item, ok: bool, r': Realm)
    requires Follows(s, done, r) && InDiff(s.irods, s.mirror, x) && Permits(CallOf(s, x), r, ok, r')
    ensures Kept(s, x) ==> Permits(CallOf(MarkedSituation(s), x), Marked(s, r), ok, Marked(s, r'))
    ensures !Kept(s, x) ==> Marked(s, r') == Marked(s, r)
  {
    if !IsOccupied(s, x.group) {
      OtherDiff(s, x);
      SameCall(s, x);
      if x.Missing? {
        CreateFollows(s, x.group, r, ok, r');
      } else {
        MarkedPermits(s, CallOf(s, x), r, ok, r');
      }
    } else {
      var id := Occupant(s, x.group);
      OccupantDiff(s, x.group, id, x);
      if x.Missing? {
        OccupantStays(s, done, r, x.group, id);
        CreateFollows(s, x.group, r, ok, r');
      } else if Kept(s, x) {
        AddToOccupant(s, done, r, x, ok, r');
      } else {
        AddAgainToOccupant(s, done, r, x, ok, r');
      }
    }
  }

  // ----- runs -----

  lemma {:induction false} EffectKept(s: Situation, x: Item, y: Item)
    requires Kept(s, x) && y in Effect(MarkedSituation(s), x)
    ensures Kept(s, y)
  {
    if x.Stale? {
      StaleUnmarked(s, y.group);
    }
  }

  /** The set of differences that a run has removed, whatever was left out or failed: all of them are differences either
      way, and all the applied ones that are differences either way are among them. */
  lemma {:induction false} RunFollows(s: Situation, xs: seq<Item>, run: seq<Event>) returns (done: set<Item>)
    requires NearlyTidy(s) && (forall x | x in xs :: InDiff(s.irods, s.mirror, x))
    requires |run| <= |xs| && ItemRun(s, xs, s.start, run)
    ensures Follows(s, done, StateAfter(s.start, run)) && forall x | x in done :: Kept(s, x)
    ensures forall x | x in AppliedItems(xs, run) && Kept(s, x) :: x in done
  {
    if run == [] {
      done := {};
      MarkedValid(s, s.start);
      ReachedAtStart(MarkedSituation(s));
    } else {
      var n := |run| - 1;
      var before := RunFollows(s, xs, run[..n]);
      assert xs[n] in xs;
      done := EventFollows(s, before, StateAfter(s.start, run[..n]), xs[n], run[n]);
    }
  }

  lemma {:induction false} EventFollows(s: Situation, before: set<Item>, r: Realm, x: Item, e: Event)
    returns (done: set<Item>)
    requires Follows(s, before, r) && (forall y | y in before :: Kept(s, y))
    requires InDiff(s.irods, s.mirror, x) && Happens(s, x, r, e)
    ensures Follows(s, done, if e.Ran? then e.after else r) && (forall y | y in done :: Kept(s, y))
    ensures before <= done && (e.Ran? && e.ok && Kept(s, x) ==> x in done)
  {
    done := before;
    if e.Ran? {
      StepFollows(s, before, r, x, e.ok, e.after);
      if Kept(s, x) {
        done := KeptEvent(s, before, r, x, e);
      }
    }
  }

  lemma {:induction false} KeptEvent(s: Situation, before: set<Item>, r: Realm, x: Item, e: Event)
    returns (done: set<Item>)
    requires Follows(s, before, r) && Kept(s, x) && e.Ran? && (forall y | y in before :: Kept(s, y))
    requires Permits(CallOf(MarkedSituation(s), x), Marked(s, r), e.ok, Marked(s, e.after))
    ensures Follows(s, done, e.after) && (forall y | y in done :: Kept(s, y))
    ensures before <= done && (e.ok ==> x in done)
  {
    var s' := MarkedSituation(s);
    MarkedIsTidy(s);
    done := EventStep(s', before, Marked(s, r), x, Ran(e.ok, Marked(s, e.after)));
    OwnEffect(s', x);
    forall y | y in done ensures Kept(s, y) {
      if y !in before {
        EffectKept(s, x, y);
      }
    }
  }

  /** A run that applied everything has removed exactly the differences that are differences either way. */
  lemma {:induction false} FullRunFollows(s: Situation, xs: seq<Item>, run: seq<Event>) returns (done: set<Item>)
    requires NearlyTidy(s) && forall x :: x in xs <==> InDiff(s.irods, s.mirror, x)
    requires |run| == |xs| && ItemRun(s, xs, s.start, run) && AllApplied(run)
    ensures Follows(s, done, StateAfter(s.start, run)) && forall x :: x in done <==> Kept(s, x)
  {
    done := RunFollows(s, xs, run);
    AllAreApplied(xs, run);
    assert xs[..|run|] == xs;
  }

  // ----- what is left -----

  /** All members of an occupant are members of the iRODS group whose spot it has. */
  ghost predicate OccupantsFit(s: Situation) {
    forall g, id, uid | Occupies(s, g, id) && uid in s.start.groups[id].members && uid in s.start.users ::
      s.start.users[uid] in s.irods[g].members
  }

  ghost predicate Left(s: Situation, x: Item) {
    InDiff(s.irods, MarkedMirror(s), x) && !InDiff(s.irods, s.mirror, x)
  }

  lemma {:induction false} LeftIsMisfit(s: Situation, x: Item)
    requires ValidRealm(s.start) && Left(s, x)
    ensures !OccupantsFit(s)
  {
    if !IsOccupied(s, x.group) {
      OtherDiff(s, x);
    } else {
      var id := Occupant(s, x.group);
      OccupantDiff(s, x.group, id, x);
      var uid :| uid in s.start.groups[id].members && uid in s.start.users && s.start.users[uid] == x.user;
      assert Occupies(s, x.group, id);
    }
  }

  lemma {:induction false} MisfitIsLeft(s: Situation) returns (x: Item)
    requires ValidRealm(s.start) && !OccupantsFit(s)
    ensures Left(s, x)
  {
    var g, id, uid :| Occupies(s, g, id) && uid in s.start.groups[id].members && uid in s.start.users &&
                      s.start.users[uid] !in s.irods[g].members;
    x := Extra(g, s.start.users[uid]);
    assert x.user in NamesOf(s.start, id);
    OccupantDiff(s, g, id, x);
  }

  lemma {:induction false} LeftAfterRun(
    s: Situation, xs: seq<Item>, run: seq<Event>, after: MirrorSnapshot, x: Item)
    requires NearlyTidy(s) && forall x :: x in xs <==> InDiff(s.irods, s.mirror, x)
    requires |run| == |xs| && ItemRun(s, xs, s.start, run) && AllApplied(run)
    requires var r := StateAfter(s.start, run); Marked(s, r) == r && IsSnapshot(s.naming, r, after)
    ensures InDiff(s.irods, after, x) <==> Left(s, x)
  {
    var done := FullRunFollows(s, xs, run);
    MarkedIsTidy(s);
    RemainingDiff(MarkedSituation(s), done, StateAfter(s.start, run), after, x);
  }

  /** A fully applied plan brings the mirror in line if and only if no occupant has a member too many. */
  lemma {:induction false} ConvergedIffFit(s: Situation, xs: seq<Item>, run: seq<Event>, after: MirrorSnapshot)
    requires NearlyTidy(s) && forall x :: x in xs <==> InDiff(s.irods, s.mirror, x)
    requires |run| == |xs| && ItemRun(s, xs, s.start, run) && AllApplied(run)
    requires var r := StateAfter(s.start, run); Marked(s, r) == r && IsSnapshot(s.naming, r, after)
    ensures Converged(s.irods, after) <==> OccupantsFit(s)
  {
    NoDiffIsConverged(s.irods, after);
    DiffMembers(s.irods, after);
    if OccupantsFit(s) {
      if x :| x in Diff(s.irods, after) {
        LeftAfterRun(s, xs, run, after, x);
        LeftIsMisfit(s, x);
      }
    } else {
      var x := MisfitIsLeft(s);
      LeftAfterRun(s, xs, run, after, x);
    }
  }

  /** Of the groups that mirror nothing, a fully applied plan changes the occupants only: it marks them and adds the
      members that iRODS has. */
  lemma {:induction false} OnlyOccupantsChange(s: Situation, xs: seq<Item>, run: seq<Event>, id: string)
    requires NearlyTidy(s) && forall x :: x in xs <==> InDiff(s.irods, s.mirror, x)
    requires |run| == |xs| && ItemRun(s, xs, s.start, run) && AllApplied(run)
    requires Marked(s, StateAfter(s.start, run)) == StateAfter(s.start, run)
    requires id in s.start.groups && NameIn(s.naming, s.start, id).None? && id in StateAfter(s.start, run).groups
    ensures var was, now := s.start.groups[id], StateAfter(s.start, run).groups[id];
            if MissingSpot(s, was.segs) then TakenOver(s, was, now) else now == was
  {
    var r := StateAfter(s.start, run);
    var done := FullRunFollows(s, xs, run);
    var was := s.start.groups[id];
    MarkedName(s, id);
    if MissingSpot(s, was.segs) {
      OccupantAfter(s, done, r, was.segs[1], id);
    } else {
      MarkedIsTidy(s);
      UnmanagedKept(MarkedSituation(s), done, r, id);
    }
  }

  /** The group keeps its place and members, is marked, and has the members that iRODS has as well. */
  ghost predicate TakenOver(s: Situation, was: Record, now: Record)
    requires MissingSpot(s, was.segs)
  {
    && now.segs == was.segs && now.attributes == s.naming.marks(was.segs[1])
    && forall uid | uid in s.start.users ::
         uid in now.members <==> uid in was.members || s.start.users[uid] in s.irods[was.segs[1]].members
  }

  lemma {:induction false} OccupantRecord(s: Situation, done: set<Item>, r: Realm, g: string, id: string)
    requires Follows(s, done, r) && Occupies(s, g, id)
    ensures id in r.groups && r.groups[id].segs == s.start.groups[id].segs
    ensures Marked(s, r) == r ==> r.groups[id].attributes == s.naming.marks(g)
    ensures HasWanted(done, Some(g), s.start.users, s.start.groups[id].members, r.groups[id].members)
  {
    OccupantStays(s, done, r, g, id);
    assert Marking(s, r.groups[id]) == Marked(s, r).groups[id];
  }

  lemma {:induction false} OccupantWants(s: Situation, done: set<Item>, g: string, id: string, uid: string)
    requires ValidUsers(s.start) && Occupies(s, g, id) && uid in s.start.users && ValidRealm(s.start)
    requires forall x :: x in done <==> Kept(s, x)
    ensures Wanted(done, Some(g), s.start.users[uid], uid in s.start.groups[id].members) <==>
            uid in s.start.groups[id].members || s.start.users[uid] in s.irods[g].members
  {
    var u := s.start.users[uid];
    OccupantDiff(s, g, id, Absent(g, u));
    OccupantDiff(s, g, id, Extra(g, u));
    if u in NamesOf(s.start, id) {
      NamedMember(s.start, id, u, uid);
    } else {
      assert uid !in s.start.groups[id].members;
    }
  }

  lemma {:induction false} OccupantAfter(s: Situation, done: set<Item>, r: Realm, g: string, id: string)
    requires Follows(s, done, r) && Occupies(s, g, id) && Marked(s, r) == r && forall x :: x in done <==> Kept(s, x)
    requires MissingSpot(s, s.start.groups[id].segs) && s.start.groups[id].segs[1] == g
    ensures id in r.groups && TakenOver(s, s.start.groups[id], r.groups[id])
  {
    OccupantRecord(s, done, r, g, id);
    forall uid | uid in s.start.users
      ensures Wanted(done, Some(g), s.start.users[uid], uid in s.start.groups[id].members) <==>
              uid in s.start.groups[id].members || s.start.users[uid] in s.irods[g].members
    {
      OccupantWants(s, done, g, id, uid);
    }
  }
}
