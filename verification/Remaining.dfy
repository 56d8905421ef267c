/** What is left to do after some of the differences of a plan have been removed: exactly the others. */
module Remaining {
  import opened Wrappers
  import opened Paths
  import opened Realms
  import opened Mirrors
  import opened Reach

  /** The names of groups: old ones keep theirs, new ones mirror the group they were created for. */
  lemma {:induction false} NameAfter(s: Situation, done: set<Item>, r: Realm, id: string)
    requires NamingWorks(s.naming, s.irods) && OldGroups(s, done, r) && NewGroups(s, done, r) && Removable(s, done)
    requires id in r.groups && r.retired !! r.groups.Keys
    ensures id in s.start.groups ==> NameIn(s.naming, r, id) == NameIn(s.naming, s.start, id) && !Gone(s, done, id)
    ensures id !in s.start.groups ==>
              var segs := r.groups[id].segs;
              if segs == [s.naming.root] then NameIn(s.naming, r, id) == None
              else |segs| == 2 && segs == Spot(s.naming, segs[1]) && NameIn(s.naming, r, id) == Some(segs[1]) &&
                   Missing(segs[1]) in done && segs[1] in s.irods && segs[1] !in s.mirror
  {
    if id in s.start.groups {
      assert OldGroup(s, done, r, id);
    } else {
      assert NewRecord(s, done, r.groups[id]);
      var segs := r.groups[id].segs;
      if segs != [s.naming.root] {
        assert InDiff(s.irods, s.mirror, Missing(segs[1]));
        assert segs == Spot(s.naming, segs[1]);
      }
    }
  }

  lemma {:induction false} StillOneMirrorEach(s: Situation, done: set<Item>, r: Realm)
    requires Tidy(s) && Reached(s, done, r)
    ensures OneMirrorEach(s.naming, r)
  {
    forall a, b | a in r.groups && b in r.groups && NameIn(s.naming, r, a).Some?
                  && NameIn(s.naming, r, a) == NameIn(s.naming, r, b)
      ensures a == b
    {
      NameAfter(s, done, r, a);
      NameAfter(s, done, r, b);
    }
  }

  /** The group of a name after the step: the old one, or the one in its spot. */
  ghost predicate NowMirrors(s: Situation, r: Realm, g: string, id: string) {
    id in r.groups && NameIn(s.naming, r, id) == Some(g)
  }

  lemma {:induction false} WhoMirrors(s: Situation, done: set<Item>, r: Realm, g: string)
    requires Tidy(s) && Reached(s, done, r)
    ensures (exists id :: NowMirrors(s, r, g, id)) <==> (g in s.mirror && Stale(g) !in done) || Missing(g) in done
    ensures g in s.mirror && Stale(g) !in done ==> NowMirrors(s, r, g, s.mirror[g].id)
  {
    if g in s.mirror {
      OldMirror(s, done, r, g);
    } else if Missing(g) in done {
      var id :| At(r, Spot(s.naming, g), id);
      NewMirror(s, done, r, g, id);
    }
    if id :| NowMirrors(s, r, g, id) {
      NameAfter(s, done, r, id);
    }
  }

  lemma {:induction false} OldMirror(s: Situation, done: set<Item>, r: Realm, g: string)
    requires Tidy(s) && Reached(s, done, r) && g in s.mirror
    ensures Stale(g) !in done <==> NowMirrors(s, r, g, s.mirror[g].id)
  {
    assert OldGroup(s, done, r, s.mirror[g].id);
    if Stale(g) in done {
      assert Holds(s, g, s.mirror[g].id);
    } else if g in s.irods {
      LiveNotGone(s, done, s.mirror[g].id);
    } else {
      StaleNotGone(s, done, g);
    }
  }

  lemma {:induction false} NewMirror(s: Situation, done: set<Item>, r: Realm, g: string, id: string)
    requires Tidy(s) && Reached(s, done, r) && g !in s.mirror && Missing(g) in done && At(r, Spot(s.naming, g), id)
    ensures NowMirrors(s, r, g, id)
  {
    ConcernedGroup(s, done, r, g, id);
    NameAfter(s, done, r, id);
  }

  /** Who belongs to a mirror now. */
  lemma {:induction false} NowMember(s: Situation, done: set<Item>, r: Realm, g: string, id: string, uid: string)
    requires Tidy(s) && Reached(s, done, r) && NowMirrors(s, r, g, id) && uid in s.start.users
    ensures var u := s.start.users[uid];
            uid in r.groups[id].members <==>
            Wanted(done, Some(g), u, g in s.mirror && u in s.mirror[g].members)
  {
    NameAfter(s, done, r, id);
    if id in s.start.groups {
      assert OldGroup(s, done, r, id);
      assert Mirrored(s.start, id, s.mirror[g]);
    } else {
      assert NewRecord(s, done, r.groups[id]);
    }
  }

  lemma {:induction false} NowListed(
    s: Situation, done: set<Item>, r: Realm, mirror: MirrorSnapshot, g: string, u: string)
    requires Tidy(s) && Reached(s, done, r) && IsSnapshot(s.naming, r, mirror) && g in mirror
    ensures u in mirror[g].members <==> Wanted(done, Some(g), u, g in s.mirror && u in s.mirror[g].members)
  {
    var id := mirror[g].id;
    assert Mirrored(r, id, mirror[g]);
    if u in mirror[g].members {
      NowMember(s, done, r, g, id, mirror[g].members[u]);
    } else if Wanted(done, Some(g), u, g in s.mirror && u in s.mirror[g].members) {
      var uid := KnownUser(s, done, g, u);
      NowMember(s, done, r, g, id, uid);
    }
  }

  lemma {:induction false} KnownUser(s: Situation, done: set<Item>, g: string, u: string) returns (uid: string)
    requires Tidy(s) && Removable(s, done) && Wanted(done, Some(g), u, g in s.mirror && u in s.mirror[g].members)
    ensures uid in s.start.users && s.start.users[uid] == u
  {
    if Absent(g, u) in done {
      uid :| uid in s.start.users && s.start.users[uid] == u;
    } else {
      assert Mirrored(s.start, s.mirror[g].id, s.mirror[g]);
      uid := s.mirror[g].members[u];
    }
  }

  /** The names in the new snapshot. */
  lemma {:induction false} NowNamed(s: Situation, done: set<Item>, r: Realm, mirror: MirrorSnapshot, g: string)
    requires Tidy(s) && Reached(s, done, r) && IsSnapshot(s.naming, r, mirror)
    ensures g in mirror <==> (g in s.mirror && Stale(g) !in done) || Missing(g) in done
    ensures g in mirror && g in s.mirror ==> mirror[g].id == s.mirror[g].id
  {
    WhoMirrors(s, done, r, g);
    StillOneMirrorEach(s, done, r);
    assert forall id :: NowMirrors(s, r, g, id) ==> g in mirror;
    if g in mirror {
      assert NowMirrors(s, r, g, mirror[g].id);
      NameAfter(s, done, r, mirror[g].id);
    }
  }

  /** Where the mirrors in the new snapshot are. */
  lemma {:induction false} NowAt(s: Situation, done: set<Item>, r: Realm, mirror: MirrorSnapshot, g: string)
    requires Tidy(s) && Reached(s, done, r) && IsSnapshot(s.naming, r, mirror) && g in mirror
    ensures mirror[g].path == if g in s.mirror then s.mirror[g].path else PathOf(Spot(s.naming, g))
  {
    var id := mirror[g].id;
    NowNamed(s, done, r, mirror, g);
    assert Mirrored(r, id, mirror[g]);
    if g in s.mirror {
      assert Mirrored(s.start, id, s.mirror[g]);
      assert OldGroup(s, done, r, id);
    } else {
      NameAfter(s, done, r, id);
    }
  }

  /** Mirrors that stay keep their place, new ones are in their spots. */
  predicate PlacesFollow(s: Situation, mirror: MirrorSnapshot, g: string) {
    && (g in mirror ==> mirror[g].path == if g in s.mirror then s.mirror[g].path else PathOf(Spot(s.naming, g)))
    && (g in s.mirror && g in s.irods ==> g in mirror) && (g in mirror && g !in s.mirror ==> g in s.irods)
  }

  lemma {:induction false} NowPlaced(s: Situation, done: set<Item>, r: Realm, mirror: MirrorSnapshot, g: string)
    requires Tidy(s) && Reached(s, done, r) && IsSnapshot(s.naming, r, mirror)
    ensures PlacesFollow(s, mirror, g)
  {
    NowNamed(s, done, r, mirror, g);
    DoneMeans(s, done, g);
    if g in mirror {
      NowAt(s, done, r, mirror, g);
    }
  }

  /** Planning again finds exactly the differences that have not been removed. */
  lemma {:induction false} RemainingDiff(
    s: Situation, done: set<Item>, r: Realm, mirror: MirrorSnapshot, x: Item)
    requires Tidy(s) && Reached(s, done, r) && IsSnapshot(s.naming, r, mirror)
    ensures InDiff(s.irods, mirror, x) <==> InDiff(s.irods, s.mirror, x) && x !in done
  {
    var g := x.group;
    NowNamed(s, done, r, mirror, g);
    DoneMeans(s, done, g);
    if (x.Absent? || x.Extra?) && g in mirror {
      NowListed(s, done, r, mirror, g, x.user);
      RemainingMember(s, done, mirror, x);
    } else {
      RemainingGroup(s, done, mirror, x);
    }
  }

  /** How the names and members of the new snapshot follow from the old one. */
  ghost predicate NamesFollow(s: Situation, done: set<Item>, mirror: MirrorSnapshot, g: string) {
    && (g in mirror <==> (g in s.mirror && Stale(g) !in done) || Missing(g) in done)
    && (Missing(g) in done ==> g in s.irods && g !in s.mirror)
    && (Stale(g) in done ==> g in s.mirror && g !in s.irods)
    && (forall u :: Absent(g, u) in done ==>
          InDiff(s.irods, s.mirror, Absent(g, u)) && (g !in s.mirror ==> Missing(g) in done))
    && (forall u :: Extra(g, u) in done ==> InDiff(s.irods, s.mirror, Extra(g, u)))
  }

  lemma {:induction false} RemainingMember(s: Situation, done: set<Item>, mirror: MirrorSnapshot, x: Item)
    requires NamesFollow(s, done, mirror, x.group) && (x.Absent? || x.Extra?) && x.group in mirror
    requires x.user in mirror[x.group].members <==>
               Wanted(done, Some(x.group), x.user, x.group in s.mirror && x.user in s.mirror[x.group].members)
    ensures InDiff(s.irods, mirror, x) <==> InDiff(s.irods, s.mirror, x) && x !in done
  {
  }

  lemma {:induction false} RemainingGroup(s: Situation, done: set<Item>, mirror: MirrorSnapshot, x: Item)
    requires NamesFollow(s, done, mirror, x.group) && !((x.Absent? || x.Extra?) && x.group in mirror)
    ensures InDiff(s.irods, mirror, x) <==> InDiff(s.irods, s.mirror, x) && x !in done
  {
  }

  /** What the differences removed so far say about a group. */
  lemma {:induction false} DoneMeans(s: Situation, done: set<Item>, g: string)
    requires Removable(s, done)
    ensures Missing(g) in done ==> g in s.irods && g !in s.mirror
    ensures Stale(g) in done ==> g in s.mirror && g !in s.irods
    ensures forall u :: Absent(g, u) in done ==>
              InDiff(s.irods, s.mirror, Absent(g, u)) && (g !in s.mirror ==> Missing(g) in done)
    ensures forall u :: Extra(g, u) in done ==> InDiff(s.irods, s.mirror, Extra(g, u))
  {
  }

  /** The situation after the step is tidy again. */
  lemma {:induction false} StillTidy(s: Situation, done: set<Item>, r: Realm, mirror: MirrorSnapshot)
    requires Tidy(s) && Reached(s, done, r) && IsSnapshot(s.naming, r, mirror)
    ensures Tidy(Situation(s.naming, s.irods, r, mirror))
  {
    StillOneMirrorEach(s, done, r);
    StillFree(s, done, r, mirror);
    StillHoldNoLive(s, done, r, mirror);
    StillNoSpotBelow(s, done, r, mirror);
    SameUsersNamed(s.irods, s.start, r);
    AllTidy(s.naming, s.irods, r, mirror);
  }

  lemma {:induction false} AllTidy(n: Naming, irods: IrodsSnapshot, r: Realm, mirror: MirrorSnapshot)
    requires ValidRealm(r) && IsSnapshot(n, r, mirror) && OneMirrorEach(n, r)
    requires var s := Situation(n, irods, r, mirror); SpotsFree(s) && StaleHoldNoLive(s) && NoSpotBelowStale(s)
    requires NamingWorks(n, irods) && MembersNamed(irods, r)
    ensures Tidy(Situation(n, irods, r, mirror))
  {
  }

  lemma {:induction false} SameUsersNamed(irods: IrodsSnapshot, r: Realm, r': Realm)
    requires MembersNamed(irods, r) && r'.users == r.users
    ensures MembersNamed(irods, r')
  {
  }

  lemma {:induction false} StillFree(s: Situation, done: set<Item>, r: Realm, mirror: MirrorSnapshot)
    requires Tidy(s) && Reached(s, done, r) && IsSnapshot(s.naming, r, mirror)
    ensures SpotsFree(Situation(s.naming, s.irods, r, mirror))
    ensures forall g | g in s.irods && g !in mirror :: g !in s.mirror
  {
    forall g | g in s.irods && g !in mirror ensures !Has(r, Spot(s.naming, g)) && g !in s.mirror {
      NowNamed(s, done, r, mirror, g);
      DoneMeans(s, done, g);
      StillMissing(s, done, r, g);
    }
  }

  /** A mirror that is still stale was so at the start, and is where it was. */
  lemma {:induction false} StillStale(s: Situation, done: set<Item>, r: Realm, mirror: MirrorSnapshot, g: string)
    requires Tidy(s) && Reached(s, done, r) && IsSnapshot(s.naming, r, mirror) && g in mirror && g !in s.irods
    ensures IsStale(s, g) && mirror[g].id == s.mirror[g].id && mirror[g].id in s.start.groups
    ensures r.groups[mirror[g].id].segs == s.start.groups[mirror[g].id].segs
  {
    NowNamed(s, done, r, mirror, g);
    DoneMeans(s, done, g);
    assert OldGroup(s, done, r, s.mirror[g].id);
  }

  lemma {:induction false} StillHoldNoLive(s: Situation, done: set<Item>, r: Realm, mirror: MirrorSnapshot)
    requires Tidy(s) && Reached(s, done, r) && IsSnapshot(s.naming, r, mirror)
    ensures StaleHoldNoLive(Situation(s.naming, s.irods, r, mirror))
  {
    var after := Situation(s.naming, s.irods, r, mirror);
    forall g, id | IsStale(after, g) && Holds(after, g, id) && NameIn(s.naming, r, id).Some?
      ensures NameIn(s.naming, r, id).value !in s.irods
    {
      StillStale(s, done, r, mirror, g);
      if id in s.start.groups {
        NameAfter(s, done, r, id);
        assert OldGroup(s, done, r, id);
        assert Holds(s, g, id);
      } else {
        assert ValidRecord(s.start, s.mirror[g].id);
        StaleNotAboveNew(s, done, r, g, id);
      }
    }
  }

  lemma {:induction false} StillNoSpotBelow(s: Situation, done: set<Item>, r: Realm, mirror: MirrorSnapshot)
    requires Tidy(s) && Reached(s, done, r) && IsSnapshot(s.naming, r, mirror)
    requires forall g | g in s.irods && g !in mirror :: g !in s.mirror
    ensures NoSpotBelowStale(Situation(s.naming, s.irods, r, mirror))
  {
    var after := Situation(s.naming, s.irods, r, mirror);
    forall g, m | IsStale(after, g) && m in s.irods && m !in mirror
      ensures !(r.groups[mirror[g].id].segs <= Spot(s.naming, m))
    {
      StillStale(s, done, r, mirror, g);
    }
  }

}
