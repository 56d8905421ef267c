/** Comparing runs: other orders, running again, and two runs of the same operations. */
module Reruns {
  import opened Wrappers
  import opened Realms
  import opened Mirrors
  import opened Reach
  import opened Remaining
  import opened Readings
  import opened Runs

  // ----- order -----

  /** The same realm up to the ids of groups that were not there at the start. */
  ghost predicate SameUpToNewIds(start: Realm, a: Realm, b: Realm) {
    && a.users == b.users
    && (forall id | id in start.groups :: id in a.groups <==> id in b.groups)
    && (forall id | id in start.groups && id in a.groups && id in b.groups :: a.groups[id] == b.groups[id])
    && (forall id | id in a.groups && id !in start.groups ::
          exists twin :: twin in b.groups && twin !in start.groups && b.groups[twin] == a.groups[id])
    && (forall id | id in b.groups && id !in start.groups ::
          exists twin :: twin in a.groups && twin !in start.groups && a.groups[twin] == b.groups[id])
  }

  lemma {:induction false} OldGroupsAgree(s: Situation, done: set<Item>, a: Realm, b: Realm, id: string)
    requires Reached(s, done, a) && Reached(s, done, b) && id in s.start.groups
    ensures id in a.groups <==> id in b.groups
    ensures id in a.groups ==> a.groups[id] == b.groups[id]
  {
    assert OldGroup(s, done, a, id) && OldGroup(s, done, b, id);
    if !Gone(s, done, id) {
      assert ValidRecord(a, id) && ValidRecord(b, id);
      SameMembers(done, NameIn(s.naming, s.start, id), s.start.users, s.start.groups[id].members,
                  a.groups[id].members, b.groups[id].members);
    }
  }

  /** A group created in one run has a twin in any other that got as far. */
  lemma {:induction false} NewGroupsAgree(s: Situation, done: set<Item>, a: Realm, b: Realm, id: string)
    returns (twin: string)
    requires Tidy(s) && Reached(s, done, a) && Reached(s, done, b) && RootEarned(s, done, a)
    requires id in a.groups && id !in s.start.groups
    ensures twin in b.groups && twin !in s.start.groups && b.groups[twin] == a.groups[id]
  {
    assert NewRecord(s, done, a.groups[id]);
    assert ValidRecord(a, id);
    if a.groups[id].segs == [s.naming.root] {
      var g :| Missing(g) in done;
      twin := RootCreated(s, done, b, g);
    } else {
      twin := CreatedFor(s, done, b, a.groups[id].segs[1]);
      assert ValidRecord(b, twin);
      SameRecords(s, done, a.groups[id], b.groups[twin], a.groups[id].segs[1]);
    }
  }

  lemma {:induction false} SameRecords(s: Situation, done: set<Item>, a: Record, b: Record, g: string)
    requires NewRecord(s, done, a) && a.segs != [s.naming.root] && g == a.segs[1] && a.members <= s.start.users.Keys
    requires b.segs == Spot(s.naming, g) && b.attributes == s.naming.marks(g)
    requires HasWanted(done, Some(g), s.start.users, {}, b.members) && b.members <= s.start.users.Keys
    ensures a == b
  {
    assert a.segs == b.segs;
    SameMembers(done, Some(g), s.start.users, {}, a.members, b.members);
  }

  lemma {:induction false} CreatedFor(s: Situation, done: set<Item>, r: Realm, g: string) returns (id: string)
    requires Tidy(s) && Reached(s, done, r) && Missing(g) in done
    ensures id in r.groups && id !in s.start.groups && r.groups[id].segs == Spot(s.naming, g)
    ensures r.groups[id].attributes == s.naming.marks(g)
    ensures HasWanted(done, Some(g), s.start.users, {}, r.groups[id].members)
  {
    id :| At(r, Spot(s.naming, g), id);
    ConcernedGroup(s, done, r, g, id);
    assert NewRecord(s, done, r.groups[id]);
  }

  lemma {:induction false} RootCreated(s: Situation, done: set<Item>, r: Realm, g: string) returns (id: string)
    requires Tidy(s) && Reached(s, done, r) && Missing(g) in done && RootNeeded(s)
    ensures id in r.groups && id !in s.start.groups && r.groups[id] == Record([s.naming.root], map[], {})
  {
    AncestorsExist(r, Spot(s.naming, g), [s.naming.root]);
    id :| At(r, [s.naming.root], id);
    assert !At(s.start, [s.naming.root], id);
    assert id in s.start.groups ==> OldGroup(s, done, r, id);
    assert NewRecord(s, done, r.groups[id]);
  }

  /** Groups are new only when some mirror was created. A creation that got only part of the way would leave a root. */
  ghost predicate RootEarned(s: Situation, done: set<Item>, r: Realm) {
    (exists id :: id in r.groups && id !in s.start.groups) ==> exists g :: Missing(g) in done
  }

  lemma {:induction false} FullyEarned(s: Situation, r: Realm)
    requires Tidy(s) && Reached(s, Diff(s.irods, s.mirror), r)
    ensures RootEarned(s, Diff(s.irods, s.mirror), r)
  {
    DiffMembers(s.irods, s.mirror);
    if id :| id in r.groups && id !in s.start.groups {
      assert NewRecord(s, Diff(s.irods, s.mirror), r.groups[id]);
      if r.groups[id].segs == [s.naming.root] {
        var g :| g in s.irods && g !in s.mirror;
        assert InDiff(s.irods, s.mirror, Missing(g));
      }
    }
  }

  /** The order of the operations does not matter, up to the ids of new groups. */
  lemma {:induction false} OrderDoesNotMatter(
    s: Situation, xs: seq<Item>, run: seq<Event>, ys: seq<Item>, other: seq<Event>)
    requires Tidy(s) && (forall x :: x in xs <==> InDiff(s.irods, s.mirror, x))
    requires |run| == |xs| && ItemRun(s, xs, s.start, run) && AllApplied(run)
    requires (forall x :: x in ys <==> InDiff(s.irods, s.mirror, x))
    requires |other| == |ys| && ItemRun(s, ys, s.start, other) && AllApplied(other)
    ensures SameUpToNewIds(s.start, StateAfter(s.start, run), StateAfter(s.start, other))
  {
    FullRunReaches(s, xs, run);
    FullRunReaches(s, ys, other);
    FullyEarned(s, StateAfter(s.start, run));
    FullyEarned(s, StateAfter(s.start, other));
    ReachedAgree(s, Diff(s.irods, s.mirror), StateAfter(s.start, run), StateAfter(s.start, other));
  }

  /** Two realms that the removal of the same differences led to. */
  lemma {:induction false} ReachedAgree(s: Situation, done: set<Item>, a: Realm, b: Realm)
    requires Tidy(s) && Reached(s, done, a) && Reached(s, done, b) && RootEarned(s, done, a) && RootEarned(s, done, b)
    ensures SameUpToNewIds(s.start, a, b)
  {
    forall id | id in s.start.groups
      ensures (id in a.groups <==> id in b.groups) && (id in a.groups ==> a.groups[id] == b.groups[id])
    {
      OldGroupsAgree(s, done, a, b, id);
    }
    forall id | id in a.groups && id !in s.start.groups
      ensures exists twin :: twin in b.groups && twin !in s.start.groups && b.groups[twin] == a.groups[id]
    {
      var twin := NewGroupsAgree(s, done, a, b, id);
    }
    forall id | id in b.groups && id !in s.start.groups
      ensures exists twin :: twin in a.groups && twin !in s.start.groups && a.groups[twin] == b.groups[id]
    {
      var twin := NewGroupsAgree(s, done, b, a, id);
    }
  }

  // ----- repetition -----

  /** Running a plan again after it was fully applied changes nothing at any point. */
  lemma {:induction false} RepeatChangesNothing(s: Situation, r: Realm, xs: seq<Item>, run: seq<Event>)
    requires Tidy(s) && (forall x | x in xs :: InDiff(s.irods, s.mirror, x))
    requires Reached(s, Diff(s.irods, s.mirror), r) && |run| <= |xs| && ItemRun(s, xs, r, run)
    ensures StateAfter(r, run) == r
  {
    if run != [] {
      var n := |run| - 1;
      RepeatChangesNothing(s, r, xs, run[..n]);
      if run[n].Ran? {
        DiffMembers(s.irods, s.mirror);
        assert xs[n] in xs;
        ItemAgain(s, Diff(s.irods, s.mirror), r, xs[n], run[n].ok, run[n].after);
      }
    }
  }

  /** And again every operation counts as applied, when nothing fails for reasons of its own. */
  lemma {:induction false} RepeatSucceeds(s: Situation, r: Realm, xs: seq<Item>, run: seq<Event>)
    requires Tidy(s) && (forall x | x in xs :: InDiff(s.irods, s.mirror, x))
    requires Reached(s, Diff(s.irods, s.mirror), r) && |run| <= |xs| && ItemRun(s, xs, r, run)
    requires Faultless(s, xs, r, run) && forall i | 0 <= i < |run| :: run[i].Ran?
    ensures AllApplied(run)
  {
    DiffMembers(s.irods, s.mirror);
    RemovableMeansKnown(s, Diff(s.irods, s.mirror));
    forall i | 0 <= i < |xs| && xs[i].Absent? && xs[i].group !in s.mirror
      ensures Missing(xs[i].group) in Diff(s.irods, s.mirror)
    {
      assert xs[i] in xs;
      assert InDiff(s.irods, s.mirror, Missing(xs[i].group));
    }
    OrderedRunSucceeds(s, xs, Diff(s.irods, s.mirror), r, run);
  }

  // ----- what a realm tells about the run that led to it -----

  /** A realm is reached by removing one set of differences only. */
  lemma {:induction false} ReachedDetermines(s: Situation, a: set<Item>, b: set<Item>, r: Realm)
    requires Tidy(s) && Reached(s, a, r) && Reached(s, b, r)
    ensures a == b
  {
    var mirror := SnapshotExists(s.naming, r, "");
    forall x ensures x in a <==> x in b {
      RemainingDiff(s, a, r, mirror, x);
      RemainingDiff(s, b, r, mirror, x);
    }
  }

  lemma {:induction false} RunAt(s: Situation, xs: seq<Item>, before: Realm, run: seq<Event>, i: nat)
    requires i < |run| <= |xs| && ItemRun(s, xs, before, run)
    ensures ItemRun(s, xs, before, run[..i]) && Happens(s, xs[i], StateAfter(before, run[..i]), run[i])
  {
    var n := |run| - 1;
    if i < n {
      RunAt(s, xs, before, run[..n], i);
      assert run[..n][..i] == run[..i];
    }
  }

  lemma {:induction false} FaultlessAt(s: Situation, xs: seq<Item>, before: Realm, run: seq<Event>, i: nat)
    requires i < |run| <= |xs| && Faultless(s, xs, before, run)
    ensures Faultless(s, xs, before, run[..i])
    ensures run[i].Ran? && Enabled(CallOf(s, xs[i]), StateAfter(before, run[..i])) ==> run[i].ok
  {
    var n := |run| - 1;
    if i < n {
      FaultlessAt(s, xs, before, run[..n], i);
      assert run[..n][..i] == run[..i];
    }
  }

  /** Without faults an operation succeeds exactly when Keycloak can carry it out. */
  lemma {:induction false} OkMeansEnabled(s: Situation, xs: seq<Item>, before: Realm, run: seq<Event>, i: nat)
    requires WellRead(s) && i < |run| <= |xs| && InDiff(s.irods, s.mirror, xs[i])
    requires ItemRun(s, xs, before, run) && Faultless(s, xs, before, run) && run[i].Ran?
    ensures run[i].ok <==> Enabled(CallOf(s, xs[i]), StateAfter(before, run[..i]))
  {
    RunAt(s, xs, before, run, i);
    FaultlessAt(s, xs, before, run, i);
    CallIsExact(s, xs[i]);
  }

  /** What Keycloak cannot carry out has no effect. */
  lemma {:induction false} NotEnabledNoEffect(call: Call, r: Realm, ok: bool, r': Realm)
    requires Exact(call) && !Enabled(call, r) && Permits(call, r, ok, r')
    ensures r' == r && !ok
  {
  }

  /** Without faults, failures have no effect. */
  lemma {:induction false} FaultlessIsAtomic(s: Situation, xs: seq<Item>, before: Realm, run: seq<Event>)
    requires WellRead(s) && (forall x | x in xs :: InDiff(s.irods, s.mirror, x))
    requires |run| <= |xs| && ItemRun(s, xs, before, run) && Faultless(s, xs, before, run)
    ensures Atomic(before, run)
  {
    if run != [] {
      var n := |run| - 1;
      FaultlessIsAtomic(s, xs, before, run[..n]);
      assert xs[n] in xs;
      CallIsExact(s, xs[n]);
      if run[n].Ran? && !run[n].ok {
        NotEnabledNoEffect(CallOf(s, xs[n]), StateAfter(before, run[..n]), run[n].ok, run[n].after);
      }
    }
  }

  // ----- exactly the orders that succeed -----

  /** An applied addition to a missing mirror tells that the mirror was created earlier in the run. */
  lemma {:induction false} AppliedMeansOrdered(s: Situation, xs: seq<Item>, run: seq<Event>)
    requires Tidy(s) && (forall x | x in xs :: InDiff(s.irods, s.mirror, x))
    requires |run| == |xs| && ItemRun(s, xs, s.start, run) && AllApplied(run)
    ensures CreatesFirst(s, xs)
  {
    forall i | 0 <= i < |xs| && xs[i].Absent? && xs[i].group !in s.mirror
      ensures exists j | 0 <= j < i :: xs[j] == Missing(xs[i].group)
    {
      RunAt(s, xs, s.start, run, i);
      assert xs[i] in xs;
      var done := RunReaches(s, xs, run[..i]);
      CallIsExact(s, xs[i]);
      ItemEnabled(s, done, StateAfter(s.start, run[..i]), xs[i]);
      var j := RanBefore(s, xs, run[..i], done, xs[i].group);
    }
  }

  lemma {:induction false} RanBefore(s: Situation, xs: seq<Item>, run: seq<Event>, done: set<Item>, g: string)
    returns (j: nat)
    requires |run| <= |xs| && done <= Effects(s, RanItems(xs, run)) && Missing(g) in done
    ensures j < |run| && xs[j] == Missing(g)
  {
    var x :| x in RanItems(xs, run) && Missing(g) in Effect(s, x);
    j := RanAt(xs, run, x);
  }

  lemma {:induction false} AppliedMeansKnown(s: Situation, xs: seq<Item>, run: seq<Event>)
    requires Tidy(s) && (forall x :: x in xs <==> InDiff(s.irods, s.mirror, x))
    requires |run| == |xs| && ItemRun(s, xs, s.start, run) && AllApplied(run)
    ensures UsersKnown(s)
  {
    FullRunReaches(s, xs, run);
    DiffMembers(s.irods, s.mirror);
    RemovableMeansKnown(s, Diff(s.irods, s.mirror));
  }

  /** A run without faults, over all differences in some order, applies everything if and only if Keycloak knows the
      users to be added and every mirror is created before it is added to. */
  lemma {:induction false} AppliedIffOrdered(s: Situation, xs: seq<Item>, run: seq<Event>)
    requires Tidy(s) && (forall x :: x in xs <==> InDiff(s.irods, s.mirror, x))
    requires |run| == |xs| && ItemRun(s, xs, s.start, run) && Faultless(s, xs, s.start, run)
    requires forall i | 0 <= i < |run| :: run[i].Ran?
    ensures AllApplied(run) <==> UsersKnown(s) && CreatesFirst(s, xs)
  {
    if AllApplied(run) {
      AppliedMeansKnown(s, xs, run);
      AppliedMeansOrdered(s, xs, run);
    } else if UsersKnown(s) && CreatesFirst(s, xs) {
      ReachedAtStart(s);
      OrderedRunSucceeds(s, xs, {}, s.start, run);
    }
  }

  // ----- exactly the orders that can be repeated -----

  /** Whether an operation was applied can be seen from the set, when none comes twice. */
  lemma {:induction false} AppliedOnce(xs: seq<Item>, run: seq<Event>, i: nat)
    requires i < |run| <= |xs| && Distinct(xs) && xs[i] in AppliedItems(xs, run)
    ensures run[i].Ran? && run[i].ok
  {
    var n := |run| - 1;
    if i < n {
      AppliedOnce(xs, run[..n], i);
    } else {
      NotRanYet(xs, run[..n]);
      RanAreEarlier(xs, run[..n]);
    }
  }

  /** Without faults every mirror that is missing is created, in whatever order. */
  lemma {:induction false} CreationsSucceed(s: Situation, xs: seq<Item>, run: seq<Event>, g: string)
    requires WellRead(s) && (forall x :: x in xs <==> InDiff(s.irods, s.mirror, x))
    requires |run| == |xs| && ItemRun(s, xs, s.start, run) && Faultless(s, xs, s.start, run)
    requires (forall i | 0 <= i < |run| :: run[i].Ran?) && InDiff(s.irods, s.mirror, Missing(g))
    ensures Missing(g) in AppliedItems(xs, run)
  {
    var j :| 0 <= j < |xs| && xs[j] == Missing(g);
    OkMeansEnabled(s, xs, s.start, run, j);
    AppliedAt(xs, run, j);
  }

  lemma {:induction false} AppliedHere(s: Situation, items: set<Item>, x: Item)
    requires !x.Stale?
    ensures x in Effects(s, items) <==> x in items
  {
    if x in items {
      assert x in Effect(s, x);
    }
  }

  /** After the first run, every order succeeds. */
  lemma {:induction false} SecondRunSucceeds(
    s: Situation, xs: seq<Item>, run: seq<Event>, done: set<Item>, again: seq<Event>)
    requires Tidy(s) && UsersKnown(s) && (forall x :: x in xs <==> InDiff(s.irods, s.mirror, x))
    requires |run| == |xs| && ItemRun(s, xs, s.start, run) && Faultless(s, xs, s.start, run)
    requires forall i | 0 <= i < |run| :: run[i].Ran?
    requires Reached(s, done, StateAfter(s.start, run)) && AppliedItems(xs, run) <= done
    requires |again| == |xs| && ItemRun(s, xs, StateAfter(s.start, run), again)
    requires Faultless(s, xs, StateAfter(s.start, run), again) && forall i | 0 <= i < |again| :: again[i].Ran?
    ensures AllApplied(again)
  {
    forall i | 0 <= i < |xs| && xs[i].Absent? && xs[i].group !in s.mirror ensures Missing(xs[i].group) in done {
      assert xs[i] in xs;
      CreationsSucceed(s, xs, run, xs[i].group);
    }
    OrderedRunSucceeds(s, xs, done, StateAfter(s.start, run), again);
  }

  lemma {:induction false} SomeFailed(s: Situation, xs: seq<Item>, run: seq<Event>) returns (i: nat)
    requires Tidy(s) && (forall x :: x in xs <==> InDiff(s.irods, s.mirror, x))
    requires |run| == |xs| && ItemRun(s, xs, s.start, run) && Faultless(s, xs, s.start, run)
    requires (forall i | 0 <= i < |run| :: run[i].Ran?) && !AllApplied(run)
    ensures i < |run| && !run[i].ok && xs[i].Absent?
  {
    i :| 0 <= i < |run| && !(run[i].Ran? && run[i].ok);
    assert xs[i] in xs;
    OkMeansEnabled(s, xs, s.start, run, i);
  }

  /** A plan in any order, run twice without faults: the second run changes nothing if and only if every mirror is
      created before it is added to. */
  lemma {:induction false} RepeatIffOrdered(s: Situation, xs: seq<Item>, run: seq<Event>, again: seq<Event>)
    requires Tidy(s) && UsersKnown(s) && Distinct(xs) && (forall x :: x in xs <==> InDiff(s.irods, s.mirror, x))
    requires |run| == |xs| && ItemRun(s, xs, s.start, run) && Faultless(s, xs, s.start, run)
    requires forall i | 0 <= i < |run| :: run[i].Ran?
    requires |again| == |xs| && ItemRun(s, xs, StateAfter(s.start, run), again)
    requires Faultless(s, xs, StateAfter(s.start, run), again) && forall i | 0 <= i < |again| :: again[i].Ran?
    ensures StateAfter(StateAfter(s.start, run), again) == StateAfter(s.start, run) <==> CreatesFirst(s, xs)
  {
    var r := StateAfter(s.start, run);
    AppliedIffOrdered(s, xs, run);
    if AllApplied(run) {
      FullRunReaches(s, xs, run);
      RepeatChangesNothing(s, r, xs, again);
    } else {
      RepeatChanges(s, xs, run, again);
    }
  }

  lemma {:induction false} RepeatChanges(s: Situation, xs: seq<Item>, run: seq<Event>, again: seq<Event>)
    requires Tidy(s) && UsersKnown(s) && Distinct(xs) && (forall x :: x in xs <==> InDiff(s.irods, s.mirror, x))
    requires |run| == |xs| && ItemRun(s, xs, s.start, run) && Faultless(s, xs, s.start, run)
    requires (forall i | 0 <= i < |run| :: run[i].Ran?) && !AllApplied(run)
    requires |again| == |xs| && ItemRun(s, xs, StateAfter(s.start, run), again)
    requires Faultless(s, xs, StateAfter(s.start, run), again) && forall i | 0 <= i < |again| :: again[i].Ran?
    ensures StateAfter(StateAfter(s.start, run), again) != StateAfter(s.start, run)
  {
    var r := StateAfter(s.start, run);
    var i := SomeFailed(s, xs, run);
    FaultlessIsAtomic(s, xs, s.start, run);
    var once := RunReaches(s, xs, run);
    assert xs[i] !in AppliedItems(xs, run) by {
      if xs[i] in AppliedItems(xs, run) {
        AppliedOnce(xs, run, i);
      }
    }
    AppliedHere(s, AppliedItems(xs, run), xs[i]);
    SecondRunSucceeds(s, xs, run, once, again);
    var twice := RunFrom(s, xs, once, r, again);
    AppliedAt(xs, again, i);
    AppliedHere(s, AppliedItems(xs, again), xs[i]);
    if StateAfter(r, again) == r {
      ReachedDetermines(s, once, twice, r);
      assert false;
    }
  }

  // ----- two runs of the same operations -----

  /** Only a creation makes groups. */
  lemma {:induction false} OthersMakeNoGroups(call: Call, r: Realm, ok: bool, r': Realm)
    requires Exact(call) && !call.CreateOrUpdateGroup? && Permits(call, r, ok, r')
    ensures r'.groups.Keys <= r.groups.Keys
  {
    if r' != r {
      match call
      case AddUserToGroup(user, group) =>
        var uid, gid :| Both(r, user, group, uid, gid);
      case RemoveUserFromGroup(user, group) =>
        var uid, gid :| Both(r, user, group, uid, gid);
      case DeleteGroup(group) =>
        var gid :| IsGroup(r, group, gid);
    }
  }

  /** In a run without faults there are new groups only if some mirror was created. */
  lemma {:induction false} NewMeansCreated(s: Situation, xs: seq<Item>, run: seq<Event>, id: string) returns (g: string)
    requires WellRead(s) && (forall x | x in xs :: InDiff(s.irods, s.mirror, x))
    requires |run| <= |xs| && ItemRun(s, xs, s.start, run) && Faultless(s, xs, s.start, run)
    requires id in StateAfter(s.start, run).groups && id !in s.start.groups
    ensures Missing(g) in AppliedItems(xs, run)
  {
    var n := |run| - 1;
    assert xs[n] in xs;
    if run[n].Ran? && xs[n].Missing? {
      g := xs[n].group;
    } else {
      if run[n].Ran? {
        CallIsExact(s, xs[n]);
        OthersMakeNoGroups(CallOf(s, xs[n]), StateAfter(s.start, run[..n]), run[n].ok, run[n].after);
      }
      g := NewMeansCreated(s, xs, run[..n], id);
    }
  }

  lemma {:induction false} FaultlessEarned(s: Situation, xs: seq<Item>, run: seq<Event>) returns (done: set<Item>)
    requires Tidy(s) && (forall x | x in xs :: InDiff(s.irods, s.mirror, x))
    requires |run| <= |xs| && ItemRun(s, xs, s.start, run) && Faultless(s, xs, s.start, run)
    ensures Reached(s, done, StateAfter(s.start, run)) && done == Effects(s, AppliedItems(xs, run))
    ensures RootEarned(s, done, StateAfter(s.start, run))
  {
    FaultlessIsAtomic(s, xs, s.start, run);
    done := RunReaches(s, xs, run);
    if id :| id in StateAfter(s.start, run).groups && id !in s.start.groups {
      var g := NewMeansCreated(s, xs, run, id);
      AppliedHere(s, AppliedItems(xs, run), Missing(g));
    }
  }

  /** The operations fare alike in both runs. */
  ghost predicate SameOutcomes(a: seq<Event>, b: seq<Event>) {
    |a| == |b| && forall i | 0 <= i < |a| :: a[i].Ran? && b[i].Ran? && a[i].ok == b[i].ok
  }

  lemma {:induction false} SameOutcomesSameItems(xs: seq<Item>, a: seq<Event>, b: seq<Event>)
    requires SameOutcomes(a, b) && |a| <= |xs|
    ensures AppliedItems(xs, a) == AppliedItems(xs, b)
    ensures CountApplied(a) == CountApplied(b) && CountFailed(a) == CountFailed(b)
  {
    if a != [] {
      var n := |a| - 1;
      SameOutcomesSameItems(xs, a[..n], b[..n]);
    }
  }

  /** The operation for a difference can be carried out, given what was removed before. */
  ghost predicate Doable(s: Situation, done: set<Item>, x: Item) {
    x.Absent? ==> IsUsername(s.start, x.user) && (x.group !in s.mirror ==> Missing(x.group) in done)
  }

  lemma {:induction false} OutcomeDecided(s: Situation, xs: seq<Item>, a: seq<Event>, n: nat)
    requires Tidy(s) && (forall x | x in xs :: InDiff(s.irods, s.mirror, x)) && n < |a| <= |xs|
    requires ItemRun(s, xs, s.start, a) && Faultless(s, xs, s.start, a) && a[n].Ran?
    ensures a[n].ok <==> Doable(s, Effects(s, AppliedItems(xs, a[..n])), xs[n])
  {
    assert xs[n] in xs;
    RunAt(s, xs, s.start, a, n);
    FaultlessAt(s, xs, s.start, a, n);
    var done := FaultlessEarned(s, xs, a[..n]);
    ItemEnabled(s, done, StateAfter(s.start, a[..n]), xs[n]);
    OkMeansEnabled(s, xs, s.start, a, n);
  }

  lemma {:induction false} SameOutcomesSnoc(a: seq<Event>, b: seq<Event>)
    requires a != [] && |a| == |b| && SameOutcomes(a[..|a| - 1], b[..|b| - 1])
    requires var n := |a| - 1; a[n].Ran? && b[n].Ran? && a[n].ok == b[n].ok
    ensures SameOutcomes(a, b)
  {
    var n := |a| - 1;
    assert forall i | 0 <= i < n :: a[i] == a[..n][i] && b[i] == b[..n][i];
  }

  /** Two runs of the same operations from the same realm, without faults, agree in every outcome. */
  lemma {:induction false} TwinOutcomes(s: Situation, xs: seq<Item>, a: seq<Event>, b: seq<Event>)
    requires Tidy(s) && (forall x | x in xs :: InDiff(s.irods, s.mirror, x)) && |a| == |b| <= |xs|
    requires ItemRun(s, xs, s.start, a) && Faultless(s, xs, s.start, a) && forall i | 0 <= i < |a| :: a[i].Ran?
    requires ItemRun(s, xs, s.start, b) && Faultless(s, xs, s.start, b) && forall i | 0 <= i < |b| :: b[i].Ran?
    ensures SameOutcomes(a, b)
  {
    if a != [] {
      var n := |a| - 1;
      TwinOutcomes(s, xs, a[..n], b[..n]);
      SameOutcomesSameItems(xs, a[..n], b[..n]);
      OutcomeDecided(s, xs, a, n);
      OutcomeDecided(s, xs, b, n);
      SameOutcomesSnoc(a, b);
    }
  }

  /** And they end in the same realm up to the ids of new groups. */
  lemma {:induction false} TwinRuns(s: Situation, xs: seq<Item>, a: seq<Event>, b: seq<Event>)
    requires Tidy(s) && (forall x | x in xs :: InDiff(s.irods, s.mirror, x)) && |a| == |b| <= |xs|
    requires ItemRun(s, xs, s.start, a) && Faultless(s, xs, s.start, a) && forall i | 0 <= i < |a| :: a[i].Ran?
    requires ItemRun(s, xs, s.start, b) && Faultless(s, xs, s.start, b) && forall i | 0 <= i < |b| :: b[i].Ran?
    ensures CountApplied(a) == CountApplied(b) && CountFailed(a) == CountFailed(b)
    ensures SameUpToNewIds(s.start, StateAfter(s.start, a), StateAfter(s.start, b))
  {
    TwinOutcomes(s, xs, a, b);
    SameOutcomesSameItems(xs, a, b);
    var done := FaultlessEarned(s, xs, a);
    var also := FaultlessEarned(s, xs, b);
    ReachedAgree(s, done, StateAfter(s.start, a), StateAfter(s.start, b));
  }
}
