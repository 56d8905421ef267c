/** Whole runs over a list of differences: how far the drift goes down, order, repetition, and what stays as it was. */
module Runs {
  import opened Wrappers
  import opened Realms
  import opened Mirrors
  import opened Reach
  import opened Remaining

  /** What happened to one operation: left out by the reviewer, or handed to Keycloak with this outcome. */
  datatype Event = LeftOut | Ran(ok: bool, after: Realm)

  function StateAfter(before: Realm, run: seq<Event>): Realm {
    if run == [] then before
    else
      var last := run[|run| - 1];
      if last.Ran? then last.after else StateAfter(before, run[..|run| - 1])
  }

  /** One event that Keycloak permits for the call of a difference. */
  ghost predicate Happens(s: Situation, x: Item, r: Realm, e: Event) {
    e.Ran? ==> Permits(CallOf(s, x), r, e.ok, e.after)
  }

  /** A run over the first differences of a list, each event permitted by Keycloak in the state it met. */
  ghost predicate ItemRun(s: Situation, xs: seq<Item>, before: Realm, run: seq<Event>)
    requires |run| <= |xs|
  {
    if run == [] then true
    else
      var n := |run| - 1;
      ItemRun(s, xs, before, run[..n]) && Happens(s, xs[n], StateAfter(before, run[..n]), run[n])
  }

  /** No call failed that Keycloak could have carried out. */
  ghost predicate Faultless(s: Situation, xs: seq<Item>, before: Realm, run: seq<Event>)
    requires |run| <= |xs|
  {
    if run == [] then true
    else
      var n := |run| - 1;
      && Faultless(s, xs, before, run[..n])
      && (run[n].Ran? && Enabled(CallOf(s, xs[n]), StateAfter(before, run[..n])) ==> run[n].ok)
  }

  /** Failed operations had no effect. */
  predicate Atomic(before: Realm, run: seq<Event>) {
    if run == [] then true
    else
      var n := |run| - 1;
      Atomic(before, run[..n]) && (run[n].Ran? && !run[n].ok ==> run[n].after == StateAfter(before, run[..n]))
  }

  /** The differences whose operations were applied, and those whose operations were not left out. */
  function AppliedItems(xs: seq<Item>, run: seq<Event>): set<Item>
    requires |run| <= |xs|
  {
    if run == [] then {}
    else
      var n := |run| - 1;
      AppliedItems(xs, run[..n]) + if run[n].Ran? && run[n].ok then {xs[n]} else {}
  }

  function RanItems(xs: seq<Item>, run: seq<Event>): set<Item>
    requires |run| <= |xs|
  {
    if run == [] then {}
    else
      var n := |run| - 1;
      RanItems(xs, run[..n]) + if run[n].Ran? then {xs[n]} else {}
  }

  function CountApplied(run: seq<Event>): nat {
    if run == [] then 0
    else CountApplied(run[..|run| - 1]) + if run[|run| - 1].Ran? && run[|run| - 1].ok then 1 else 0
  }

  function CountLeftOut(run: seq<Event>): nat {
    if run == [] then 0 else CountLeftOut(run[..|run| - 1]) + if run[|run| - 1].LeftOut? then 1 else 0
  }

  function CountFailed(run: seq<Event>): nat {
    if run == [] then 0
    else CountFailed(run[..|run| - 1]) + if run[|run| - 1].Ran? && !run[|run| - 1].ok then 1 else 0
  }

  /** All that removing some differences removes. */
  function Effects(s: Situation, xs: set<Item>): set<Item> {
    set x, y | x in xs && y in Effect(s, x) :: y
  }

  lemma {:induction false} EffectsSnoc(s: Situation, xs: set<Item>, x: Item)
    ensures Effects(s, xs + {x}) == Effects(s, xs) + Effect(s, x)
    ensures Effects(s, {}) == {}
  {
  }

  /** No stale mirror lies below another. */
  ghost predicate StaleApart(s: Situation) {
    forall g, h | IsStale(s, g) && Nested(s, g, h) :: g == h
  }

  lemma {:induction false} ApartEffects(s: Situation, xs: set<Item>)
    requires WellRead(s) && forall x | x in xs :: InDiff(s.irods, s.mirror, x)
    ensures xs <= Effects(s, xs)
    ensures StaleApart(s) ==> Effects(s, xs) == xs
  {
    forall x | x in xs ensures x in Effects(s, xs) {
      OwnEffect(s, x);
    }
  }

  predicate Distinct(xs: seq<Item>) {
    forall i, j | 0 <= i < j < |xs| :: xs[i] != xs[j]
  }

  lemma {:induction false} RanAreEarlier(xs: seq<Item>, run: seq<Event>)
    requires |run| <= |xs|
    ensures RanItems(xs, run) <= set i | 0 <= i < |run| :: xs[i]
    ensures AppliedItems(xs, run) <= RanItems(xs, run)
  {
    if run != [] {
      RanAreEarlier(xs, run[..|run| - 1]);
    }
  }

  lemma {:induction false} NotRanYet(xs: seq<Item>, run: seq<Event>)
    requires |run| < |xs| && Distinct(xs)
    ensures xs[|run|] !in RanItems(xs, run)
  {
    RanAreEarlier(xs, run);
  }

  lemma {:induction false} AppliedSize(xs: seq<Item>, run: seq<Event>)
    requires |run| <= |xs| && Distinct(xs)
    ensures |AppliedItems(xs, run)| == CountApplied(run)
  {
    if run != [] {
      var n := |run| - 1;
      AppliedSize(xs, run[..n]);
      NotRanYet(xs, run[..n]);
      RanAreEarlier(xs, run[..n]);
    }
  }

  /** Every run over differences of a tidy situation, from any state that removing some has led to, in any order, with
      any operations left out, failing, or failing with lost answers, ends in the state reached by removing more: all
      that were applied, none that were left out, and exactly the applied ones when failures have no effect. */
  lemma {:induction false} RunFrom(s: Situation, xs: seq<Item>, start: set<Item>, r: Realm, run: seq<Event>)
    returns (done: set<Item>)
    requires Tidy(s) && (forall x | x in xs :: InDiff(s.irods, s.mirror, x))
    requires Reached(s, start, r) && |run| <= |xs| && ItemRun(s, xs, r, run)
    ensures Reached(s, done, StateAfter(r, run))
    ensures start + Effects(s, AppliedItems(xs, run)) <= done <= start + Effects(s, RanItems(xs, run))
    ensures Atomic(r, run) ==> done == start + Effects(s, AppliedItems(xs, run))
  {
    if run == [] {
      EffectsSnoc(s, {}, Missing(""));
      done := start;
    } else {
      var n := |run| - 1;
      var before := RunFrom(s, xs, start, r, run[..n]);
      assert xs[n] in xs;
      done := EventStep(s, before, StateAfter(r, run[..n]), xs[n], run[n]);
      ItemsStep(s, xs, start, r, run, before, done);
    }
  }

  /** The bookkeeping of one more event. */
  lemma {:induction false} ItemsStep(
    s: Situation, xs: seq<Item>, start: set<Item>, r: Realm, run: seq<Event>, before: set<Item>, done: set<Item>)
    requires 0 < |run| <= |xs|
    requires var init := run[..|run| - 1];
             && start + Effects(s, AppliedItems(xs, init)) <= before <= start + Effects(s, RanItems(xs, init))
             && (Atomic(r, init) ==> before == start + Effects(s, AppliedItems(xs, init)))
             && OneMore(s, before, StateAfter(r, init), xs[|run| - 1], run[|run| - 1], done)
    ensures start + Effects(s, AppliedItems(xs, run)) <= done <= start + Effects(s, RanItems(xs, run))
    ensures Atomic(r, run) ==> done == start + Effects(s, AppliedItems(xs, run))
  {
    var n := |run| - 1;
    EffectsSnoc(s, AppliedItems(xs, run[..n]), xs[n]);
    EffectsSnoc(s, RanItems(xs, run[..n]), xs[n]);
    assert AppliedItems(xs, run[..n]) + {} == AppliedItems(xs, run[..n]);
    assert RanItems(xs, run[..n]) + {} == RanItems(xs, run[..n]);
  }

  /** A difference counts as removed after an event if it was before; its own one if the event succeeded, and not if it
      did not happen or failed without effect. */
  predicate OneMore(s: Situation, before: set<Item>, r: Realm, x: Item, e: Event, done: set<Item>) {
    && (done == before || done == before + Effect(s, x))
    && (e.LeftOut? || (!e.ok && e.after == r) ==> done == before)
    && (e.Ran? && e.ok ==> done == before + Effect(s, x))
  }

  lemma {:induction false} EventStep(
    s: Situation, before: set<Item>, r: Realm, x: Item, e: Event) returns (done: set<Item>)
    requires Tidy(s) && Reached(s, before, r) && InDiff(s.irods, s.mirror, x) && Happens(s, x, r, e)
    ensures Reached(s, done, if e.Ran? then e.after else r) && OneMore(s, before, r, x, e, done)
  {
    done := before;
    if e.Ran? {
      if x in before {
        ItemAgain(s, before, r, x, e.ok, e.after);
        EffectWithin(s, before, x);
      } else {
        done := ItemStep(s, before, r, x, e.ok, e.after);
      }
    }
  }

  /** The same for runs from the start. */
  lemma {:induction false} RunReaches(s: Situation, xs: seq<Item>, run: seq<Event>) returns (done: set<Item>)
    requires Tidy(s) && (forall x | x in xs :: InDiff(s.irods, s.mirror, x))
    requires |run| <= |xs| && ItemRun(s, xs, s.start, run)
    ensures Reached(s, done, StateAfter(s.start, run))
    ensures AppliedItems(xs, run) <= done <= Effects(s, RanItems(xs, run))
    ensures Atomic(s.start, run) ==> done == Effects(s, AppliedItems(xs, run))
  {
    ReachedAtStart(s);
    done := RunFrom(s, xs, {}, s.start, run);
    AppliedWithin(s, xs, run);
    FromNothing(Effects(s, AppliedItems(xs, run)));
    FromNothing(Effects(s, RanItems(xs, run)));
  }

  lemma {:induction false} FromNothing(items: set<Item>)
    ensures {} + items == items
  {
  }

  lemma {:induction false} AppliedWithin(s: Situation, xs: seq<Item>, run: seq<Event>)
    requires WellRead(s) && (forall x | x in xs :: InDiff(s.irods, s.mirror, x)) && |run| <= |xs|
    ensures AppliedItems(xs, run) <= Effects(s, AppliedItems(xs, run))
  {
    AppliedInDiff(s, xs, run);
    ApartEffects(s, AppliedItems(xs, run));
  }

  lemma {:induction false} AppliedInDiff(s: Situation, xs: seq<Item>, run: seq<Event>)
    requires (forall x | x in xs :: InDiff(s.irods, s.mirror, x)) && |run| <= |xs|
    ensures forall x | x in RanItems(xs, run) :: x in xs
    ensures forall x | x in AppliedItems(xs, run) :: x in xs
  {
    RanAreEarlier(xs, run);
  }

  // ----- drift -----

  function Drift(s: Situation): nat {
    |Diff(s.irods, s.mirror)|
  }

  lemma {:induction false} DriftAfter(s: Situation, done: set<Item>, r: Realm, mirror: MirrorSnapshot)
    requires Tidy(s) && Reached(s, done, r) && IsSnapshot(s.naming, r, mirror)
    ensures Diff(s.irods, mirror) == Diff(s.irods, s.mirror) - done
    ensures done <= Diff(s.irods, s.mirror) && |Diff(s.irods, mirror)| == Drift(s) - |done|
  {
    DiffMembers(s.irods, s.mirror);
    DiffMembers(s.irods, mirror);
    forall x ensures x in Diff(s.irods, mirror) <==> x in Diff(s.irods, s.mirror) && x !in done {
      RemainingDiff(s, done, r, mirror, x);
    }
    var all, left := Diff(s.irods, s.mirror), Diff(s.irods, mirror);
    assert all == left + done && left !! done;
  }

  /** The length of a plan measures the drift: planning again after any run finds as many operations less as were
      applied at least. When failures have no effect, it finds less exactly what the applied ones remove; and that is
      as many as were applied if no stale mirror lies below another. */
  lemma {:induction false} DriftGoesDown(s: Situation, xs: seq<Item>, run: seq<Event>, after: Situation)
    requires Tidy(s) && Distinct(xs) && (forall x | x in xs :: InDiff(s.irods, s.mirror, x))
    requires |run| <= |xs| && ItemRun(s, xs, s.start, run)
    requires after.naming == s.naming && after.irods == s.irods && after.start == StateAfter(s.start, run)
    requires IsSnapshot(s.naming, after.start, after.mirror)
    ensures Drift(after) + CountApplied(run) <= Drift(s)
    ensures Atomic(s.start, run) ==> Drift(after) == Drift(s) - |Effects(s, AppliedItems(xs, run))|
    ensures Atomic(s.start, run) && StaleApart(s) ==> Drift(after) == Drift(s) - CountApplied(run)
  {
    var done := RunReaches(s, xs, run);
    DriftAfter(s, done, after.start, after.mirror);
    assert after == Situation(s.naming, s.irods, after.start, after.mirror);
    AppliedSize(xs, run);
    Subsets(AppliedItems(xs, run), done);
    AppliedInDiff(s, xs, run);
    ApartEffects(s, AppliedItems(xs, run));
  }

  /** A tidy situation is tidy again after any run. */
  lemma {:induction false} TidyAfterRun(s: Situation, xs: seq<Item>, run: seq<Event>, mirror: MirrorSnapshot)
    requires Tidy(s) && (forall x | x in xs :: InDiff(s.irods, s.mirror, x))
    requires |run| <= |xs| && ItemRun(s, xs, s.start, run)
    requires IsSnapshot(s.naming, StateAfter(s.start, run), mirror)
    ensures Tidy(Situation(s.naming, s.irods, StateAfter(s.start, run), mirror))
  {
    var done := RunReaches(s, xs, run);
    StillTidy(s, done, StateAfter(s.start, run), mirror);
  }

  lemma {:induction false} Subsets(a: set<Item>, b: set<Item>)
    requires a <= b
    ensures |a| <= |b|
  {
    assert b == a + (b - a);
  }

  // ----- convergence -----

  predicate AllApplied(run: seq<Event>) {
    forall i | 0 <= i < |run| :: run[i].Ran? && run[i].ok
  }

  lemma {:induction false} AllAreApplied(xs: seq<Item>, run: seq<Event>)
    requires |run| <= |xs| && AllApplied(run)
    ensures forall x | x in xs[..|run|] :: x in AppliedItems(xs, run)
  {
    if run != [] {
      var n := |run| - 1;
      AllAreApplied(xs, run[..n]);
      assert xs[..|run|] == xs[..n] + [xs[n]];
    }
  }

  lemma {:induction false} AllOfThem(s: Situation, xs: seq<Item>, run: seq<Event>, done: set<Item>)
    requires |run| == |xs| && AllApplied(run) && AppliedItems(xs, run) <= done && Removable(s, done)
    requires forall x :: x in xs <==> InDiff(s.irods, s.mirror, x)
    ensures done == Diff(s.irods, s.mirror)
  {
    AllAreApplied(xs, run);
    DiffMembers(s.irods, s.mirror);
    assert xs[..|run|] == xs;
  }

  /** When every operation of a plan is applied, in any order, all the differences are gone. */
  lemma {:induction false} FullRunReaches(s: Situation, xs: seq<Item>, run: seq<Event>)
    requires Tidy(s) && (forall x :: x in xs <==> InDiff(s.irods, s.mirror, x))
    requires |run| == |xs| && ItemRun(s, xs, s.start, run) && AllApplied(run)
    ensures Reached(s, Diff(s.irods, s.mirror), StateAfter(s.start, run))
  {
    var done := RunReaches(s, xs, run);
    AllOfThem(s, xs, run, done);
  }

  /** Repair converges: after a fully applied plan the mirror shows exactly what iRODS has, and nothing is left to
      plan. */
  lemma {:induction false} Convergence(s: Situation, xs: seq<Item>, run: seq<Event>, mirror: MirrorSnapshot)
    requires Tidy(s) && (forall x :: x in xs <==> InDiff(s.irods, s.mirror, x))
    requires |run| == |xs| && ItemRun(s, xs, s.start, run) && AllApplied(run)
    requires IsSnapshot(s.naming, StateAfter(s.start, run), mirror)
    ensures Converged(s.irods, mirror) && Diff(s.irods, mirror) == {}
  {
    FullRunReaches(s, xs, run);
    DriftAfter(s, Diff(s.irods, s.mirror), StateAfter(s.start, run), mirror);
    NoDiffIsConverged(s.irods, mirror);
  }

  // ----- which runs succeed -----

  /** An addition to a missing mirror comes after the creation of the mirror. */
  predicate CreatesFirst(s: Situation, xs: seq<Item>) {
    forall i | 0 <= i < |xs| && xs[i].Absent? && xs[i].group !in s.mirror ::
      exists j | 0 <= j < i :: xs[j] == Missing(xs[i].group)
  }

  ghost predicate UsersKnown(s: Situation) {
    forall x: Item | InDiff(s.irods, s.mirror, x) && x.Absent? :: IsUsername(s.start, x.user)
  }

  lemma {:induction false} RemovableMeansKnown(s: Situation, done: set<Item>)
    requires Removable(s, done) && forall x :: InDiff(s.irods, s.mirror, x) ==> x in done
    ensures UsersKnown(s)
  {
  }

  /** Each addition to a missing mirror comes when the mirror was created before the list or earlier in it. */
  predicate CreatedInTime(s: Situation, start: set<Item>, xs: seq<Item>) {
    forall i | 0 <= i < |xs| && xs[i].Absent? && xs[i].group !in s.mirror ::
      Missing(xs[i].group) in start || exists j | 0 <= j < i :: xs[j] == Missing(xs[i].group)
  }

  /** When nothing fails for reasons of its own, every order that creates mirrors before adding to them succeeds. */
  lemma {:induction false} OrderedRunSucceeds(s: Situation, xs: seq<Item>, start: set<Item>, r: Realm, run: seq<Event>)
    requires Tidy(s) && (forall x | x in xs :: InDiff(s.irods, s.mirror, x))
    requires CreatedInTime(s, start, xs) && UsersKnown(s) && Reached(s, start, r)
    requires |run| <= |xs| && ItemRun(s, xs, r, run) && Faultless(s, xs, r, run)
    requires forall i | 0 <= i < |run| :: run[i].Ran?
    ensures AllApplied(run)
  {
    if run != [] {
      var n := |run| - 1;
      OrderedRunSucceeds(s, xs, start, r, run[..n]);
      var done := RunFrom(s, xs, start, r, run[..n]);
      assert xs[n] in xs;
      CreatedBefore(s, xs, start, run[..n], done);
      ItemEnabled(s, done, StateAfter(r, run[..n]), xs[n]);
      OneMoreApplied(run);
    }
  }

  lemma {:induction false} CreatedBefore(
    s: Situation, xs: seq<Item>, start: set<Item>, run: seq<Event>, done: set<Item>)
    requires |run| < |xs| && CreatedInTime(s, start, xs) && AllApplied(run)
    requires start + Effects(s, AppliedItems(xs, run)) <= done
    ensures var x := xs[|run|]; x.Absent? && x.group !in s.mirror ==> Missing(x.group) in done
  {
    var n := |run|;
    AllAreApplied(xs, run);
    if xs[n].Absent? && xs[n].group !in s.mirror && Missing(xs[n].group) !in start {
      var j :| 0 <= j < n && xs[j] == Missing(xs[n].group);
      assert xs[j] in xs[..n];
      assert Missing(xs[n].group) in Effect(s, xs[j]);
    }
  }

  lemma {:induction false} OneMoreApplied(run: seq<Event>)
    requires run != [] && AllApplied(run[..|run| - 1]) && run[|run| - 1].Ran? && run[|run| - 1].ok
    ensures AllApplied(run)
  {
    var n := |run| - 1;
    forall i | 0 <= i < |run| ensures run[i].Ran? && run[i].ok {
      if i < n {
        assert run[..n][i] == run[i];
      }
    }
  }

  // ----- what stays as it was -----

  lemma {:induction false} SameMembers(done: set<Item>, name: Option<string>, users: map<string, string>,
                                       start: set<string>, a: set<string>, b: set<string>)
    requires HasWanted(done, name, users, start, a) && HasWanted(done, name, users, start, b)
    requires a <= users.Keys && b <= users.Keys
    ensures a == b
  {
    forall uid | uid in users ensures uid in a <==> uid in b {
    }
  }

  /** The run handed over, or carried out, a deletion of a stale mirror that the group was or lay below. */
  ghost predicate DeletionTried(s: Situation, xs: seq<Item>, run: seq<Event>, id: string)
    requires |run| <= |xs|
  {
    exists i | 0 <= i < |run| :: run[i].Ran? && xs[i].Stale? && Holds(s, xs[i].group, id)
  }

  ghost predicate DeletionDone(s: Situation, xs: seq<Item>, run: seq<Event>, id: string)
    requires |run| <= |xs|
  {
    exists i | 0 <= i < |run| :: run[i].Ran? && run[i].ok && xs[i].Stale? && Holds(s, xs[i].group, id)
  }

  lemma {:induction false} RanAt(xs: seq<Item>, run: seq<Event>, x: Item) returns (i: nat)
    requires |run| <= |xs| && x in RanItems(xs, run)
    ensures i < |run| && run[i].Ran? && xs[i] == x
  {
    var n := |run| - 1;
    if run[n].Ran? && xs[n] == x {
      i := n;
    } else {
      i := RanAt(xs, run[..n], x);
    }
  }

  lemma {:induction false} AppliedAt(xs: seq<Item>, run: seq<Event>, i: nat)
    requires i < |run| <= |xs| && run[i].Ran? && run[i].ok
    ensures xs[i] in AppliedItems(xs, run)
  {
    if i < |run| - 1 {
      AppliedAt(xs, run[..|run| - 1], i);
    }
  }

  /** What is gone after a run is what a deletion took along. */
  lemma {:induction false} GoneAfterRun(s: Situation, xs: seq<Item>, run: seq<Event>, done: set<Item>, id: string)
    requires |run| <= |xs| && AppliedItems(xs, run) <= done <= Effects(s, RanItems(xs, run))
    ensures Gone(s, done, id) ==> DeletionTried(s, xs, run, id)
    ensures DeletionDone(s, xs, run, id) ==> Gone(s, done, id)
  {
    if g :| Stale(g) in done && Holds(s, g, id) {
      var x :| x in RanItems(xs, run) && Stale(g) in Effect(s, x);
      var i := RanAt(xs, run, x);
      NestedFurther(s, x.group, g, id);
    }
    if i :| 0 <= i < |run| && run[i].Ran? && run[i].ok && xs[i].Stale? && Holds(s, xs[i].group, id) {
      AppliedAt(xs, run, i);
      assert Stale(xs[i].group) in done;
    }
  }

  lemma {:induction false} UnmanagedKept(s: Situation, done: set<Item>, r: Realm, id: string)
    requires Reached(s, done, r) && ValidRealm(s.start)
    requires id in s.start.groups && NameIn(s.naming, s.start, id).None?
    ensures if Gone(s, done, id) then id !in r.groups else id in r.groups && r.groups[id] == s.start.groups[id]
  {
    assert OldGroup(s, done, r, id);
    if !Gone(s, done, id) {
      assert ValidRecord(r, id) && ValidRecord(s.start, id);
      SameMembers(done, None, s.start.users, s.start.groups[id].members,
                  r.groups[id].members, s.start.groups[id].members);
    }
  }

  lemma {:induction false} OnlyRootUnmanaged(s: Situation, done: set<Item>, r: Realm, id: string)
    requires Tidy(s) && Reached(s, done, r) && id in r.groups && id !in s.start.groups && NameIn(s.naming, r, id).None?
    ensures r.groups[id] == Record([s.naming.root], map[], {})
  {
    NameAfter(s, done, r, id);
    assert NewRecord(s, done, r.groups[id]);
  }

  /** Groups that mirror nothing in the zone keep id, place, attributes and members, unless they go with a stale mirror
      above them. */
  lemma {:induction false} UnmanagedUntouched(s: Situation, xs: seq<Item>, run: seq<Event>, id: string)
    requires Tidy(s) && (forall x | x in xs :: InDiff(s.irods, s.mirror, x))
    requires |run| <= |xs| && ItemRun(s, xs, s.start, run)
    requires id in s.start.groups && NameIn(s.naming, s.start, id).None?
    ensures var r := StateAfter(s.start, run);
            && (id in r.groups ==> r.groups[id] == s.start.groups[id])
            && (id !in r.groups ==> DeletionTried(s, xs, run, id))
            && (DeletionDone(s, xs, run, id) ==> id !in r.groups)
  {
    var done := RunReaches(s, xs, run);
    UnmanagedKept(s, done, StateAfter(s.start, run), id);
    GoneAfterRun(s, xs, run, done, id);
  }

  /** A group that is new and mirrors nothing can only be the plain root. */
  lemma {:induction false} OnlyRootIsNew(s: Situation, xs: seq<Item>, run: seq<Event>, id: string)
    requires Tidy(s) && (forall x | x in xs :: InDiff(s.irods, s.mirror, x))
    requires |run| <= |xs| && ItemRun(s, xs, s.start, run)
    requires var r := StateAfter(s.start, run);
             id in r.groups && id !in s.start.groups && NameIn(s.naming, r, id).None?
    ensures StateAfter(s.start, run).groups[id] == Record([s.naming.root], map[], {})
  {
    var done := RunReaches(s, xs, run);
    OnlyRootUnmanaged(s, done, StateAfter(s.start, run), id);
  }
}
