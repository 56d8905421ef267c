/** Deletions: nothing is deleted without approval, and what goes along with what was approved. Apart from clean names,
    nothing is assumed about how the realm is laid out. */
module Deletions {
  import opened Wrappers
  import opened Paths
  import opened Realms
  import opened Plans
  import opened Review
  import opened Mirrors
  import opened Reach
  import opened Runs
  import opened Repair
  import opened Orders
  import opened PlanRuns
  import opened Batches

  // ----- approval -----

  lemma {:induction false} HeededAt(s: State, policy: Option<Policy>, ops: seq<PlanOperation>, run: seq<Event>, i: nat)
    requires i < |run| <= |ops| && Heeds(s, policy, ops, run)
    ensures VerdictAt(s, policy, ops, i) == if run[i].Ran? then Accepted else Review.Skipped
  {
    var n := |run| - 1;
    if i < n {
      HeededAt(s, policy, ops, run[..n], i);
    }
  }

  /** The reviewer agreed to the operation, itself or by an accept-all at it or earlier, and had not said skip-all. */
  predicate Approved(s: State, policy: Option<Policy>, ops: seq<PlanOperation>, i: nat)
    requires i < |ops|
  {
    && (SaidAt(s, policy, ops, i, Accept) || exists j | 0 <= j <= i :: SaidAt(s, policy, ops, j, AcceptAll))
    && (forall j | 0 <= j <= i :: !SaidAt(s, policy, ops, j, SkipAll))
  }

  lemma {:induction false} DeletionsAreMarked(plan: SyncPlan, op: PlanOperation)
    requires ValidateOperation(plan, op).None?
    ensures op.action == Delete ==> op.risk == RequiresApproval
  {
  }

  lemma {:induction false} EachValidated(plan: SyncPlan, realm: string, zone: string, i: nat)
    requires Acceptable(plan, realm, zone) && i < |plan.operations|
    ensures ValidateOperation(plan, plan.operations[i]).None?
  {
    assert Check(plan)(plan.operations[i]);
  }

  /** Whatever the plan, as long as the validator accepts it: unless prompting is off, no deletion and nothing marked as
      needing approval is handed to Keycloak without the reviewer's agreement. */
  lemma {:induction false} DeletionsNeedApproval(
    plan: SyncPlan, realm: string, zone: string, s: State, policy: Option<Policy>, run: seq<Event>, i: nat)
    requires Acceptable(plan, realm, zone) && s.mode != Never
    requires i < |run| <= |plan.operations| && Heeds(s, policy, plan.operations, run) && run[i].Ran?
    requires plan.operations[i].action == Delete || plan.operations[i].risk == RequiresApproval
    ensures Approved(s, policy, plan.operations, i)
  {
    EachValidated(plan, realm, zone, i);
    DeletionsAreMarked(plan, plan.operations[i]);
    HeededAt(s, policy, plan.operations, run, i);
    ApprovalSafety(s, policy, plan.operations, i);
  }

  // ----- any realm, one call at a time -----

  /** One group keeps its place and may have got other attributes or members. */
  ghost predicate EditsOne(r: Realm, r': Realm) {
    exists gid, record: Record ::
      && gid in r.groups && record.segs == r.groups[gid].segs && record.members <= r.users.Keys
      && r' == r.(groups := r.groups[gid := record])
  }

  /** A group was deleted with everything below it. */
  ghost predicate CutsOff(call: Call, r: Realm, r': Realm) {
    call.DeleteGroup? && exists gid :: IsGroup(r, call.group, gid) && gid in r.groups && r' == DeleteSubtree(r, gid)
  }

  lemma {:induction false} CreateKinds(call: Call, r: Realm, r': Realm)
    requires ValidRealm(r) && call.CreateOrUpdateGroup? && Performed(call, r, r')
    ensures EditsOne(r, r') || Grew(r, r')
  {
    if id :| At(r, Segments(call.path), id) {
      assert ValidRecord(r, id);
      var record := r.groups[id].(attributes := call.attributes);
      assert r' == r.(groups := r.groups[id := record]);
    }
  }

  lemma {:induction false} MemberKinds(call: Call, r: Realm, r': Realm)
    requires ValidRealm(r) && (call.AddUserToGroup? || call.RemoveUserFromGroup?)
    requires Enabled(call, r) && Performed(call, r, r')
    ensures r' == r || EditsOne(r, r')
  {
    var user, group := call.user, call.group;
    if uid, gid :| Both(r, user, group, uid, gid) {
      assert ValidRecord(r, gid);
      var members := r.groups[gid].members;
      var record := r.groups[gid].(members := if call.AddUserToGroup? then members + {uid} else members - {uid});
      assert r' == r.(groups := r.groups[gid := record]);
    }
  }

  lemma {:induction false} DeleteKinds(call: Call, r: Realm, r': Realm)
    requires call.DeleteGroup? && Performed(call, r, r')
    ensures r' == r || CutsOff(call, r, r')
  {
    var group := call.group;
    if gid :| IsGroup(r, group, gid) {
      assert r' == DeleteSubtree(r, gid);
    }
  }

  /** The ways in which a call can change a realm. */
  lemma {:induction false} Kinds(call: Call, r: Realm, ok: bool, r': Realm)
    requires ValidRealm(r) && Exact(call) && Permits(call, r, ok, r')
    ensures r' == r || EditsOne(r, r') || Grew(r, r') || CutsOff(call, r, r')
  {
    if Enabled(call, r) && Performed(call, r, r') {
      if call.CreateOrUpdateGroup? {
        CreateKinds(call, r, r');
      } else if call.DeleteGroup? {
        DeleteKinds(call, r, r');
      } else {
        MemberKinds(call, r, r');
      }
    }
  }

  // ----- any realm, over a run -----

  /** A group from the start is where it was, or its id is retired; and what is above a group that is there is there. */
  ghost predicate Since(start: Realm, r: Realm) {
    && ValidRealm(r)
    && (forall id | id in start.groups :: id in r.groups || id in r.retired)
    && (forall id | id in start.groups && id in r.groups :: r.groups[id].segs == start.groups[id].segs)
    && (forall a, b | a in start.groups && b in start.groups && b in r.groups ::
          start.groups[a].segs <= start.groups[b].segs ==> a in r.groups)
  }

  lemma {:induction false} SinceEdit(start: Realm, r: Realm, r': Realm)
    requires Since(start, r) && EditsOne(r, r')
    ensures Since(start, r')
  {
    var gid, record: Record :| gid in r.groups && record.segs == r.groups[gid].segs && record.members <= r.users.Keys
                               && r' == r.(groups := r.groups[gid := record]);
    EditKeepsValid(r, gid, record);
  }

  lemma {:induction false} SinceGrowth(start: Realm, r: Realm, r': Realm)
    requires Since(start, r) && Grew(r, r')
    ensures Since(start, r')
  {
  }

  lemma {:induction false} SinceCut(start: Realm, r: Realm, gid: string)
    requires Since(start, r) && gid in r.groups
    ensures Since(start, DeleteSubtree(r, gid))
  {
    var r' := DeleteSubtree(r, gid);
    DeleteKeepsValid(r, gid);
    forall a, b | a in start.groups && b in start.groups && b in r'.groups
                  && start.groups[a].segs <= start.groups[b].segs
      ensures a in r'.groups
    {
      assert b in r.groups && a in r.groups;
      var top, above, below := r.groups[gid].segs, r.groups[a].segs, r.groups[b].segs;
      assert top <= above <= below ==> top <= below;
    }
  }

  lemma {:induction false} SinceStep(start: Realm, call: Call, r: Realm, ok: bool, r': Realm)
    requires Since(start, r) && Exact(call) && Permits(call, r, ok, r')
    ensures Since(start, r')
  {
    Kinds(call, r, ok, r');
    if EditsOne(r, r') {
      SinceEdit(start, r, r');
    } else if Grew(r, r') {
      SinceGrowth(start, r, r');
    } else if r' != r {
      var gid :| IsGroup(r, call.group, gid) && gid in r.groups && r' == DeleteSubtree(r, gid);
      SinceCut(start, r, gid);
    }
  }

  lemma {:induction false} SinceRun(s: Situation, xs: seq<Item>, run: seq<Event>)
    requires WellRead(s) && (forall x | x in xs :: InDiff(s.irods, s.mirror, x))
    requires |run| <= |xs| && ItemRun(s, xs, s.start, run)
    ensures Since(s.start, StateAfter(s.start, run))
  {
    if run != [] {
      var n := |run| - 1;
      SinceRun(s, xs, run[..n]);
      assert xs[n] in xs;
      CallIsExact(s, xs[n]);
      if run[n].Ran? {
        SinceStep(s.start, CallOf(s, xs[n]), StateAfter(s.start, run[..n]), run[n].ok, run[n].after);
      }
    }
  }

  /** The deletion of a stale mirror names nothing but the mirror. */
  lemma {:induction false} StaleRef(s: Situation, g: string, r: Realm, gid: string)
    requires WellRead(s) && IsStale(s, g)
    ensures IsGroup(r, CallOf(s, Stale(g)).group, gid) <==> gid == s.mirror[g].id && gid in r.groups
  {
    assert ValidRecord(s.start, s.mirror[g].id);
  }

  /** A group from the start goes only when a stale mirror that it is, or lies below, is deleted. */
  lemma {:induction false} GoesWithStale(s: Situation, x: Item, r: Realm, ok: bool, r': Realm, id: string)
    requires WellRead(s) && Since(s.start, r) && InDiff(s.irods, s.mirror, x) && Permits(CallOf(s, x), r, ok, r')
    requires id in s.start.groups && id in r.groups && id !in r'.groups
    ensures x.Stale? && Holds(s, x.group, id)
  {
    var call := CallOf(s, x);
    CallIsExact(s, x);
    Kinds(call, r, ok, r');
    if CutsOff(call, r, r') {
      var gid :| IsGroup(r, call.group, gid) && gid in r.groups && r' == DeleteSubtree(r, gid);
      StaleRef(s, x.group, r, gid);
    }
  }

  /** A group that is gone after a run went with a stale mirror that it was or lay below. */
  lemma {:induction false} GoneMeansTried(s: Situation, xs: seq<Item>, run: seq<Event>, id: string)
    requires WellRead(s) && (forall x | x in xs :: InDiff(s.irods, s.mirror, x))
    requires |run| <= |xs| && ItemRun(s, xs, s.start, run)
    requires id in s.start.groups && id !in StateAfter(s.start, run).groups
    ensures DeletionTried(s, xs, run, id)
  {
    var n := |run| - 1;
    var r := StateAfter(s.start, run[..n]);
    if id in r.groups {
      SinceRun(s, xs, run[..n]);
      assert xs[n] in xs;
      GoesWithStale(s, xs[n], r, run[n].ok, run[n].after, id);
    } else {
      GoneMeansTried(s, xs, run[..n], id);
      TriedBefore(s, xs, run, id);
    }
  }

  lemma {:induction false} TriedBefore(s: Situation, xs: seq<Item>, run: seq<Event>, id: string)
    requires 0 < |run| <= |xs| && DeletionTried(s, xs, run[..|run| - 1], id)
    ensures DeletionTried(s, xs, run, id)
  {
    var init := run[..|run| - 1];
    var i :| 0 <= i < |init| && init[i].Ran? && xs[i].Stale? && Holds(s, xs[i].group, id);
    assert run[i] == init[i];
  }

  lemma {:induction false} DeletedIsGone(s: Situation, x: Item, r: Realm, r': Realm, id: string)
    requires WellRead(s) && Since(s.start, r) && InDiff(s.irods, s.mirror, x) && Permits(CallOf(s, x), r, true, r')
    requires x.Stale? && Holds(s, x.group, id)
    ensures id !in r'.groups
  {
    var top := s.mirror[x.group].id;
    CallIsExact(s, x);
    StaleRef(s, x.group, r, top);
    assert id in r.groups ==> top in r.groups;
    if top !in r.groups {
      forall gid ensures !IsGroup(r, CallOf(s, x).group, gid) {
        StaleRef(s, x.group, r, gid);
      }
    }
  }

  /** And one that a successful deletion held is gone for good. */
  lemma {:induction false} DoneMeansGone(s: Situation, xs: seq<Item>, run: seq<Event>, i: nat, id: string)
    requires WellRead(s) && (forall x | x in xs :: InDiff(s.irods, s.mirror, x))
    requires i < |run| <= |xs| && ItemRun(s, xs, s.start, run)
    requires run[i].Ran? && run[i].ok && xs[i].Stale? && Holds(s, xs[i].group, id)
    ensures id !in StateAfter(s.start, run).groups
  {
    if i < |run| - 1 {
      DoneMeansGone(s, xs, run[..|run| - 1], i, id);
      StillGone(s, xs, run, id);
    } else {
      GoneAtLast(s, xs, run, id);
    }
  }

  lemma {:induction false} GoneAtLast(s: Situation, xs: seq<Item>, run: seq<Event>, id: string)
    requires WellRead(s) && (forall x | x in xs :: InDiff(s.irods, s.mirror, x))
    requires 0 < |run| <= |xs| && ItemRun(s, xs, s.start, run)
    requires var n := |run| - 1; run[n].Ran? && run[n].ok && xs[n].Stale? && Holds(s, xs[n].group, id)
    ensures id !in StateAfter(s.start, run).groups
  {
    var n := |run| - 1;
    SinceRun(s, xs, run[..n]);
    assert xs[n] in xs;
    DeletedIsGone(s, xs[n], StateAfter(s.start, run[..n]), run[n].after, id);
  }

  lemma {:induction false} StillGone(s: Situation, xs: seq<Item>, run: seq<Event>, id: string)
    requires WellRead(s) && (forall x | x in xs :: InDiff(s.irods, s.mirror, x))
    requires 0 < |run| <= |xs| && ItemRun(s, xs, s.start, run)
    requires id in s.start.groups && id !in StateAfter(s.start, run[..|run| - 1]).groups
    ensures id !in StateAfter(s.start, run).groups
  {
    var n := |run| - 1;
    SinceRun(s, xs, run[..n]);
    assert xs[n] in xs;
    StaysGone(s, xs[n], StateAfter(s.start, run[..n]), run[n], id);
  }

  lemma {:induction false} StaysGone(s: Situation, x: Item, r: Realm, e: Event, id: string)
    requires WellRead(s) && Since(s.start, r) && InDiff(s.irods, s.mirror, x) && Happens(s, x, r, e)
    requires id in s.start.groups && id !in r.groups
    ensures e.Ran? ==> id !in e.after.groups
  {
    if e.Ran? {
      CallIsExact(s, x);
      Kinds(CallOf(s, x), r, e.ok, e.after);
    }
  }

  // ----- what a reviewed run may take away -----

  /** A run of a plan that followed a session in which prompting was not off. */
  ghost predicate ReviewedRun(plan: SyncPlan, before: Realm, session: State, policy: Option<Policy>, run: seq<Event>) {
    && |run| == |plan.operations| && PlanRun(plan, before, run)
    && session.mode != Never && Heeds(session, policy, plan.operations, run)
  }

  /** No group disappears unasked: one that is gone after a reviewed run was, or lay below, a stale mirror whose own
      deletion the reviewer agreed to. */
  lemma {:induction false} NothingDeletedUnasked(
    plan: SyncPlan, xs: seq<Item>, irods: IrodsSnapshot, before: Realm, mirror: MirrorSnapshot,
    session: State, policy: Option<Policy>, run: seq<Event>, id: string) returns (i: nat)
    requires Written(plan, xs, irods, before, mirror) && ReviewedRun(plan, before, session, policy, run)
    requires id in before.groups && id !in StateAfter(before, run).groups
    ensures i < |run| && |xs| == |plan.operations| && plan.operations[i].action == Delete && xs[i].Stale?
    ensures Holds(SituationIn(plan.zone, irods, before, mirror), xs[i].group, id)
    ensures Approved(session, policy, plan.operations, i)
  {
    var s := SituationIn(plan.zone, irods, before, mirror);
    ReadableIsWellRead(plan.realm, plan.zone, irods, before, mirror);
    WrittenAsks(plan, xs, irods, before, mirror);
    PlanRunIsItemRun(s, plan, xs, before, run);
    GoneMeansTried(s, xs, run, id);
    i :| 0 <= i < |run| && run[i].Ran? && xs[i].Stale? && Holds(s, xs[i].group, id);
    OperationPrints(plan, xs, irods, mirror, i);
    WrittenMeansAccepted(plan, xs, irods, before, mirror);
    DeletionsNeedApproval(plan, plan.realm, plan.zone, session, policy, run, i);
  }

  /** No group other than the mirror itself lies below a stale mirror. */
  ghost predicate StaleHoldNothing(s: Situation) {
    forall g, id | IsStale(s, g) && Holds(s, g, id) :: id == s.mirror[g].id
  }

  /** The group was a stale mirror, and its deletion was agreed to. */
  ghost predicate ItselfApproved(
    plan: SyncPlan, xs: seq<Item>, mirror: MirrorSnapshot, session: State, policy: Option<Policy>, id: string)
    requires |xs| == |plan.operations|
  {
    exists i | 0 <= i < |xs| ::
      && xs[i].Stale? && xs[i].group in mirror && mirror[xs[i].group].id == id
      && Approved(session, policy, plan.operations, i)
  }

  /** Whatever the reviewer answers and Keycloak does, every group that is gone was approved itself. */
  ghost predicate OnlyApprovedGo(plan: SyncPlan, xs: seq<Item>, before: Realm, mirror: MirrorSnapshot)
    requires |xs| == |plan.operations|
  {
    forall session, policy, run, id |
      && ReviewedRun(plan, before, session, policy, run)
      && id in before.groups && id !in StateAfter(before, run).groups ::
      ItselfApproved(plan, xs, mirror, session, policy, id)
  }

  lemma {:induction false} NothingHeldOnlyApprovedGo(
    plan: SyncPlan, xs: seq<Item>, irods: IrodsSnapshot, before: Realm, mirror: MirrorSnapshot)
    requires Written(plan, xs, irods, before, mirror) && |xs| == |plan.operations|
    requires StaleHoldNothing(SituationIn(plan.zone, irods, before, mirror))
    ensures OnlyApprovedGo(plan, xs, before, mirror)
  {
    var s := SituationIn(plan.zone, irods, before, mirror);
    forall session, policy, run, id |
      && ReviewedRun(plan, before, session, policy, run)
      && id in before.groups && id !in StateAfter(before, run).groups
      ensures ItselfApproved(plan, xs, mirror, session, policy, id)
    {
      var i := NothingDeletedUnasked(plan, xs, irods, before, mirror, session, policy, run, id);
      assert xs[i] in xs;
      assert IsStale(s, xs[i].group);
    }
  }

  // ----- and what it may take along otherwise -----

  /** Agrees to one operation only. */
  function OnlyTo(op: PlanOperation): Policy {
    (history: seq<PlanOperation>) =>
      if history != [] && history[|history| - 1] == op then Said(Accept) else Said(Skip)
  }

  lemma {:induction false} OnlyToDecides(m: State, op: PlanOperation, next: PlanOperation)
    requires m.mode == All && !m.skipAll
    ensures Decided(m, Some(OnlyTo(op)), next) ==
              (m.(shown := m.shown + [next]), if next == op then Accepted else Verdict.Skipped)
  {
    var history := m.shown + [next];
    assert history[|history| - 1] == next;
  }

  lemma {:induction false} OnlyToSession(ops: seq<PlanOperation>, op: PlanOperation, k: nat)
    requires k <= |ops|
    ensures var m := After(Start(All, []), Some(OnlyTo(op)), ops[..k]); m.mode == All && !m.skipAll
  {
    if k == 0 {
      assert ops[..0] == [];
    } else {
      OnlyToSession(ops, op, k - 1);
      SnocSteps(Start(All, []), Some(OnlyTo(op)), ops, k - 1);
      OnlyToDecides(After(Start(All, []), Some(OnlyTo(op)), ops[..k - 1]), op, ops[k - 1]);
    }
  }

  lemma {:induction false} OnlyToVerdict(ops: seq<PlanOperation>, op: PlanOperation, k: nat)
    requires k < |ops|
    ensures VerdictAt(Start(All, []), Some(OnlyTo(op)), ops, k) == if ops[k] == op then Accepted else Verdict.Skipped
  {
    OnlyToSession(ops, op, k);
    OnlyToDecides(After(Start(All, []), Some(OnlyTo(op)), ops[..k]), op, ops[k]);
  }

  lemma {:induction false} OnlyToSaid(ops: seq<PlanOperation>, op: PlanOperation, k: nat, d: Decision)
    requires k < |ops|
    ensures SaidAt(Start(All, []), Some(OnlyTo(op)), ops, k, d) <==> d == if ops[k] == op then Accept else Skip
  {
    OnlyToSession(ops, op, k);
    var before := After(Start(All, []), Some(OnlyTo(op)), ops[..k]);
    var history := before.shown + [ops[k]];
    assert history[|history| - 1] == ops[k];
  }

  /** One operation is handed over, and all others are left out. */
  function OnlyRan(n: nat, i: nat, e: Event): seq<Event> {
    seq(n, j requires 0 <= j < n => if j == i then e else LeftOut)
  }

  lemma {:induction false} OnlyRanState(n: nat, i: nat, e: Event, before: Realm, k: nat)
    requires i < n && k <= n && e.Ran?
    ensures StateAfter(before, OnlyRan(n, i, e)[..k]) == if k <= i then before else e.after
  {
    var run := OnlyRan(n, i, e);
    if k > 0 {
      OnlyRanState(n, i, e, before, k - 1);
      StateSnoc(before, run[..k - 1], run[k - 1]);
      assert run[..k] == run[..k - 1] + [run[k - 1]];
    } else {
      assert run[..0] == [];
    }
  }

  lemma {:induction false} OnlyRanLawful(law: Law, ops: seq<PlanOperation>, before: Realm, i: nat, e: Event, k: nat)
    requires i < |ops| && k <= |ops| && e.Ran? && Indulgent(law) && law(ops[i], before, e)
    ensures Lawful(law, ops, before, OnlyRan(|ops|, i, e)[..k])
  {
    var run := OnlyRan(|ops|, i, e);
    if k > 0 {
      OnlyRanLawful(law, ops, before, i, e, k - 1);
      OnlyRanState(|ops|, i, e, before, k - 1);
      LawfulSnoc(law, ops, before, run[..k - 1], run[k - 1]);
      assert run[..k] == run[..k - 1] + [run[k - 1]];
    } else {
      assert run[..0] == [];
    }
  }

  lemma {:induction false} DeletionPermitted(s: Situation, g: string)
    requires WellRead(s) && IsStale(s, g)
    ensures s.mirror[g].id in s.start.groups
    ensures Permits(CallOf(s, Stale(g)), s.start, true, DeleteSubtree(s.start, s.mirror[g].id))
  {
    var call, top := CallOf(s, Stale(g)), s.mirror[g].id;
    StaleRef(s, g, s.start, top);
    forall gid | IsGroup(s.start, call.group, gid) ensures gid == top {
      StaleRef(s, g, s.start, gid);
    }
  }

  /** The operation that deletes a stale mirror may delete it with all that is below. */
  lemma {:induction false} DeletionHappens(s: Situation, plan: SyncPlan, op: PlanOperation, g: string)
    requires WellRead(s) && IsStale(s, g) && Decode(plan, op) == Ok(CallOf(s, Stale(g)))
    ensures s.mirror[g].id in s.start.groups
    ensures OperationHappens(plan, op, s.start, Ran(true, DeleteSubtree(s.start, s.mirror[g].id)))
  {
    DeletionPermitted(s, g);
  }

  /** The run that carries out the deletion of one stale mirror and nothing else. */
  lemma {:induction false} DeletionRun(s: Situation, plan: SyncPlan, xs: seq<Item>, i: nat, e: Event, run: seq<Event>)
    requires WellRead(s) && Asks(s, plan, xs) && i < |xs| && xs[i].Stale? && xs[i].group in s.mirror
    requires s.mirror[xs[i].group].id in s.start.groups
    requires e == Ran(true, DeleteSubtree(s.start, s.mirror[xs[i].group].id))
    requires run == OnlyRan(|plan.operations|, i, e)
    ensures PlanRun(plan, s.start, run) && StateAfter(s.start, run) == e.after
  {
    DeletionHappens(s, plan, plan.operations[i], xs[i].group);
    OneHappens(plan, s.start, i, e);
  }

  /** One operation may be carried out with all others left out. */
  lemma {:induction false} OneHappens(plan: SyncPlan, before: Realm, i: nat, e: Event)
    requires i < |plan.operations| && e.Ran? && OperationHappens(plan, plan.operations[i], before, e)
    ensures var run := OnlyRan(|plan.operations|, i, e);
            PlanRun(plan, before, run) && StateAfter(before, run) == e.after
  {
    var n, run := |plan.operations|, OnlyRan(|plan.operations|, i, e);
    assert run[..n] == run;
    OnlyRanLawful(HappensIn(plan), plan.operations, before, i, e, n);
    OnlyRanState(n, i, e, before, n);
  }

  ghost predicate NoneTwice(ops: seq<PlanOperation>) {
    forall i, j | 0 <= i < j < |ops| :: ops[i] != ops[j]
  }

  lemma {:induction false} OnlyRanHeeds(ops: seq<PlanOperation>, i: nat, run: seq<Event>)
    requires NoneTwice(ops) && i < |ops| == |run| && forall j | 0 <= j < |run| :: run[j].Ran? <==> j == i
    ensures Heeds(Start(All, []), Some(OnlyTo(ops[i])), ops, run)
  {
    forall j | 0 <= j < |run|
      ensures VerdictAt(Start(All, []), Some(OnlyTo(ops[i])), ops, j) ==
              if run[j].Ran? then Accepted else Verdict.Skipped
    {
      OnlyToVerdict(ops, ops[i], j);
    }
    HeedsAll(Start(All, []), Some(OnlyTo(ops[i])), ops, run);
  }

  lemma {:induction false} OneDeletion(s: Situation, plan: SyncPlan, xs: seq<Item>, i: nat) returns (run: seq<Event>)
    requires WellRead(s) && Asks(s, plan, xs) && NoneTwice(plan.operations) && i < |xs| && xs[i].Stale?
    ensures xs[i].group in s.mirror && s.mirror[xs[i].group].id in s.start.groups
    ensures ReviewedRun(plan, s.start, Start(All, []), Some(OnlyTo(plan.operations[i])), run)
    ensures StateAfter(s.start, run) == DeleteSubtree(s.start, s.mirror[xs[i].group].id)
  {
    assert InDiff(s.irods, s.mirror, xs[i]);
    var e := Ran(true, DeleteSubtree(s.start, s.mirror[xs[i].group].id));
    run := OnlyRan(|plan.operations|, i, e);
    DeletionRun(s, plan, xs, i, e, run);
    OnlyRanHeeds(plan.operations, i, run);
  }

  lemma {:induction false} PassingDiffer(
    check: PlanOperation -> bool, id: PlanOperation -> string, ops: seq<PlanOperation>)
    requires EachPasses(check, id, ops)
    ensures NoneTwice(ops)
  {
    forall i, j | 0 <= i < j < |ops| ensures ops[i] != ops[j] {
      assert id(ops[i]) != id(ops[j]);
    }
  }

  lemma {:induction false} WrittenDiffer(
    plan: SyncPlan, xs: seq<Item>, irods: IrodsSnapshot, before: Realm, mirror: MirrorSnapshot)
    requires Written(plan, xs, irods, before, mirror)
    ensures NoneTwice(plan.operations)
  {
    WrittenMeansAccepted(plan, xs, irods, before, mirror);
    PassingDiffer(Check(plan), TrimmedId(), plan.operations);
  }

  lemma {:induction false} OnlyOneApproved(ops: seq<PlanOperation>, i: nat, k: nat)
    requires i < |ops| && k < |ops| && Approved(Start(All, []), Some(OnlyTo(ops[i])), ops, k)
    ensures ops[k] == ops[i]
  {
    OnlyToSaid(ops, ops[i], k, Accept);
    forall j | 0 <= j <= k ensures !SaidAt(Start(All, []), Some(OnlyTo(ops[i])), ops, j, AcceptAll) {
      OnlyToSaid(ops, ops[i], j, AcceptAll);
    }
  }

  lemma {:induction false} HeldGoesUnasked(s: Situation, plan: SyncPlan, xs: seq<Item>, g: string, id: string)
    requires WellRead(s) && Asks(s, plan, xs) && NoneTwice(plan.operations) && Stale(g) in xs
    requires IsStale(s, g) && Holds(s, g, id) && id != s.mirror[g].id
    ensures !OnlyApprovedGo(plan, xs, s.start, s.mirror)
  {
    var i :| 0 <= i < |xs| && xs[i] == Stale(g);
    var session, policy := Start(All, []), Some(OnlyTo(plan.operations[i]));
    var run := OneDeletion(s, plan, xs, i);
    assert id in s.start.groups && id !in StateAfter(s.start, run).groups;
    if ItselfApproved(plan, xs, s.mirror, session, policy, id) {
      var k :| 0 <= k < |xs| && xs[k].Stale? && xs[k].group in s.mirror && s.mirror[xs[k].group].id == id
               && Approved(session, policy, plan.operations, k);
      OnlyOneApproved(plan.operations, i, k);
      assert false;
    }
  }

  /** Every group that a reviewed run takes away was approved itself, whatever the reviewer answers and Keycloak does,
      if and only if no other group lies below a stale mirror before the run. */
  lemma {:induction false} ApprovedThemselves(
    plan: SyncPlan, xs: seq<Item>, irods: IrodsSnapshot, before: Realm, mirror: MirrorSnapshot)
    requires Written(plan, xs, irods, before, mirror)
    ensures |xs| == |plan.operations|
    ensures OnlyApprovedGo(plan, xs, before, mirror) <==>
            StaleHoldNothing(SituationIn(plan.zone, irods, before, mirror))
  {
    var s := SituationIn(plan.zone, irods, before, mirror);
    WrittenAsks(plan, xs, irods, before, mirror);
    if StaleHoldNothing(s) {
      NothingHeldOnlyApprovedGo(plan, xs, irods, before, mirror);
    } else {
      var g, id :| IsStale(s, g) && Holds(s, g, id) && id != s.mirror[g].id;
      ReadableIsWellRead(plan.realm, plan.zone, irods, before, mirror);
      WrittenDiffer(plan, xs, irods, before, mirror);
      assert InDiff(irods, mirror, Stale(g));
      HeldGoesUnasked(s, plan, xs, g, id);
    }
  }
}
