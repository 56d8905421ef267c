/** The repair service: reading both sides, planning, and applying a plan (internal/workflow/repair/service.go). */
module Repair {
  import opened Wrappers
  import opened Text
  import opened Paths
  import opened Groups
  import opened Plans
  import opened Review
  import opened Realms
  import opened KeycloakClient
  import opened Mirrors
  import opened Runs
  import opened Snapshots

  // ----- from an operation to a call (applyOperation) -----

  /** The call that an operation asks for, or why its target cannot be read. */
  function Decode(plan: SyncPlan, op: PlanOperation): Result<Call, PlanError> {
    match op.action
    case Create => DecodeCreate(plan, op)
    case MemberAdd => DecodeMember(op, true)
    case MemberRemove => DecodeMember(op, false)
    case Delete => DecodeDelete(op)
    case OtherAction(_) => Err(UnsupportedAction)
  }

  function DecodeCreate(plan: SyncPlan, op: PlanOperation): Result<Call, PlanError> {
    match GroupTarget(op)
    case Err(e) => Err(e)
    case Ok(path) =>
      var name := if Evidence(op, IrodsGroupName) != "" then Evidence(op, IrodsGroupName) else GroupName(path);
      var zone := if Evidence(op, IrodsZone) != "" then Evidence(op, IrodsZone) else plan.zone;
      Ok(CreateOrUpdateGroup(name, path, MirrorAttributes(name, zone)))
  }

  function DecodeMember(op: PlanOperation, add: bool): Result<Call, PlanError> {
    match MemberTarget(op)
    case Err(e) => Err(e)
    case Ok((path, username)) =>
      var group := FirstNonEmpty([Evidence(op, KeycloakGroupId), path]);
      var user := FirstNonEmpty([Evidence(op, KeycloakUserId), Evidence(op, KeycloakUser), username]);
      Ok(if add then AddUserToGroup(username, group) else RemoveUserFromGroup(user, group))
  }

  function DecodeDelete(op: PlanOperation): Result<Call, PlanError> {
    match GroupTarget(op)
    case Err(e) => Err(e)
    case Ok(path) => Ok(DeleteGroup(FirstNonEmpty([Evidence(op, KeycloakGroupId), path])))
  }

  /** No operation of a validated plan fails before it reaches Keycloak. */
  lemma {:induction false} ValidatedReachesClient(plan: SyncPlan, op: PlanOperation)
    requires ValidateOperation(plan, op).None?
    ensures Decode(plan, op).Ok?
  {
  }

  // ----- what the calls are made of -----

  /** The evidence for the key, trimmed, or else the fallback. */
  predicate EvidenceElse(op: PlanOperation, key: Key, fallback: string, v: string) {
    v == if key in op.evidence && !Blank(op.evidence[key]) then TrimSpace(op.evidence[key]) else fallback
  }

  lemma {:induction false} EvidenceChosen(op: PlanOperation, key: Key, fallback: string, v: string)
    requires EvidenceElse(op, key, fallback, v)
    ensures v == if Evidence(op, key) != "" then Evidence(op, key) else fallback
  {
  }

  /** A creation makes the group at the target with the three marks: name and zone as the evidence says, or else the
      last segment of the target and the zone of the plan. */
  lemma {:induction false} DecodesCreation(plan: SyncPlan, op: PlanOperation, name: string, zone: string)
    requires op.action == Create
    requires EvidenceElse(op, IrodsGroupName, GroupName(Normalize(op.target)), name)
    requires EvidenceElse(op, IrodsZone, plan.zone, zone)
    ensures Decode(plan, op).Ok? <==> !Contains(TrimSpace(op.target), "#member:") && Segments(op.target) != []
    ensures Decode(plan, op).Ok? ==>
              Decode(plan, op).value ==
              CreateOrUpdateGroup(name, Normalize(op.target),
                  map[GroupNameAttribute := [name], ZoneAttribute := [zone], AuthorityAttribute := ["irods"]])
  {
    GroupTargetJudged(op);
    EvidenceChosen(op, IrodsGroupName, GroupName(Normalize(op.target)), name);
    EvidenceChosen(op, IrodsZone, plan.zone, zone);
  }

  lemma {:induction false} DecodesDeletion(plan: SyncPlan, op: PlanOperation, group: string)
    requires op.action == Delete && EvidenceElse(op, KeycloakGroupId, Normalize(op.target), group)
    ensures Decode(plan, op).Ok? <==> !Contains(TrimSpace(op.target), "#member:") && Segments(op.target) != []
    ensures Decode(plan, op).Ok? ==> Decode(plan, op).value == DeleteGroup(TrimSpace(group))
  {
    GroupTargetJudged(op);
    EvidenceChosen(op, KeycloakGroupId, Normalize(op.target), group);
    FirstOfTwo(Evidence(op, KeycloakGroupId), Normalize(op.target));
  }

  lemma {:induction false} FirstOfTwo(a: string, b: string)
    ensures FirstNonEmpty([a, b]) == if !Blank(a) then TrimSpace(a) else TrimSpace(b)
  {
    assert [a, b][1..] == [b] && [b][1..] == [];
    assert FirstNonEmpty([b]) == TrimSpace(b);
  }

  lemma {:induction false} FirstOfThree(a: string, b: string, c: string)
    ensures FirstNonEmpty([a, b, c]) ==
            if !Blank(a) then TrimSpace(a) else if !Blank(b) then TrimSpace(b) else TrimSpace(c)
  {
    assert [a, b, c][1..] == [b, c];
    FirstOfTwo(b, c);
  }

  /** A change of members is about the group that the evidence gives the id of, or else the one at the path; an
      addition is about the user of the target, a removal about the one that the evidence gives the id or the name of,
      or else that of the target. */
  lemma {:induction false} DecodesMembership(
    plan: SyncPlan, op: PlanOperation, path: string, target: string, group: string, named: string, user: string)
    requires op.action in {MemberAdd, MemberRemove} && MemberTargetIs(op, path, target)
    requires EvidenceElse(op, KeycloakGroupId, Normalize(path), group)
    requires EvidenceElse(op, KeycloakUser, target, named) && EvidenceElse(op, KeycloakUserId, named, user)
    ensures Decode(plan, op) ==
            Ok(if op.action == MemberAdd then AddUserToGroup(target, TrimSpace(group))
               else RemoveUserFromGroup(user, TrimSpace(group)))
  {
    MemberTargetJudged(op, path, target);
    EvidenceChosen(op, KeycloakGroupId, Normalize(path), group);
    EvidenceChosen(op, KeycloakUser, target, named);
    EvidenceChosen(op, KeycloakUserId, named, user);
    FirstOfTwo(Evidence(op, KeycloakGroupId), Normalize(path));
    FirstOfThree(Evidence(op, KeycloakUserId), Evidence(op, KeycloakUser), target);
  }

  // ----- results -----

  datatype Status = Applied | Skipped | Failed

  datatype Warning = OperationFailed

  datatype MutationResult = MutationResult(
    operationId: string, status: Status, action: Action, target: string,
    realm: string, group: string, user: string, zone: string, warnings: seq<Warning>)

  datatype ApplyResult = ApplyResult(
    status: Status, planId: string, applied: nat, skipped: nat, failed: nat, warningCount: nat,
    warnings: seq<Warning>, operations: seq<MutationResult>)

  datatype ApplyError = PlanRequired | InvalidPlan(plan: PlanError) | ReviewStopped(review: ReviewError)

  /** mutationTargetParts */
  function TargetParts(op: PlanOperation): (string, string) {
    if Contains(op.target, MEMBER_MARK) && MemberTarget(op).Ok? then MemberTarget(op).value
    else if GroupTarget(op).Ok? then (GroupTarget(op).value, "")
    else (op.target, "")
  }

  function StatusOf(e: Event): Status {
    match e
    case LeftOut => Status.Skipped
    case Ran(ok, _) => if ok then Applied else Failed
  }

  function Mutation(plan: SyncPlan, op: PlanOperation, status: Status): MutationResult {
    var parts := TargetParts(op);
    MutationResult(op.operationId, status, op.action, op.target, plan.realm, parts.0, parts.1, plan.zone,
                   if status == Failed then [OperationFailed] else [])
  }

  /** One entry per operation, in plan order. */
  function Mutations(plan: SyncPlan, run: seq<Event>): seq<MutationResult>
    requires |run| <= |plan.operations|
  {
    seq(|run|, i requires 0 <= i < |run| => Mutation(plan, plan.operations[i], StatusOf(run[i])))
  }

  /** The entries agree with what happened, the counts count it, and every failure is a warning. */
  ghost predicate Tallied(plan: SyncPlan, run: seq<Event>, r: ApplyResult)
    requires |run| <= |plan.operations|
  {
    && r.planId == plan.planId && r.operations == Mutations(plan, run)
    && r.applied == CountApplied(run) && r.skipped == CountLeftOut(run) && r.failed == CountFailed(run)
    && |r.warnings| == r.failed
  }

  /** What the result of a run says: the tally, and a status that sums it up. */
  ghost predicate Reports(plan: SyncPlan, run: seq<Event>, r: ApplyResult)
    requires |run| <= |plan.operations|
  {
    && Tallied(plan, run, r) && r.warningCount == r.failed
    && (r.status == Failed <==> r.failed > 0)
    && (r.status == Status.Skipped <==> r.failed == 0 && r.applied == 0)
  }

  /** Run accounting: every operation is counted once, and has an entry in its place that tells its fate. */
  lemma {:induction false} EveryOperationCounted(plan: SyncPlan, run: seq<Event>, r: ApplyResult)
    requires |run| == |plan.operations| && Reports(plan, run, r)
    ensures r.applied + r.skipped + r.failed == |plan.operations| == |r.operations|
    ensures r.applied == |set i: nat | i < |run| && run[i].Ran? && run[i].ok|
    ensures r.failed == |set i: nat | i < |run| && run[i].Ran? && !run[i].ok|
    ensures r.skipped == |set i: nat | i < |run| && run[i].LeftOut?|
    ensures forall i | 0 <= i < |run| :: EntryTells(plan, plan.operations[i], run[i], r.operations[i])
  {
    CountsAddUp(run);
    AppliedIsSize(run);
    FailedIsSize(run);
    LeftOutIsSize(run);
    forall i | 0 <= i < |run| ensures EntryTells(plan, plan.operations[i], run[i], r.operations[i]) {
      assert r.operations[i] == Mutation(plan, plan.operations[i], StatusOf(run[i]));
      TargetPartsTold(plan.operations[i]);
    }
  }

  /** What an entry says about an operation and what happened to it. */
  ghost predicate EntryTells(plan: SyncPlan, op: PlanOperation, e: Event, entry: MutationResult) {
    && (entry.status == Applied <==> e.Ran? && e.ok)
    && (entry.status == Failed <==> e.Ran? && !e.ok)
    && (entry.status == Status.Skipped <==> e.LeftOut?)
    && (if e.Ran? && !e.ok then entry.warnings == [OperationFailed] else entry.warnings == [])
    && entry.operationId == op.operationId && entry.action == op.action && entry.target == op.target
    && entry.realm == plan.realm && entry.zone == plan.zone
    && PartsTold(op, entry.group, entry.user)
  }

  /** The group and the user that an entry names: the two sides of a member target; or the path of a group target; or
      the whole target when it is neither. */
  ghost predicate PartsTold(op: PlanOperation, group: string, user: string) {
    && (forall path, u | MemberTargetIs(op, path, u) :: group == Normalize(path) && user == u)
    && ((forall path, u :: !MemberTargetIs(op, path, u)) ==>
          && user == ""
          && group == if !Contains(TrimSpace(op.target), "#member:") && Segments(op.target) != []
                      then Normalize(op.target) else op.target)
  }

  lemma {:induction false} TargetPartsTold(op: PlanOperation)
    ensures PartsTold(op, TargetParts(op).0, TargetParts(op).1)
  {
    GroupTargetJudged(op);
    if MemberTarget(op).Ok? {
      var path, user := Split(TrimSpace(op.target), MEMBER_MARK)[0], MemberTarget(op).value.1;
      MemberTargetJudged(op, path, user);
      assert MemberTargetIs(op, path, user);
      MarkInTarget(op, path, user);
      forall p, u | MemberTargetIs(op, p, u) ensures p == path && u == user {
        MemberTargetJudged(op, p, u);
      }
    } else {
      forall p, u ensures !MemberTargetIs(op, p, u) {
        MemberTargetJudged(op, p, u);
      }
    }
  }

  lemma {:induction false} MarkInTarget(op: PlanOperation, path: string, user: string)
    requires MemberTargetIs(op, path, user)
    ensures Contains(op.target, MEMBER_MARK)
  {
    var i, j := TrimSpaceCuts(op.target);
    var right :| TrimSpace(op.target) == path + MEMBER_MARK + right;
    var at := i + |path|;
    assert op.target[at..][..|MEMBER_MARK|] == op.target[i..j][|path|..][..|MEMBER_MARK|] == MEMBER_MARK;
    assert OccursAt(op.target, MEMBER_MARK, at);
    IndexFacts(op.target, MEMBER_MARK);
  }

  lemma {:induction false} AppliedIsSize(run: seq<Event>)
    ensures CountApplied(run) == |set i: nat | i < |run| && run[i].Ran? && run[i].ok|
  {
    if run != [] {
      var n := |run| - 1;
      AppliedIsSize(run[..n]);
      var here := set i: nat | i < |run| && run[i].Ran? && run[i].ok;
      var there := set i: nat | i < n && run[..n][i].Ran? && run[..n][i].ok;
      assert here == there + if run[n].Ran? && run[n].ok then {n} else {};
    }
  }

  lemma {:induction false} FailedIsSize(run: seq<Event>)
    ensures CountFailed(run) == |set i: nat | i < |run| && run[i].Ran? && !run[i].ok|
  {
    if run != [] {
      var n := |run| - 1;
      FailedIsSize(run[..n]);
      var here := set i: nat | i < |run| && run[i].Ran? && !run[i].ok;
      var there := set i: nat | i < n && run[..n][i].Ran? && !run[..n][i].ok;
      assert here == there + if run[n].Ran? && !run[n].ok then {n} else {};
    }
  }

  lemma {:induction false} LeftOutIsSize(run: seq<Event>)
    ensures CountLeftOut(run) == |set i: nat | i < |run| && run[i].LeftOut?|
  {
    if run != [] {
      var n := |run| - 1;
      LeftOutIsSize(run[..n]);
      var here := set i: nat | i < |run| && run[i].LeftOut?;
      var there := set i: nat | i < n && run[..n][i].LeftOut?;
      assert here == there + if run[n].LeftOut? then {n} else {};
    }
  }

  lemma {:induction false} CountsAddUp(run: seq<Event>)
    ensures CountApplied(run) + CountLeftOut(run) + CountFailed(run) == |run|
  {
    if run != [] {
      CountsAddUp(run[..|run| - 1]);
    }
  }

  // ----- runs of a plan -----

  /** What may happen to one operation: nothing before Keycloak is reached, or what Keycloak permits. */
  ghost predicate OperationHappens(plan: SyncPlan, op: PlanOperation, r: Realm, e: Event) {
    e.Ran? ==>
      match Decode(plan, op)
      case Ok(call) => Permits(call, r, e.ok, e.after)
      case Err(_) => !e.ok && e.after == r
  }

  /** Nothing failed for reasons of its own. */
  ghost predicate OperationFaultless(plan: SyncPlan, op: PlanOperation, r: Realm, e: Event) {
    e.Ran? && Decode(plan, op).Ok? && Exact(Decode(plan, op).value) && Enabled(Decode(plan, op).value, r) ==> e.ok
  }

  /** What may happen to an operation in a realm. */
  type Law = (PlanOperation, Realm, Event) -> bool

  ghost function HappensIn(plan: SyncPlan): Law {
    (op: PlanOperation, r: Realm, e: Event) => OperationHappens(plan, op, r, e)
  }

  ghost function FaultlessIn(plan: SyncPlan): Law {
    (op: PlanOperation, r: Realm, e: Event) => OperationFaultless(plan, op, r, e)
  }

  /** A run over the first operations of a list, each event lawful in the state it met. */
  ghost predicate Lawful(law: Law, ops: seq<PlanOperation>, before: Realm, run: seq<Event>)
    requires |run| <= |ops|
  {
    if run == [] then true
    else
      var n := |run| - 1;
      Lawful(law, ops, before, run[..n]) && law(ops[n], StateAfter(before, run[..n]), run[n])
  }

  ghost predicate PlanRun(plan: SyncPlan, before: Realm, run: seq<Event>)
    requires |run| <= |plan.operations|
  {
    Lawful(HappensIn(plan), plan.operations, before, run)
  }

  ghost predicate PlanFaultless(plan: SyncPlan, before: Realm, run: seq<Event>)
    requires |run| <= |plan.operations|
  {
    Lawful(FaultlessIn(plan), plan.operations, before, run)
  }

  /** The run follows the session: exactly the accepted operations were handed to Keycloak. */
  predicate Heeds(s: State, policy: Option<Policy>, ops: seq<PlanOperation>, run: seq<Event>)
    requires |run| <= |ops|
  {
    if run == [] then true
    else
      var n := |run| - 1;
      && Heeds(s, policy, ops, run[..n])
      && VerdictAt(s, policy, ops, n) == if run[n].Ran? then Accepted else Review.Skipped
  }

  lemma {:induction false} LawfulSnoc(law: Law, ops: seq<PlanOperation>, before: Realm, run: seq<Event>, e: Event)
    requires |run| < |ops|
    ensures Lawful(law, ops, before, run + [e]) <==>
              Lawful(law, ops, before, run) && law(ops[|run|], StateAfter(before, run), e)
  {
    assert (run + [e])[..|run|] == run;
  }

  lemma {:induction false} StateSnoc(before: Realm, run: seq<Event>, e: Event)
    ensures StateAfter(before, run + [e]) == if e.Ran? then e.after else StateAfter(before, run)
  {
    assert (run + [e])[..|run|] == run;
  }

  lemma {:induction false} CountSnoc(run: seq<Event>, e: Event)
    ensures CountApplied(run + [e]) == CountApplied(run) + if StatusOf(e) == Applied then 1 else 0
    ensures CountLeftOut(run + [e]) == CountLeftOut(run) + if StatusOf(e) == Status.Skipped then 1 else 0
    ensures CountFailed(run + [e]) == CountFailed(run) + if StatusOf(e) == Failed then 1 else 0
  {
    assert (run + [e])[..|run|] == run;
  }

  lemma {:induction false} EntrySnoc(plan: SyncPlan, run: seq<Event>, e: Event)
    requires |run| < |plan.operations|
    ensures Mutations(plan, run + [e]) == Mutations(plan, run) + [Mutation(plan, plan.operations[|run|], StatusOf(e))]
  {
  }

  /** The result with one more operation noted. */
  function Noted(r: ApplyResult, plan: SyncPlan, op: PlanOperation, status: Status): ApplyResult {
    var noted := r.(operations := r.operations + [Mutation(plan, op, status)]);
    match status
    case Skipped => noted.(skipped := r.skipped + 1)
    case Failed => noted.(failed := r.failed + 1, warnings := r.warnings + [OperationFailed])
    case Applied => noted.(applied := r.applied + 1)
  }

  lemma {:induction false} TallySnoc(plan: SyncPlan, run: seq<Event>, e: Event, r: ApplyResult)
    requires |run| < |plan.operations| && Tallied(plan, run, r)
    ensures Tallied(plan, run + [e], Noted(r, plan, plan.operations[|run|], StatusOf(e)))
  {
    CountSnoc(run, e);
    EntrySnoc(plan, run, e);
  }

  lemma {:induction false} HeedsSnoc(
    s: State, policy: Option<Policy>, ops: seq<PlanOperation>, run: seq<Event>, e: Event)
    requires |run| < |ops|
    ensures Heeds(s, policy, ops, run + [e]) <==>
              Heeds(s, policy, ops, run) &&
              VerdictAt(s, policy, ops, |run|) == if e.Ran? then Accepted else Review.Skipped
  {
    assert (run + [e])[..|run|] == run;
  }

  /** What Keycloak is known to do: nothing at all, no interference by others, and no faults either. */
  datatype Trust = Trust(happens: Law, faultless: Law, quiet: bool, reliable: bool)

  ghost predicate Trusted(t: Trust, ops: seq<PlanOperation>, before: Realm, run: seq<Event>, now: Realm)
    requires |run| <= |ops|
  {
    && (t.quiet ==> Lawful(t.happens, ops, before, run) && now == StateAfter(before, run))
    && (t.quiet && t.reliable ==> Lawful(t.faultless, ops, before, run))
  }

  lemma {:induction false} TrustedSnoc(
    t: Trust, ops: seq<PlanOperation>, before: Realm, run: seq<Event>, now: Realm, e: Event, next: Realm)
    requires |run| < |ops| && Trusted(t, ops, before, run, now)
    requires next == if e.Ran? then e.after else now
    requires t.quiet ==> t.happens(ops[|run|], now, e)
    requires t.reliable ==> t.faultless(ops[|run|], now, e)
    ensures Trusted(t, ops, before, run + [e], next)
  {
    LawfulSnoc(t.happens, ops, before, run, e);
    LawfulSnoc(t.faultless, ops, before, run, e);
    StateSnoc(before, run, e);
  }

  /** The session stands where its decisions have brought it, and the run followed them. */
  ghost predicate Reviewed(s: State, policy: Option<Policy>, ops: seq<PlanOperation>, run: seq<Event>, now: State)
    requires |run| <= |ops|
  {
    now == After(s, policy, ops[..|run|]) && Heeds(s, policy, ops, run)
  }

  lemma {:induction false} ReviewedSnoc(
    s: State, policy: Option<Policy>, ops: seq<PlanOperation>, run: seq<Event>, now: State, e: Event, next: State)
    requires |run| < |ops| && Reviewed(s, policy, ops, run, now)
    requires Decided(now, policy, ops[|run|]) == (next, if e.Ran? then Accepted else Review.Skipped)
    ensures Reviewed(s, policy, ops, run + [e], next)
  {
    SnocSteps(s, policy, ops, |run|);
    HeedsSnoc(s, policy, ops, run, e);
  }

  // ----- the iRODS side -----

  datatype IrodsEntry = IrodsEntry(name: string, zone: string)
  datatype IrodsMember = IrodsMember(name: string, isUser: bool)

  /** What iRODS lists: groups and, for those it can list, members. Entries may be nil. */
  datatype IrodsListing = IrodsListing(
    groups: seq<Option<IrodsEntry>>, members: map<string, seq<Option<IrodsMember>>>)

  /** The names that an iRODS group's members go by. */
  function MemberSet(members: seq<Option<IrodsMember>>): set<string> {
    set m | m in members && m.Some? && m.value.isUser && TrimSpace(m.value.name) != "" :: TrimSpace(m.value.name)
  }

  /** The group name of an entry, if it has one. */
  function EntryName(e: Option<IrodsEntry>): Option<string> {
    if e.Some? && TrimSpace(e.value.name) != "" then Some(TrimSpace(e.value.name)) else None
  }

  function KeyOfEntry(): Option<IrodsEntry> -> Option<string> {
    (e: Option<IrodsEntry>) => EntryName(e)
  }

  /** The members of every named group can be listed. */
  predicate EveryGroupListed(listing: IrodsListing) {
    forall e | e in listing.groups && EntryName(e).Some? :: EntryName(e).value in listing.members
  }

  /** The group the snapshot shows for an entry. */
  function GroupFor(listing: IrodsListing, zone: string, e: Option<IrodsEntry>): Option<IrodsGroup> {
    var name := EntryName(e);
    if name.None? || name.value !in listing.members then None
    else Some(IrodsGroup(OrDefault(e.value.zone, zone), MemberSet(listing.members[name.value])))
  }

  function EntryMakes(listing: IrodsListing, zone: string): (Option<IrodsEntry>, IrodsGroup) -> bool {
    (e: Option<IrodsEntry>, g: IrodsGroup) => GroupFor(listing, zone, e) == Some(g)
  }

  /** Every listed name has a group in the snapshot, and every group comes from the last entry of its name. */
  ghost predicate ReadsIrods(listing: IrodsListing, zone: string, snapshot: IrodsSnapshot) {
    LastWins(KeyOfEntry(), EntryMakes(listing, zone), listing.groups, snapshot)
  }

  /** The member is a user that goes by the name. */
  predicate GoesBy(m: Option<IrodsMember>, u: string) {
    m.Some? && m.value.isUser && u == TrimSpace(m.value.name) != ""
  }

  /** The k-th entry is the last one of a name. */
  predicate LastEntry(listing: IrodsListing, k: nat, n: string) {
    && k < |listing.groups| && listing.groups[k].Some? && n == TrimSpace(listing.groups[k].value.name) != ""
    && forall j | k < j < |listing.groups| && listing.groups[j].Some? :: TrimSpace(listing.groups[j].value.name) != n
  }

  /** What the snapshot shows of a name: the zone of its last entry, or the default, and the users among its members. */
  lemma {:induction false} IrodsShows(listing: IrodsListing, zone: string, snapshot: IrodsSnapshot, n: string, k: nat)
    requires ReadsIrods(listing, zone, snapshot) && LastEntry(listing, k, n)
    ensures n in snapshot && n in listing.members
    ensures snapshot[n].zone == if Blank(listing.groups[k].value.zone) then zone
                                else TrimSpace(listing.groups[k].value.zone)
    ensures forall u :: u in snapshot[n].members <==> exists m | m in listing.members[n] :: GoesBy(m, u)
  {
    var key, makes := KeyOfEntry(), EntryMakes(listing, zone);
    assert listing.groups[k] in listing.groups && key(listing.groups[k]) == Some(n);
    assert MadeOfLast(key, makes, listing.groups, n, snapshot[n]);
    var l: nat :| LastAt(key, listing.groups, l, n) && makes(listing.groups[l], snapshot[n]);
    assert EntryName(listing.groups[l]) == Some(n) && EntryName(listing.groups[k]) == Some(n);
    assert l == k;
    assert snapshot[n].members == MemberSet(listing.members[n]);
    forall u ensures u in MemberSet(listing.members[n]) <==> exists m | m in listing.members[n] :: GoesBy(m, u) {
    }
  }

  /** And it shows nothing else. */
  lemma {:induction false} IrodsShowsOnly(listing: IrodsListing, zone: string, snapshot: IrodsSnapshot, n: string)
    returns (k: nat)
    requires ReadsIrods(listing, zone, snapshot) && n in snapshot
    ensures LastEntry(listing, k, n)
  {
    var key, makes := KeyOfEntry(), EntryMakes(listing, zone);
    assert MadeOfLast(key, makes, listing.groups, n, snapshot[n]);
    k :| LastAt(key, listing.groups, k, n) && makes(listing.groups[k], snapshot[n]);
    assert EntryName(listing.groups[k]) == Some(n);
    forall j | k < j < |listing.groups| && listing.groups[j].Some?
      ensures TrimSpace(listing.groups[j].value.name) != n
    {
      assert key(listing.groups[j]) != Some(n);
    }
  }

  /** iRODS can be read in one way only. */
  lemma {:induction false} OneReading(listing: IrodsListing, zone: string, a: IrodsSnapshot, b: IrodsSnapshot)
    requires ReadsIrods(listing, zone, a) && ReadsIrods(listing, zone, b)
    ensures a == b
  {
    OneSnapshot(KeyOfEntry(), EntryMakes(listing, zone), listing.groups, a, b);
  }
}
