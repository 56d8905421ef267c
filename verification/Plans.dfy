/** Sync plans and their validation before apply (internal/plan/plan.go, internal/domain/domain.go). */
module Plans {
  import opened Wrappers
  import opened Text
  import opened Paths

  /** The constants of internal/domain/domain.go, as tags; any other text is kept as it is. */
  datatype Format = SyncPlanV1 | OtherFormat(text: string)
  datatype Mode = RepairKeycloak | OtherMode(text: string)
  datatype Authority = IRODS | OtherAuthority(text: string)
  datatype Action = Create | MemberAdd | MemberRemove | Delete | OtherAction(text: string)
  datatype Risk = Low | Medium | RequiresApproval | OtherRisk(text: string)
  datatype Key =
    | IrodsGroupName | IrodsUsername | IrodsZone
    | KeycloakRealm | KeycloakPath | KeycloakGroupId | KeycloakUserId | KeycloakUser
    | OtherKey(text: string)

  const MEMBER_MARK := "#member:"

  datatype PlanOperation = PlanOperation(
    operationId: string, action: Action, target: string, risk: Risk, evidence: map<Key, string>)

  datatype Summary = Summary(creates: nat, memberships: nat, deletes: nat, approvals: nat)

  datatype SyncPlan = SyncPlan(
    format: Format, planId: string, mode: Mode, authority: Authority, realm: string, zone: string,
    summary: Summary, operations: seq<PlanOperation>)

  datatype PlanError =
    | UnsupportedFormat | PlanIdRequired | UnsupportedMode | UnsupportedAuthority
    | RealmRequired | ZoneRequired | RealmMismatch | ZoneMismatch
    | TargetRequired | EvidenceRealmMismatch | EvidenceZoneMismatch | EvidencePathMismatch
    | MemberSelectorInGroupTarget | MemberTargetShape | GroupPathRequired | UsernameRequired | UsernameCharacters
    | DeleteNeedsApproval | UnsupportedAction | OperationIdRequired | DuplicateOperationId

  function Evidence(op: PlanOperation, key: Key): (value: string)
    ensures Trimmed(value)
  {
    if key in op.evidence then TrimSpace(op.evidence[key]) else ""
  }

  function GroupTarget(op: PlanOperation): Result<string, PlanError> {
    var target := TrimSpace(op.target);
    if Contains(target, MEMBER_MARK) then Err(MemberSelectorInGroupTarget)
    else
      var groupPath := Normalize(target);
      if groupPath == "" || groupPath == "/" then Err(GroupPathRequired) else Ok(groupPath)
  }

  function MemberTarget(op: PlanOperation): Result<(string, string), PlanError> {
    var parts := Split(TrimSpace(op.target), MEMBER_MARK);
    if |parts| != 2 then Err(MemberTargetShape)
    else
      var groupPath, username := Normalize(parts[0]), TrimSpace(parts[1]);
      if groupPath == "" || groupPath == "/" then Err(GroupPathRequired)
      else if username == "" then Err(UsernameRequired)
      else Ok((groupPath, username))
  }

  predicate PathEvidenceAgrees(op: PlanOperation, groupPath: string) {
    Evidence(op, KeycloakPath) != "" ==> Normalize(Evidence(op, KeycloakPath)) == groupPath
  }

  /** ValidateOperationForApply: None when the operation is acceptable in the plan. */
  function ValidateOperation(plan: SyncPlan, op: PlanOperation): Option<PlanError> {
    if TrimSpace(op.target) == "" then Some(TargetRequired)
    else if Evidence(op, KeycloakRealm) != "" && Evidence(op, KeycloakRealm) != plan.realm then
      Some(EvidenceRealmMismatch)
    else if Evidence(op, IrodsZone) != "" && Evidence(op, IrodsZone) != plan.zone then
      Some(EvidenceZoneMismatch)
    else if op.action == Create then
      match GroupTarget(op)
      case Err(e) => Some(e)
      case Ok(path) => if PathEvidenceAgrees(op, path) then None else Some(EvidencePathMismatch)
    else if op.action == MemberAdd || op.action == MemberRemove then
      match MemberTarget(op)
      case Err(e) => Some(e)
      case Ok((path, username)) =>
        if !PathEvidenceAgrees(op, path) then Some(EvidencePathMismatch)
        else if '#' in username || '/' in username then Some(UsernameCharacters)
        else None
    else if op.action == Delete then
      if op.risk != RequiresApproval then Some(DeleteNeedsApproval)
      else
        match GroupTarget(op)
        case Err(e) => Some(e)
        case Ok(path) => if PathEvidenceAgrees(op, path) then None else Some(EvidencePathMismatch)
    else Some(UnsupportedAction)
  }

  // ----- what makes an operation acceptable -----

  /** The evidence says nothing, or the value. */
  predicate EvidenceFits(op: PlanOperation, key: Key, value: string) {
    key in op.evidence && !Blank(op.evidence[key]) ==> TrimSpace(op.evidence[key]) == value
  }

  /** The evidence says no path, or one with the same segments. */
  predicate PathFits(op: PlanOperation, path: string) {
    KeycloakPath in op.evidence && !Blank(op.evidence[KeycloakPath]) ==>
      Segments(op.evidence[KeycloakPath]) == Segments(path)
  }

  /** The target is a path of a group. */
  predicate TargetsGroup(op: PlanOperation) {
    !Contains(TrimSpace(op.target), "#member:") && Segments(op.target) != [] && PathFits(op, op.target)
  }

  /** The target is a path of a group and a username on either side of one separator. */
  ghost predicate TargetsMember(op: PlanOperation) {
    exists path, user :: MemberTargetIs(op, path, user) && PathFits(op, path) && '#' !in user && '/' !in user
  }

  ghost predicate MemberTargetIs(op: PlanOperation, path: string, user: string) {
    exists right ::
      && TrimSpace(op.target) == path + "#member:" + right
      && !Contains(path, "#member:") && !Contains(right, "#member:")
      && Segments(path) != [] && user == TrimSpace(right) != ""
  }

  /** What the validator demands of an operation. */
  ghost predicate OperationFits(plan: SyncPlan, op: PlanOperation) {
    && !Blank(op.target) && EvidenceFits(op, KeycloakRealm, plan.realm) && EvidenceFits(op, IrodsZone, plan.zone)
    && match op.action
       case Create => TargetsGroup(op)
       case MemberAdd => TargetsMember(op)
       case MemberRemove => TargetsMember(op)
       case Delete => TargetsGroup(op) && op.risk == RequiresApproval
       case OtherAction(_) => false
  }

  lemma {:induction false} NormalMeansSegments(path: string)
    ensures Normalize(path) == "" || Normalize(path) == "/" <==> Segments(path) == []
    ensures Normalize(path) == "" <==> Blank(path)
  {
    NormalizeRooted(path);
    if !Blank(path) {
      PathStart(Segments(path));
      assert PathOf([]) == "/";
      if PathOf(Segments(path)) == PathOf([]) {
        PathInjective(Segments(path), []);
      }
    }
  }

  lemma {:induction false} SameNormal(p: string, q: string)
    requires !Blank(p) && !Blank(q)
    ensures Normalize(p) == Normalize(q) <==> Segments(p) == Segments(q)
  {
    NormalizeRooted(p);
    NormalizeRooted(q);
    if Normalize(p) == Normalize(q) {
      PathInjective(Segments(p), Segments(q));
    }
  }

  lemma {:induction false} PathJudged(op: PlanOperation, path: string)
    requires !Blank(path)
    ensures PathEvidenceAgrees(op, Normalize(path)) <==> PathFits(op, path)
  {
    if KeycloakPath in op.evidence && !Blank(op.evidence[KeycloakPath]) {
      NormalizeTrim(op.evidence[KeycloakPath]);
      SameNormal(op.evidence[KeycloakPath], path);
    }
  }

  lemma {:induction false} GroupTargetJudged(op: PlanOperation)
    ensures GroupTarget(op).Ok? <==> !Contains(TrimSpace(op.target), "#member:") && Segments(op.target) != []
    ensures GroupTarget(op).Ok? ==> GroupTarget(op).value == Normalize(op.target)
  {
    NormalizeTrim(op.target);
    NormalMeansSegments(op.target);
  }

  /** A member target is read as the two sides of its one separator. */
  lemma {:induction false} MemberTargetJudged(op: PlanOperation, path: string, user: string)
    ensures MemberTarget(op).Ok? && MemberTarget(op).value == (Normalize(path), user) && SplitsAt(op, path) <==>
            MemberTargetIs(op, path, user)
  {
    var target := TrimSpace(op.target);
    MarkNoOverlap();
    SplitJoins(target, MEMBER_MARK);
    var parts := Split(target, MEMBER_MARK);
    NormalMeansSegments(path);
    if |parts| == 2 && parts[0] == path {
      assert Join(parts, MEMBER_MARK) == parts[0] + MEMBER_MARK + parts[1] by {
        assert parts[1..] == [parts[1]];
      }
      if user == TrimSpace(parts[1]) != "" && Segments(path) != [] {
        assert parts[0] in parts && parts[1] in parts;
        assert MemberTargetIs(op, path, user);
      }
    }
    if right :| target == path + MEMBER_MARK + right && !Contains(path, MEMBER_MARK) && !Contains(right, MEMBER_MARK)
                && Segments(path) != [] && user == TrimSpace(right) != "" {
      SplitPair(path, MEMBER_MARK, right, target);
    }
  }

  predicate SplitsAt(op: PlanOperation, path: string) {
    var parts := Split(TrimSpace(op.target), MEMBER_MARK);
    |parts| == 2 && parts[0] == path
  }

  lemma {:induction false} MemberOperationJudged(plan: SyncPlan, op: PlanOperation)
    requires op.action == MemberAdd || op.action == MemberRemove
    requires !Blank(op.target) && EvidenceFits(op, KeycloakRealm, plan.realm) && EvidenceFits(op, IrodsZone, plan.zone)
    ensures ValidateOperation(plan, op).None? <==> TargetsMember(op)
  {
    if MemberTarget(op).Ok? {
      var parts, user := Split(TrimSpace(op.target), MEMBER_MARK), MemberTarget(op).value.1;
      MemberTargetJudged(op, parts[0], user);
      NormalMeansSegments(parts[0]);
      PathJudged(op, parts[0]);
      forall path, u | MemberTargetIs(op, path, u) ensures path == parts[0] && u == user {
        MemberTargetJudged(op, path, u);
      }
    } else {
      forall path, u ensures !MemberTargetIs(op, path, u) {
        MemberTargetJudged(op, path, u);
      }
    }
  }

  /** The validator accepts an operation if and only if it meets these demands. */
  lemma {:induction false} ValidOperation(plan: SyncPlan, op: PlanOperation)
    ensures ValidateOperation(plan, op).None? <==> OperationFits(plan, op)
  {
    if !Blank(op.target) && EvidenceFits(op, KeycloakRealm, plan.realm) && EvidenceFits(op, IrodsZone, plan.zone) {
      if op.action == MemberAdd || op.action == MemberRemove {
        MemberOperationJudged(plan, op);
      } else {
        GroupTargetJudged(op);
        PathJudged(op, op.target);
      }
    }
  }

  function HeaderError(plan: SyncPlan, expectedRealm: string, expectedZone: string): Option<PlanError> {
    if plan.format != SyncPlanV1 then Some(UnsupportedFormat)
    else if TrimSpace(plan.planId) == "" then Some(PlanIdRequired)
    else if plan.mode != RepairKeycloak then Some(UnsupportedMode)
    else if plan.authority != IRODS then Some(UnsupportedAuthority)
    else if TrimSpace(plan.realm) == "" then Some(RealmRequired)
    else if TrimSpace(plan.zone) == "" then Some(ZoneRequired)
    else if expectedRealm != "" && plan.realm != expectedRealm then Some(RealmMismatch)
    else if expectedZone != "" && plan.zone != expectedZone then Some(ZoneMismatch)
    else None
  }

  /** A refusal names a defect that the plan has. */
  lemma {:induction false} HeaderDefect(plan: SyncPlan, expectedRealm: string, expectedZone: string, e: PlanError)
    requires HeaderError(plan, expectedRealm, expectedZone) == Some(e)
    ensures match e
      case UnsupportedFormat => plan.format != SyncPlanV1
      case PlanIdRequired => Blank(plan.planId)
      case UnsupportedMode => plan.mode != RepairKeycloak
      case UnsupportedAuthority => plan.authority != IRODS
      case RealmRequired => Blank(plan.realm)
      case ZoneRequired => Blank(plan.zone)
      case RealmMismatch => expectedRealm !in ["", plan.realm]
      case ZoneMismatch => expectedZone !in ["", plan.zone]
      case _ => false
  {
  }

  /** What each refusal of an operation says. */
  ghost predicate DefectOf(plan: SyncPlan, op: PlanOperation, e: PlanError) {
    var parts := Split(TrimSpace(op.target), "#member:");
    match e
    case TargetRequired => Blank(op.target)
    case EvidenceRealmMismatch => !EvidenceFits(op, KeycloakRealm, plan.realm)
    case EvidenceZoneMismatch => !EvidenceFits(op, IrodsZone, plan.zone)
    case EvidencePathMismatch => !PathFits(op, if IsMemberOperation(op) then parts[0] else op.target)
    case MemberSelectorInGroupTarget => !IsMemberOperation(op) && Contains(TrimSpace(op.target), "#member:")
    case MemberTargetShape => IsMemberOperation(op) && |parts| != 2
    case GroupPathRequired => Segments(if IsMemberOperation(op) then parts[0] else op.target) == []
    case UsernameRequired => IsMemberOperation(op) && |parts| == 2 && Blank(parts[1])
    case UsernameCharacters => IsMemberOperation(op) && |parts| == 2 && ('#' in parts[1] || '/' in parts[1])
    case DeleteNeedsApproval => op.action == Delete && op.risk != RequiresApproval
    case UnsupportedAction => op.action.OtherAction?
    case _ => false
  }

  predicate IsMemberOperation(op: PlanOperation) {
    op.action == MemberAdd || op.action == MemberRemove
  }

  lemma {:induction false} OperationDefect(plan: SyncPlan, op: PlanOperation, e: PlanError)
    requires ValidateOperation(plan, op) == Some(e)
    ensures DefectOf(plan, op, e)
  {
    if !Blank(op.target) && EvidenceFits(op, KeycloakRealm, plan.realm) && EvidenceFits(op, IrodsZone, plan.zone) {
      if IsMemberOperation(op) {
        MemberDefect(plan, op, e);
      } else {
        GroupDefect(plan, op, e);
      }
    }
  }

  lemma {:induction false} GroupDefect(plan: SyncPlan, op: PlanOperation, e: PlanError)
    requires ValidateOperation(plan, op) == Some(e) && !IsMemberOperation(op) && !Blank(op.target)
    requires EvidenceFits(op, KeycloakRealm, plan.realm) && EvidenceFits(op, IrodsZone, plan.zone)
    ensures DefectOf(plan, op, e)
  {
    GroupTargetJudged(op);
    PathJudged(op, op.target);
  }

  lemma {:induction false} MemberTargetDefect(op: PlanOperation, parts: seq<string>)
    requires parts == Split(TrimSpace(op.target), MEMBER_MARK)
    ensures parts != []
    ensures match MemberTarget(op)
      case Err(MemberTargetShape) => |parts| != 2
      case Err(GroupPathRequired) => Segments(parts[0]) == []
      case Err(UsernameRequired) => |parts| == 2 && Blank(parts[1])
      case Err(_) => false
      case Ok((path, user)) =>
        |parts| == 2 && path == Normalize(parts[0]) && !Blank(parts[0]) && user == TrimSpace(parts[1])
  {
    SplitOnce(TrimSpace(op.target), MEMBER_MARK);
    NormalMeansSegments(parts[0]);
  }

  lemma {:induction false} MemberDefect(plan: SyncPlan, op: PlanOperation, e: PlanError)
    requires ValidateOperation(plan, op) == Some(e) && IsMemberOperation(op) && !Blank(op.target)
    requires EvidenceFits(op, KeycloakRealm, plan.realm) && EvidenceFits(op, IrodsZone, plan.zone)
    ensures DefectOf(plan, op, e)
  {
    var parts := Split(TrimSpace(op.target), MEMBER_MARK);
    MemberTargetDefect(op, parts);
    if MemberTarget(op).Ok? {
      PathJudged(op, parts[0]);
      if '#' in TrimSpace(parts[1]) {
        TrimKeeps(parts[1], '#');
      } else if '/' in TrimSpace(parts[1]) {
        TrimKeeps(parts[1], '/');
      }
    }
  }

  lemma {:induction false} TrimKeeps(s: string, c: char)
    requires c in TrimSpace(s)
    ensures c in s
  {
    var i, j := TrimSpaceCuts(s);
    assert c in s[i..j];
  }

  /** Every operation passes a check on its own and has an id, and no two share an id. */
  predicate EachPasses(check: PlanOperation -> bool, id: PlanOperation -> string, ops: seq<PlanOperation>) {
    && (forall i | 0 <= i < |ops| :: check(ops[i]) && id(ops[i]) != "")
    && (forall i, j | 0 <= i < j < |ops| :: id(ops[i]) != id(ops[j]))
  }

  function Check(plan: SyncPlan): PlanOperation -> bool {
    (op: PlanOperation) => ValidateOperation(plan, op).None?
  }

  function TrimmedId(): PlanOperation -> string {
    (op: PlanOperation) => TrimSpace(op.operationId)
  }

  /** A header without error: the one supported kind of plan, named, for a realm and a zone, and for no others than
      those expected. */
  predicate HeaderFits(plan: SyncPlan, expectedRealm: string, expectedZone: string) {
    && plan.format == SyncPlanV1 && plan.mode == RepairKeycloak && plan.authority == IRODS
    && TrimSpace(plan.planId) != "" && TrimSpace(plan.realm) != "" && TrimSpace(plan.zone) != ""
    && (expectedRealm == "" || expectedRealm == plan.realm) && (expectedZone == "" || expectedZone == plan.zone)
  }

  predicate Acceptable(plan: SyncPlan, expectedRealm: string, expectedZone: string) {
    HeaderFits(plan, expectedRealm, expectedZone) && EachPasses(Check(plan), TrimmedId(), plan.operations)
  }

  function IdsOf(id: PlanOperation -> string, ops: seq<PlanOperation>): set<string> {
    set x | x in ops :: id(x)
  }

  lemma {:induction false} EachPassesPrefix(
    check: PlanOperation -> bool, id: PlanOperation -> string, ops: seq<PlanOperation>, k: nat)
    requires k <= |ops| && EachPasses(check, id, ops)
    ensures EachPasses(check, id, ops[..k])
  {
  }

  /** One more operation: what it must satisfy on top of the ones before. */
  lemma {:induction false} EachPassesSnoc(check: PlanOperation -> bool, id: PlanOperation -> string,
                       init: seq<PlanOperation>, op: PlanOperation)
    ensures EachPasses(check, id, init + [op]) <==>
              EachPasses(check, id, init) && check(op) && id(op) != "" && id(op) !in IdsOf(id, init)
    ensures IdsOf(id, init + [op]) == IdsOf(id, init) + {id(op)}
  {
    var ops := init + [op];
    assert ops[|init|] == op;
    if EachPasses(check, id, ops) {
      assert ops[..|init|] == init;
      EachPassesPrefix(check, id, ops, |init|);
      assert forall i | 0 <= i < |init| :: id(init[i]) == id(ops[i]) != id(ops[|init|]);
    }
  }

  lemma {:induction false} AcceptableMeans(plan: SyncPlan, expectedRealm: string, expectedZone: string)
    ensures Acceptable(plan, expectedRealm, expectedZone) <==>
      && HeaderFits(plan, expectedRealm, expectedZone)
      && (forall op | op in plan.operations :: OperationFits(plan, op) && !Blank(op.operationId))
      && forall i, j | 0 <= i < j < |plan.operations| ::
           TrimSpace(plan.operations[i].operationId) != TrimSpace(plan.operations[j].operationId)
  {
    var ops, check, id := plan.operations, Check(plan), TrimmedId();
    forall op ensures check(op) <==> OperationFits(plan, op) {
      ValidOperation(plan, op);
    }
    assert forall op :: id(op) == TrimSpace(op.operationId);
    EachInList(check, id, ops);
  }

  lemma {:induction false} EachInList(
    check: PlanOperation -> bool, id: PlanOperation -> string, ops: seq<PlanOperation>)
    ensures EachPasses(check, id, ops) <==>
      && (forall op | op in ops :: check(op) && id(op) != "")
      && forall i, j | 0 <= i < j < |ops| :: id(ops[i]) != id(ops[j])
  {
  }

  method ValidateForApply(plan: SyncPlan, expectedRealm: string, expectedZone: string)
    returns (error: Option<PlanError>)
    ensures error.None? <==> Acceptable(plan, expectedRealm, expectedZone)
    ensures error.None? <==>
      && HeaderFits(plan, expectedRealm, expectedZone)
      && (forall op | op in plan.operations :: OperationFits(plan, op) && !Blank(op.operationId))
      && forall i, j | 0 <= i < j < |plan.operations| ::
           TrimSpace(plan.operations[i].operationId) != TrimSpace(plan.operations[j].operationId)
    ensures HeaderError(plan, expectedRealm, expectedZone).Some? ==>
              error == HeaderError(plan, expectedRealm, expectedZone)
    ensures error.Some? && HeaderError(plan, expectedRealm, expectedZone).None? ==> RefusedFor(plan, error.value)
  {
    AcceptableMeans(plan, expectedRealm, expectedZone);
    error := HeaderError(plan, expectedRealm, expectedZone);
    if error.Some? {
      return;
    }
    error := ValidateOperations(plan);
  }

  /** Some operation has the defect, or its id is missing, or two have one id. */
  ghost predicate RefusedFor(plan: SyncPlan, e: PlanError) {
    var ops := plan.operations;
    || (exists op | op in ops :: DefectOf(plan, op, e))
    || (e == OperationIdRequired && exists op | op in ops :: Blank(op.operationId))
    || (e == DuplicateOperationId &&
        exists i, j | 0 <= i < j < |ops| :: TrimSpace(ops[i].operationId) == TrimSpace(ops[j].operationId))
  }

  /** The loop of ValidateForApply. */
  method ValidateOperations(plan: SyncPlan) returns (error: Option<PlanError>)
    ensures error.Some? ==> RefusedFor(plan, error.value)
    ensures error.None? <==> EachPasses(Check(plan), TrimmedId(), plan.operations)
  {
    ghost var check, idOf := Check(plan), TrimmedId();
    var seen: set<string> := {};
    var ops := plan.operations;
    for k := 0 to |ops|
      invariant EachPasses(check, idOf, ops[..k])
      invariant seen == IdsOf(idOf, ops[..k])
    {
      EachPassesSnoc(check, idOf, ops[..k], ops[k]);
      assert ops[..k + 1] == ops[..k] + [ops[k]];
      if EachPasses(check, idOf, ops) {
        EachPassesPrefix(check, idOf, ops, k + 1);
      }
      error := ValidateOperation(plan, ops[k]);
      assert error.None? <==> check(ops[k]);
      assert ops[k] in ops;
      if error.Some? {
        OperationDefect(plan, ops[k], error.value);
        return;
      }
      var id := TrimSpace(ops[k].operationId);
      assert id == idOf(ops[k]);
      if id == "" {
        return Some(OperationIdRequired);
      }
      if id in seen {
        ghost var other :| other in ops[..k] && idOf(other) == id;
        ghost var i :| 0 <= i < k && ops[..k][i] == other;
        assert TrimSpace(ops[i].operationId) == TrimSpace(ops[k].operationId);
        return Some(DuplicateOperationId);
      }
      seen := seen + {id};
    }
    assert ops[..|ops|] == ops;
    error := None;
  }

  // ----- summaries -----

  function Count(ops: seq<PlanOperation>, which: PlanOperation -> bool): nat {
    if ops == [] then 0
    else Count(ops[..|ops| - 1], which) + if which(ops[|ops| - 1]) then 1 else 0
  }

  /** How many operations of each kind a list holds. */
  function Summarize(ops: seq<PlanOperation>): Summary {
    Summary(Count(ops, (op: PlanOperation) => op.action == Create),
            Count(ops, (op: PlanOperation) => op.action == MemberAdd || op.action == MemberRemove),
            Count(ops, (op: PlanOperation) => op.action == Delete),
            Count(ops, (op: PlanOperation) => op.risk == RequiresApproval))
  }

  /** The places of the operations of a kind. */
  function Places(ops: seq<PlanOperation>, which: PlanOperation -> bool): set<nat> {
    set i: nat | i < |ops| && which(ops[i])
  }

  lemma {:induction false} CountIsSize(ops: seq<PlanOperation>, which: PlanOperation -> bool)
    ensures Count(ops, which) == |Places(ops, which)|
  {
    if ops != [] {
      var n := |ops| - 1;
      CountIsSize(ops[..n], which);
      assert Places(ops, which) == Places(ops[..n], which) + if which(ops[n]) then {n} else {};
    }
  }

  method SummaryCounts(plan: SyncPlan) returns (summary: Summary)
    ensures summary == Summarize(plan.operations)
    ensures var ops := plan.operations;
      && summary.creates == |set i: nat | i < |ops| && ops[i].action == Create|
      && summary.memberships == |set i: nat | i < |ops| && ops[i].action in {MemberAdd, MemberRemove}|
      && summary.deletes == |set i: nat | i < |ops| && ops[i].action == Delete|
      && summary.approvals == |set i: nat | i < |ops| && ops[i].risk == RequiresApproval|
  {
    var ops := plan.operations;
    summary := Summary(0, 0, 0, 0);
    for k := 0 to |ops|
      invariant summary == Summarize(ops[..k])
    {
      assert ops[..k + 1][..k] == ops[..k];
      var op := ops[k];
      if op.action == Create {
        summary := summary.(creates := summary.creates + 1);
      } else if op.action == MemberAdd || op.action == MemberRemove {
        summary := summary.(memberships := summary.memberships + 1);
      } else if op.action == Delete {
        summary := summary.(deletes := summary.deletes + 1);
      }
      if op.risk == RequiresApproval {
        summary := summary.(approvals := summary.approvals + 1);
      }
    }
    assert ops[..|ops|] == ops;
    SummaryIsSizes(ops);
  }

  lemma {:induction false} SummaryIsSizes(ops: seq<PlanOperation>)
    ensures var summary := Summarize(ops);
      && summary.creates == |set i: nat | i < |ops| && ops[i].action == Create|
      && summary.memberships == |set i: nat | i < |ops| && ops[i].action in {MemberAdd, MemberRemove}|
      && summary.deletes == |set i: nat | i < |ops| && ops[i].action == Delete|
      && summary.approvals == |set i: nat | i < |ops| && ops[i].risk == RequiresApproval|
  {
    var creates := (op: PlanOperation) => op.action == Create;
    var members := (op: PlanOperation) => op.action == MemberAdd || op.action == MemberRemove;
    var deletes := (op: PlanOperation) => op.action == Delete;
    var approvals := (op: PlanOperation) => op.risk == RequiresApproval;
    CountIsSize(ops, creates);
    CountIsSize(ops, members);
    CountIsSize(ops, deletes);
    CountIsSize(ops, approvals);
    assert Places(ops, creates) == set i: nat | i < |ops| && ops[i].action == Create;
    assert Places(ops, members) == set i: nat | i < |ops| && ops[i].action in {MemberAdd, MemberRemove};
    assert Places(ops, deletes) == set i: nat | i < |ops| && ops[i].action == Delete;
    assert Places(ops, approvals) == set i: nat | i < |ops| && ops[i].risk == RequiresApproval;
    assert Summarize(ops) ==
           Summary(Count(ops, creates), Count(ops, members), Count(ops, deletes), Count(ops, approvals));
  }

  // ----- member targets: printer and parser -----

  /** memberTarget of the planner. */
  function MemberTargetText(groupPath: string, username: string): string {
    TrimSpace(groupPath) + MEMBER_MARK + TrimSpace(username)
  }

  predicate MemberParts(groupPath: string, username: string) {
    && Normalize(groupPath) == groupPath && groupPath != "" && groupPath != "/"
    && Trimmed(username) && username != ""
    && !Contains(groupPath, MEMBER_MARK) && !Contains(username, MEMBER_MARK)
  }

  lemma {:induction false} MarkNoOverlap()
    ensures NoOverlap(MEMBER_MARK) && |MEMBER_MARK| == 8 && !IsSpace('#') && !IsSpace(':')
  {
    VisibleNotSpace('#');
    VisibleNotSpace(':');
  }

  /** What the parser sees of a printed target: the two trimmed halves, or too many parts. */
  lemma {:induction false} PrintedParts(target: string, left: string, right: string)
    requires target == left + MEMBER_MARK + right && Trimmed(left) && Trimmed(right)
    ensures TrimSpace(target) == target && target != "" && Contains(target, MEMBER_MARK)
    ensures |Split(target, MEMBER_MARK)| == 2 <==> !Contains(left, MEMBER_MARK) && !Contains(right, MEMBER_MARK)
    ensures |Split(target, MEMBER_MARK)| == 2 ==> Split(target, MEMBER_MARK) == [left, right]
  {
    MarkNoOverlap();
    var n := |target|;
    assert target[|left|] == '#' && target[|left| + 7] == ':';
    assert target[0] == if left == "" then '#' else left[0];
    assert target[n - 1] == if right == "" then ':' else right[|right| - 1];
    assert Trimmed(target);
    SplitPair(left, MEMBER_MARK, right, target);
    assert target[|left|..] == MEMBER_MARK + right;
    assert OccursAt(target, MEMBER_MARK, |left|);
    IndexFacts(target, MEMBER_MARK);
  }

  /** Parsing a printed member target gives back the pair, for exactly the pairs that are fit to print. */
  lemma {:induction false} MemberTargetRoundTrip(op: PlanOperation, groupPath: string, username: string)
    requires op.target == MemberTargetText(groupPath, username)
    ensures MemberTarget(op) == Ok((groupPath, username)) <==> MemberParts(groupPath, username)
  {
    if MemberParts(groupPath, username) {
      PrintedThenParsed(op, groupPath, username);
    } else if MemberTarget(op) == Ok((groupPath, username)) {
      ParsedIsFit(op, groupPath, username);
    }
  }

  lemma {:induction false} PrintedThenParsed(op: PlanOperation, groupPath: string, username: string)
    requires op.target == MemberTargetText(groupPath, username)
    requires MemberParts(groupPath, username)
    ensures MemberTarget(op) == Ok((groupPath, username))
  {
    TrimmedPath(groupPath);
    PrintedParts(op.target, groupPath, username);
  }

  lemma {:induction false} ParsedIsFit(op: PlanOperation, groupPath: string, username: string)
    requires op.target == MemberTargetText(groupPath, username)
    requires MemberTarget(op) == Ok((groupPath, username))
    ensures MemberParts(groupPath, username)
  {
    PrintedParts(op.target, TrimSpace(groupPath), TrimSpace(username));
    NormalizeTrim(groupPath);
    TrimmedPath(groupPath);
  }

  lemma {:induction false} NormalizeTrim(p: string)
    ensures Normalize(TrimSpace(p)) == Normalize(p)
  {
  }

  /** Printing is injective on the pairs fit to print. */
  lemma {:induction false} MemberTargetInjective(p1: string, u1: string, p2: string, u2: string)
    requires MemberParts(p1, u1) && MemberParts(p2, u2)
    requires MemberTargetText(p1, u1) == MemberTargetText(p2, u2)
    ensures p1 == p2 && u1 == u2
  {
    var op := PlanOperation("", MemberAdd, MemberTargetText(p1, u1), Low, map[]);
    MemberTargetRoundTrip(op, p1, u1);
    MemberTargetRoundTrip(op, p2, u2);
  }

  // ----- operation ids: fmt.Sprintf("op-%03d") -----

  function Digit(d: nat): char
    requires d < 10
  {
    '0' + d as char
  }

  function Decimal(n: nat): (s: string)
    ensures s != "" && (10 <= n ==> |s| >= 2) && (100 <= n ==> |s| >= 3)
  {
    if n < 10 then [Digit(n)] else Decimal(n / 10) + [Digit(n % 10)]
  }

  function OperationId(index: nat): string {
    var d := Decimal(index);
    "op-" + (if |d| == 1 then "00" + d else if |d| == 2 then "0" + d else d)
  }

  function Value(s: string): int {
    if s == "" then 0 else 10 * Value(s[..|s| - 1]) + (s[|s| - 1] as int - '0' as int)
  }

  lemma {:induction false} DecimalValue(n: nat)
    ensures Value(Decimal(n)) == n
    ensures |Decimal(n)| == 1 ==> n < 10
    ensures |Decimal(n)| == 2 ==> 10 <= n < 100
  {
    if n < 10 {
      assert [Digit(n)][..0] == "";
    } else {
      DecimalValue(n / 10);
      var d := Decimal(n);
      assert d[..|d| - 1] == Decimal(n / 10);
    }
  }

  lemma {:induction false} LeadingZero(s: string)
    ensures Value("0" + s) == Value(s)
  {
    var z := "0" + s;
    if s == "" {
      assert z[..0] == "";
    } else {
      assert z[..|z| - 1] == "0" + s[..|s| - 1];
      LeadingZero(s[..|s| - 1]);
    }
  }

  /** The id spells the index at any plan length, past op-999 too; so different indexes never share an id. */
  lemma {:induction false} OperationIdSpellsIndex(index: nat)
    ensures Value(OperationId(index)[3..]) == index && OperationId(index)[..3] == "op-"
    ensures var digits := OperationId(index)[3..];
            && (forall k | 0 <= k < |digits| :: '0' <= digits[k] <= '9')
            && |digits| >= 3 && (|digits| > 3 ==> digits[0] != '0')
    ensures Trimmed(OperationId(index)) && OperationId(index) != ""
  {
    var d := Decimal(index);
    DecimalValue(index);
    LeadingZero(d);
    LeadingZero("0" + d);
    assert "0" + ("0" + d) == "00" + d;
    AllDigits(index);
    LastDigit(index);
    VisibleNotSpace('o');
    VisibleNotSpace(d[|d| - 1]);
  }

  lemma {:induction false} AllDigits(n: nat)
    ensures forall k | 0 <= k < |Decimal(n)| :: '0' <= Decimal(n)[k] <= '9'
    ensures n > 0 ==> Decimal(n)[0] != '0'
  {
    if n >= 10 {
      AllDigits(n / 10);
    }
  }

  lemma {:induction false} LastDigit(n: nat)
    ensures var d := Decimal(n); '0' <= d[|d| - 1] <= '9'
  {
  }
}
