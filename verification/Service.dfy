/** The methods of the repair service (internal/workflow/repair/service.go). */
module RepairService {
  import opened Wrappers
  import opened Text
  import opened Paths
  import opened Groups
  import opened Flattening
  import opened Plans
  import opened Review
  import opened Realms
  import opened KeycloakServer
  import opened KeycloakClient
  import opened Mirrors
  import opened Reach
  import opened Runs
  import opened Planner
  import opened Repair
  import opened Listings
  import opened Snapshots

  datatype ReadError = RealmRequired | ZoneRequired | IrodsFailed | KeycloakFailed

  /** How mirrors in a zone are recognised, marked and placed. */
  function ZoneNaming(zone: string): Naming {
    Naming((segs: seq<string>, attributes: Attributes) =>
             if segs == [] then None else Mapping(zone, Group("", PathOf(segs), Name(segs), attributes)),
           (g: string) => MirrorAttributes(g, zone),
           "irods")
  }

  class Service {
    const client: HTTPClient
    const irods: IrodsListing
    const reviewer: Reviewer?
    const promptMode: string
    const defaultRealm: string
    const defaultZone: string
    const mapperZone: string

    constructor (client: HTTPClient, irods: IrodsListing, reviewer: Reviewer?, promptMode: string,
                 defaultRealm: string, defaultZone: string, mapperZone: string)
      ensures this.client == client && this.irods == irods && this.reviewer == reviewer
      ensures this.promptMode == promptMode && this.defaultRealm == defaultRealm
      ensures this.defaultZone == defaultZone && this.mapperZone == mapperZone
    {
      this.client, this.irods, this.reviewer, this.promptMode := client, irods, reviewer, promptMode;
      this.defaultRealm, this.defaultZone, this.mapperZone := defaultRealm, defaultZone, mapperZone;
    }

    function RealmFor(realm: string): string {
      FirstNonEmpty([realm, defaultRealm])
    }

    function ZoneFor(zone: string): string {
      FirstNonEmpty([zone, defaultZone, mapperZone])
    }

    // ----- apply -----

    /** Hands one operation to Keycloak. */
    method ApplyOperation(plan: SyncPlan, op: PlanOperation) returns (ok: bool)
      requires client.server.Valid()
      modifies client.server
      ensures client.server.Valid()
      ensures client.server.quiet ==> OperationHappens(plan, op, old(client.server.realm), Ran(ok, client.server.realm))
      ensures client.server.reliable ==> OperationFaultless(plan, op, old(client.server.realm),
              Ran(ok, client.server.realm))
      ensures Decode(plan, op).Err? ==> !ok && client.server.realm == old(client.server.realm)
    {
      var call := Decode(plan, op);
      if call.Err? {
        return false;
      }
      ok := Perform(call.value);
    }

    method Perform(call: Call) returns (ok: bool)
      requires client.server.Valid()
      modifies client.server
      ensures client.server.Valid()
      ensures client.server.quiet ==> Permits(call, old(client.server.realm), ok, client.server.realm)
      ensures client.server.reliable && Exact(call) && Enabled(call, old(client.server.realm)) ==> ok
    {
      match call {
        case CreateOrUpdateGroup(name, path, attributes) =>
          var r := client.CreateOrUpdateGroup(name, path, attributes);
          ok := r.Ok?;
        case AddUserToGroup(user, group) =>
          var r := client.AddUserToGroup(user, group);
          ok := r.Ok?;
        case RemoveUserFromGroup(user, group) =>
          var r := client.RemoveUserFromGroup(user, group);
          ok := r.Ok?;
        case DeleteGroup(group) =>
          var r := client.DeleteGroup(group);
          ok := r.Ok?;
      }
    }

    /** Apply: validates the plan, then decides and performs its operations one by one. */
    method Apply(realm: string, zone: string, given: Option<SyncPlan>)
      returns (r: Result<ApplyResult, ApplyError>, ghost run: seq<Event>)
      requires client.server.Valid()
      modifies client.server, reviewer
      ensures client.server.Valid()
      ensures given.None? ==> r == Err(PlanRequired)
      ensures !MayStart(realm, zone, given) ==> r.Err? && run == [] && client.server.realm == old(client.server.realm)
      ensures given.Some? && !StartsFor(realm, zone, given.value) ==>
                r.Err? && run == [] && client.server.realm == old(client.server.realm)
      ensures MayStart(realm, zone, given) ==>
        Followed(given.value, Start(ParseMode(promptMode).value, old(ShownTo(reviewer))), old(client.server.realm),
            run, r)
    {
      run := [];
      if given.None? {
        return Err(PlanRequired), run;
      }
      var plan := given.value;
      MayStartMeans(realm, zone, plan);
      var error := ValidateForApply(plan, RealmFor(FirstNonEmpty([realm, plan.realm])),
                                    ZoneFor(FirstNonEmpty([zone, plan.zone])));
      if error.Some? {
        return Err(InvalidPlan(error.value)), run;
      }
      var mode := ParseMode(promptMode);
      if mode.None? {
        return Err(ReviewStopped(UnsupportedPromptMode)), run;
      }
      var session := new Session(mode.value, reviewer);
      r, run := ApplyAll(plan, session);
    }

    predicate MayStart(realm: string, zone: string, given: Option<SyncPlan>) {
      && given.Some? && ParseMode(promptMode).Some?
      && Acceptable(given.value, RealmFor(FirstNonEmpty([realm, given.value.realm])),
                    ZoneFor(FirstNonEmpty([zone, given.value.zone])))
    }

    /** The plan is acceptable, for the realm and the zone that are asked for, if any are; and its own have no white
        space around them. */
    ghost predicate StartsFor(realm: string, zone: string, plan: SyncPlan) {
      && promptMode in ["", "required", "all", "none"] && Acceptable(plan, "", "")
      && plan.realm == TrimSpace(if Blank(realm) then plan.realm else realm)
      && plan.zone == TrimSpace(if Blank(zone) then plan.zone else zone)
    }

    lemma {:induction false} MayStartMeans(realm: string, zone: string, plan: SyncPlan)
      ensures MayStart(realm, zone, Some(plan)) <==> StartsFor(realm, zone, plan)
    {
      ModesRead(promptMode);
      FirstOfTwo(realm, plan.realm);
      FirstOfTwo(zone, plan.zone);
      Resolved(FirstNonEmpty([realm, plan.realm]));
      Resolved(FirstNonEmpty([zone, plan.zone]));
    }

    /** Where the realm and the zone come from when the request does not name them. */
    lemma {:induction false} Resolved(given: string)
      ensures RealmFor(given) == TrimSpace(if Blank(given) then defaultRealm else given)
      ensures ZoneFor(given) ==
              TrimSpace(if !Blank(given) then given else if !Blank(defaultZone) then defaultZone else mapperZone)
    {
      FirstOfTwo(given, defaultRealm);
      FirstOfThree(given, defaultZone, mapperZone);
    }

    /** What Apply promises about a plan it has started on. */
    ghost predicate Followed(
      plan: SyncPlan, s: State, before: Realm, run: seq<Event>, r: Result<ApplyResult, ApplyError>)
      reads client.server
    {
      && |run| <= |plan.operations| && Heeds(s, PolicyOf(reviewer), plan.operations, run)
      && (r.Ok? ==> |run| == |plan.operations| && Reports(plan, run, r.value))
      && (r.Err? ==> |run| < |plan.operations| &&
                     VerdictAt(s, PolicyOf(reviewer), plan.operations, |run|).Stopped?)
      && (client.server.quiet ==> PlanRun(plan, before, run) && client.server.realm == StateAfter(before, run))
      && (client.server.quiet && client.server.reliable ==> PlanFaultless(plan, before, run))
    }

    /** The loop of Apply. */
    method ApplyAll(
      plan: SyncPlan, session: Session) returns (r: Result<ApplyResult, ApplyError>, ghost run: seq<Event>)
      requires client.server.Valid() && session.reviewer == reviewer
      modifies client.server, reviewer, session
      ensures client.server.Valid()
      ensures Followed(plan, old(session.View()), old(client.server.realm), run, r)
    {
      ghost var s, before, policy, t := session.View(), client.server.realm, PolicyOf(reviewer), TrustIn(plan);
      var ops := plan.operations;
      var result := ApplyResult(Applied, plan.planId, 0, 0, 0, 0, [], []);
      run := [];
      if |ops| == 0 {
        return Ok(result.(status := Status.Skipped)), run;
      }
      for k := 0 to |ops|
        invariant client.server.Valid() && |run| == k
        invariant Reviewed(s, policy, ops, run, session.View())
        invariant Trusted(t, ops, before, run, client.server.realm)
        invariant Tallied(plan, run, result) && result.status == Applied
      {
        ghost var now, realm := session.View(), client.server.realm;
        var status;
        ghost var e;
        status, e := ApplyNext(plan, ops[k], session, t);
        if status.Err? {
          return Err(ReviewStopped(status.error)), run;
        }
        ReviewedSnoc(s, policy, ops, run, now, e, session.View());
        TrustedSnoc(t, ops, before, run, realm, e, client.server.realm);
        TallySnoc(plan, run, e, result);
        result := Noted(result, plan, ops[k], status.value);
        run := run + [e];
      }
      CountsAddUp(run);
      result := result.(warningCount := |result.warnings|);
      if result.failed > 0 {
        result := result.(status := Status.Failed);
      } else if result.applied == 0 && result.skipped > 0 {
        result := result.(status := Status.Skipped);
      }
      r := Ok(result);
    }

    ghost function TrustIn(plan: SyncPlan): Trust {
      Trust(HappensIn(plan), FaultlessIn(plan), client.server.quiet, client.server.reliable)
    }

    /** One turn of the loop: decide on the operation and, if it is accepted, perform it. */
    method ApplyNext(plan: SyncPlan, op: PlanOperation, session: Session, ghost t: Trust)
      returns (r: Result<Status, ReviewError>, ghost e: Event)
      requires client.server.Valid() && session.reviewer == reviewer && t == TrustIn(plan)
      modifies client.server, reviewer, session
      ensures client.server.Valid()
      ensures Decided(old(session.View()), PolicyOf(reviewer), op) == (session.View(), VerdictOf(r))
      ensures r.Err? ==> client.server.realm == old(client.server.realm)
      ensures r.Ok? ==> StatusOf(e) == r.value &&
                        client.server.realm == if e.Ran? then e.after else old(client.server.realm)
      ensures r.Ok? && t.quiet ==> t.happens(op, old(client.server.realm), e)
      ensures r.Ok? && t.reliable ==> t.faultless(op, old(client.server.realm), e)
    {
      e := LeftOut;
      var decision := session.Decide(op);
      if decision.Err? {
        return Err(decision.error), e;
      }
      if decision.value == Skip {
        return Ok(Status.Skipped), e;
      }
      var ok := ApplyOperation(plan, op);
      e := Ran(ok, client.server.realm);
      r := Ok(if ok then Applied else Status.Failed);
    }

    function VerdictOf(r: Result<Status, ReviewError>): Verdict {
      if r.Err? then Stopped(r.error) else if r.value == Status.Skipped then Verdict.Skipped else Accepted
    }

    // ----- planning -----

    /** Reads the iRODS groups of the zone and their members. */
    method ReadIrodsSnapshot(zone: string) returns (r: Result<IrodsSnapshot, ReadError>)
      ensures r.Ok? ==> ReadsIrods(irods, zone, r.value)
      ensures r.Ok? <==> EveryGroupListed(irods)
    {
      ghost var key, makes := KeyOfEntry(), EntryMakes(irods, zone);
      var snapshot: IrodsSnapshot := map[];
      for k := 0 to |irods.groups|
        invariant LastWins(key, makes, irods.groups[..k], snapshot)
        invariant forall e | e in irods.groups[..k] && EntryName(e).Some? :: EntryName(e).value in irods.members
      {
        var entry := irods.groups[k];
        assert irods.groups[..k + 1] == irods.groups[..k] + [entry];
        var name := EntryName(entry);
        if name.None? {
          PassedOver(key, makes, irods.groups[..k], snapshot, entry);
          continue;
        }
        if name.value !in irods.members {
          assert entry in irods.groups;
          return Err(IrodsFailed);
        }
        var members := IrodsMemberSet(irods.members[name.value]);
        var group := IrodsGroup(OrDefault(entry.value.zone, zone), members);
        Entered(key, makes, irods.groups[..k], snapshot, entry, group);
        snapshot := snapshot[name.value := group];
      }
      assert irods.groups[..|irods.groups|] == irods.groups;
      r := Ok(snapshot);
    }

    /** Reads the mirror groups of the zone and their members; of several groups of one name the last one listed
        counts. */
    method ReadMirrorSnapshot(zone: string) returns (r: Result<MirrorSnapshot, ReadError>)
      requires client.server.Valid()
      ensures r.Ok? ==> MirrorsRead(zone, client.server.realm, GroupsOf(Flatten(client.TheForest())), r.value)
      ensures r.Ok? ==> IsSnapshot(ZoneNaming(zone), client.server.realm, r.value)
      ensures r.Ok? ==> forall g | g in r.value :: r.value[g].zone == zone
      ensures client.server.reliable ==> r.Ok?
    {
      var listed := client.ListGroups();
      if listed.Err? {
        return Err(KeycloakFailed);
      }
      r := ReadMirrors(zone, listed.value);
      if r.Ok? {
        AllMirrorsRead(zone, client.server.realm, listed.value, r.value);
      }
    }

    /** The loop over the listed groups. */
    method ReadMirrors(zone: string, groups: seq<Group>) returns (r: Result<MirrorSnapshot, ReadError>)
      requires client.server.Valid() && GroupsListed(client.server.realm, groups)
      ensures r.Ok? ==> MirrorsRead(zone, client.server.realm, groups, r.value)
      ensures client.server.reliable ==> r.Ok?
    {
      var snapshot: MirrorSnapshot := map[];
      for k := 0 to |groups|
        invariant MirrorsRead(zone, client.server.realm, groups[..k], snapshot)
      {
        var next := ReadMirror(zone, groups[k], snapshot, groups[..k]);
        if next.Err? {
          return next;
        }
        snapshot := next.value;
        assert groups[..k + 1] == groups[..k] + [groups[k]];
      }
      assert groups[..|groups|] == groups;
      r := Ok(snapshot);
    }

    /** One turn of the loop: a listed group is entered if it is a mirror. */
    method ReadMirror(zone: string, g: Group, snapshot: MirrorSnapshot, ghost done: seq<Group>)
      returns (r: Result<MirrorSnapshot, ReadError>)
      requires client.server.Valid() && Listed(client.server.realm, g)
      requires MirrorsRead(zone, client.server.realm, done, snapshot)
      ensures r.Ok? ==> MirrorsRead(zone, client.server.realm, done + [g], r.value)
      ensures client.server.reliable ==> r.Ok?
    {
      var name := Mapping(zone, g);
      if name.None? {
        PassedOver(MappingIn(zone), GroupMakes(zone, client.server.realm), done, snapshot, g);
        return Ok(snapshot);
      }
      ListedIsSpelled(client.server.realm, g);
      var path := OrDefault(g.path, MirrorPath(name.value));
      var id := OrDefault(g.id, path);
      var members := ReadMembers(id);
      if members.Err? {
        return Err(KeycloakFailed);
      }
      var entry := MirrorGroup(id, path, zone, members.value);
      Entered(MappingIn(zone), GroupMakes(zone, client.server.realm), done, snapshot, g, entry);
      r := Ok(snapshot[name.value := entry]);
    }

    /** The members of a listed group by username: keycloakMemberSet. */
    method ReadMembers(id: string) returns (r: Result<map<string, string>, ReadError>)
      requires client.server.Valid() && id in client.server.realm.groups
      ensures r.Ok? ==> MembersRead(client.server.realm, id, r.value)
      ensures client.server.reliable ==> r.Ok?
    {
      assert ValidRecord(client.server.realm, id);
      var members := client.ListResolved(id);
      if members.Err? {
        return Err(KeycloakFailed);
      }
      var names := MembersByName(members.value);
      AllMembersRead(client.server.realm, id, members.value, names);
      r := Ok(names);
    }

    /** RepairKeycloak: reads both sides and plans what brings the mirror in line. */
    method RepairKeycloak(realm: string, zone: string, planId: string)
      returns (r: Result<SyncPlan, ReadError>, ghost from: IrodsSnapshot, ghost mirror: MirrorSnapshot,
          ghost xs: seq<Item>)
      requires client.server.Valid()
      ensures r.Ok? ==>
        && RealmFor(realm) != "" && ZoneFor(zone) != ""
        && ReadsIrods(irods, ZoneFor(zone), from)
        && IsSnapshot(ZoneNaming(ZoneFor(zone)), client.server.realm, mirror)
        && (forall g | g in mirror :: mirror[g].zone == ZoneFor(zone))
        && IsPlan(RealmFor(realm), ZoneFor(zone), from, mirror, r.value, xs) && r.value.planId == planId
      ensures r.Ok? ==>
        MirrorsRead(ZoneFor(zone), client.server.realm, GroupsOf(Flatten(client.TheForest())), mirror)
      ensures RealmFor(realm) != "" && ZoneFor(zone) != "" && client.server.reliable && EveryGroupListed(irods) ==>
              r.Ok?
    {
      from, mirror, xs := map[], map[], [];
      var inRealm, inZone := RealmFor(realm), ZoneFor(zone);
      if inRealm == "" {
        r := Err(ReadError.RealmRequired);
        return;
      }
      if inZone == "" {
        r := Err(ReadError.ZoneRequired);
        return;
      }
      var irodsGroups := ReadIrodsSnapshot(inZone);
      if irodsGroups.Err? {
        r := Err(irodsGroups.error);
        return;
      }
      var mirrorGroups := ReadMirrorSnapshot(inZone);
      if mirrorGroups.Err? {
        r := Err(mirrorGroups.error);
        return;
      }
      from, mirror := irodsGroups.value, mirrorGroups.value;
      var plan;
      plan, xs := PlanRepair(inRealm, inZone, irodsGroups.value, mirrorGroups.value, planId);
      r := Ok(plan);
    }
  }

  /** irodsMemberSet: the trimmed names of the users among the members. */
  method IrodsMemberSet(members: seq<Option<IrodsMember>>) returns (names: set<string>)
    ensures names == MemberSet(members)
  {
    names := {};
    for k := 0 to |members|
      invariant names == MemberSet(members[..k])
    {
      assert members[..k + 1] == members[..k] + [members[k]];
      var member := members[k];
      if member.None? || !member.value.isUser {
        continue;
      }
      if TrimSpace(member.value.name) != "" {
        names := names + {TrimSpace(member.value.name)};
      }
    }
    assert members[..|members|] == members;
  }

  /** The loop of keycloakMemberSet: ids by username, blank usernames left out, the last of equal names kept. */
  method MembersByName(users: seq<User>) returns (names: map<string, string>)
    ensures ByName(users, names)
  {
    names := map[];
    for k := 0 to |users|
      invariant ByName(users[..k], names)
    {
      assert users[..k + 1] == users[..k] + [users[k]];
      if TrimSpace(users[k].username) != "" {
        names := names[TrimSpace(users[k].username) := TrimSpace(users[k].id)];
      }
    }
    assert users[..|users|] == users;
  }

  // ----- reading, one entry at a time -----

  ghost predicate MembersRead(r: Realm, id: string, names: map<string, string>)
    requires id in r.groups
  {
    && (forall uid | uid in r.groups[id].members ::
          uid in r.users && r.users[uid] in names && names[r.users[uid]] == uid)
    && (forall u | u in names :: names[u] in r.groups[id].members && names[u] in r.users && r.users[names[u]] == u)
  }

  predicate Called(u: User, name: string) {
    TrimSpace(u.username) == name && name != ""
  }

  /** Every user with a name is there under it, and every entry is that of a user with the name. */
  ghost predicate ByName(users: seq<User>, names: map<string, string>) {
    && (forall u, n | u in users && Called(u, n) :: n in names)
    && (forall n | n in names :: exists u | u in users :: Called(u, n) && names[n] == TrimSpace(u.id))
  }

  lemma {:induction false} AllMembersRead(r: Realm, id: string, users: seq<User>, names: map<string, string>)
    requires ValidUsers(r) && id in r.groups && MembersListed(r, id, users) && ByName(users, names)
    ensures MembersRead(r, id, names)
  {
    forall u | u in names
      ensures names[u] in r.groups[id].members && names[u] in r.users && r.users[names[u]] == u
    {
      var user :| user in users && Called(user, u) && names[u] == TrimSpace(user.id);
      assert ValidUser(r, user.id);
    }
    forall uid | uid in r.groups[id].members
      ensures uid in r.users && r.users[uid] in names && names[r.users[uid]] == uid
    {
      assert ValidUser(r, uid);
      assert User(uid, r.users[uid]) in users && Called(User(uid, r.users[uid]), r.users[uid]);
    }
  }

  /** A listed group maps as its place and attributes say. */
  lemma {:induction false} ListedMapping(zone: string, r: Realm, g: Group)
    requires g.id in r.groups && r.groups[g.id].segs != [] && g == GroupOf(r, g.id)
    ensures NameIn(ZoneNaming(zone), r, g.id) == Mapping(zone, g)
  {
    MappingIgnoresId(zone, g, Group("", g.path, g.name, g.attributes));
  }

  lemma {:induction false} MappingIgnoresId(zone: string, g: Group, h: Group)
    requires g.path == h.path && g.name == h.name && g.attributes == h.attributes
    ensures Mapping(zone, g) == Mapping(zone, h)
  {
  }

  function MappingIn(zone: string): Group -> Option<string> {
    (g: Group) => Mapping(zone, g)
  }

  /** An entry tells what one group is like. */
  ghost predicate Describes(zone: string, r: Realm, g: Group, m: MirrorGroup) {
    && m.zone == zone && m.id == g.id && m.path == g.path
    && g.id in r.groups && MembersRead(r, g.id, m.members)
  }

  ghost function GroupMakes(zone: string, r: Realm): (Group, MirrorGroup) -> bool {
    (g: Group, m: MirrorGroup) => Describes(zone, r, g, m)
  }

  /** Every group that is a mirror has an entry, read from the last of the groups that mirror its name. */
  ghost predicate MirrorsRead(zone: string, r: Realm, groups: seq<Group>, snapshot: MirrorSnapshot) {
    LastWins(MappingIn(zone), GroupMakes(zone, r), groups, snapshot)
  }

  /** Keycloak gives every group an id and a path, with no whitespace around them. */
  lemma {:induction false} ListedIsSpelled(r: Realm, g: Group)
    requires ValidRealm(r) && Listed(r, g)
    ensures TrimSpace(g.id) == g.id != "" && TrimSpace(g.path) == g.path != ""
  {
    assert ValidRecord(r, g.id);
    CleanNamesPath(r.groups[g.id].segs);
    PathStart(r.groups[g.id].segs);
  }

  /** The entry of a name in a snapshot of the listed groups. */
  lemma {:induction false} EntryRead(zone: string, r: Realm, groups: seq<Group>, snapshot: MirrorSnapshot, n: string)
    returns (g: Group)
    requires MirrorsRead(zone, r, groups, snapshot) && n in snapshot
    ensures g in groups && Mapping(zone, g) == Some(n) && Describes(zone, r, g, snapshot[n])
  {
    var key, makes := MappingIn(zone), GroupMakes(zone, r);
    assert MadeOfLast(key, makes, groups, n, snapshot[n]);
    var k: nat :| LastAt(key, groups, k, n) && makes(groups[k], snapshot[n]);
    g := groups[k];
  }

  lemma {:induction false} AllMirrorsRead(zone: string, r: Realm, groups: seq<Group>, snapshot: MirrorSnapshot)
    requires MirrorsRead(zone, r, groups, snapshot) && GroupsListed(r, groups)
    ensures IsSnapshot(ZoneNaming(zone), r, snapshot)
    ensures forall n | n in snapshot :: snapshot[n].zone == zone
  {
    var naming := ZoneNaming(zone);
    forall id | id in r.groups && NameIn(naming, r, id).Some?
      ensures NameIn(naming, r, id).value in snapshot
    {
      var g :| g in groups && g.id == id;
      ListedMapping(zone, r, g);
      assert MappingIn(zone)(g) == Mapping(zone, g);
    }
    forall n | n in snapshot
      ensures snapshot[n].zone == zone && snapshot[n].id in r.groups && NameIn(naming, r, snapshot[n].id) == Some(n)
              && Mirrored(r, snapshot[n].id, snapshot[n])
    {
      var g := EntryRead(zone, r, groups, snapshot, n);
      ListedMapping(zone, r, g);
    }
  }
}
