/** Reading the two systems and planning the repair (internal/workflow/repair/service.go). */
module Planner {
  import opened Text
  import opened Plans
  import opened Mirrors

  /** sortedKeys and sortedSet: the keys in whatever order the map gives them, put in order. */
  method SortedKeys(keys: set<string>) returns (sorted: seq<string>)
    ensures Ascending(sorted)
    ensures forall i, j | 0 <= i < j < |sorted| :: ComesFirst(sorted[i], sorted[j])
    ensures forall k :: k in sorted <==> k in keys
  {
    var rest := keys;
    sorted := [];
    while rest != {}
      invariant Ascending(sorted) && rest <= keys
      invariant forall k :: k in sorted <==> k in keys - rest
      decreases |rest|
    {
      var key :| key in rest;
      sorted := InsertSorted(sorted, key);
      rest := rest - {key};
    }
    forall i, j | 0 <= i < j < |sorted| ensures ComesFirst(sorted[i], sorted[j]) {
      LessIsDictionaryOrder(sorted[i], sorted[j]);
    }
  }

  method InsertSorted(keys: seq<string>, key: string) returns (r: seq<string>)
    requires Ascending(keys) && key !in keys
    ensures Ascending(r)
    ensures forall k :: k in r <==> k in keys || k == key
  {
    var at := 0;
    while at < |keys| && Less(keys[at], key)
      invariant at <= |keys| && forall i | 0 <= i < at :: Less(keys[i], key)
    {
      at := at + 1;
    }
    r := keys[..at] + [key] + keys[at..];
    assert forall i | at <= i < |keys| :: Less(key, keys[i]) by {
      if at < |keys| {
        LessTotal(keys[at], key);
        forall i | at < i < |keys| ensures Less(key, keys[i]) {
          LessTransitive(key, keys[at], keys[i]);
        }
      }
    }
    assert keys == keys[..at] + keys[at..];
  }

  lemma {:induction false} AscendingPrefix(keys: seq<string>, k: nat)
    requires Ascending(keys) && k < |keys|
    ensures forall n | n in keys[..k] :: Less(n, keys[k]) && n != keys[k]
    ensures keys[..k + 1] == keys[..k] + [keys[k]]
  {
    LessIrreflexive(keys[k]);
  }

  // ----- the plan as a sequence of differences -----

  /** How a difference becomes the operation with a number. */
  type Maker = (nat, Item) -> PlanOperation

  function MakerOf(realm: string, irods: IrodsSnapshot, mirror: MirrorSnapshot): Maker {
    (index: nat, x: Item) => Operation(index, realm, irods, mirror, x)
  }

  /** The operations for a list of differences, numbered from one. */
  function Operations(make: Maker, xs: seq<Item>): seq<PlanOperation> {
    seq(|xs|, i requires 0 <= i < |xs| => make(i + 1, xs[i]))
  }

  ghost predicate Marks(make: Maker) {
    forall i: nat, x {:trigger make(i, x)} :: make(i, x).action == ActionOf(x) && make(i, x).risk == RiskOf(x)
  }

  /** What has been planned so far: sorted differences, their operations, and the running counts. */
  datatype Draft = Draft(ops: seq<PlanOperation>, index: nat, summary: Summary)

  ghost predicate Planned(make: Maker, xs: seq<Item>, d: Draft) {
    StrictlySorted(xs) && d.ops == Operations(make, xs) && d.index == |xs| + 1 && d.summary == Summarize(d.ops)
  }

  function Bump(s: Summary, x: Item): Summary {
    match x
    case Missing(_) => s.(creates := s.creates + 1)
    case Absent(_, _) => s.(memberships := s.memberships + 1)
    case Extra(_, _) => s.(memberships := s.memberships + 1)
    case Stale(_) => s.(deletes := s.deletes + 1, approvals := s.approvals + 1)
  }

  lemma {:induction false} SummarizeSnoc(ops: seq<PlanOperation>, op: PlanOperation, x: Item)
    requires op.action == ActionOf(x) && op.risk == RiskOf(x)
    ensures Summarize(ops + [op]) == Bump(Summarize(ops), x)
  {
    var all := ops + [op];
    assert all[..|all| - 1] == ops;
  }

  lemma {:induction false} SortedSnoc(xs: seq<Item>, x: Item)
    requires StrictlySorted(xs) && forall y | y in xs :: Before(y, x)
    ensures StrictlySorted(xs + [x])
  {
    assert forall i | 0 <= i < |xs| :: xs[i] in xs;
  }

  /** Appends an operation, counts it, and moves the number on. */
  method Append(d: Draft, x: Item, make: Maker, ghost xs: seq<Item>) returns (r: Draft)
    requires Marks(make) && Planned(make, xs, d) && forall y | y in xs :: Before(y, x)
    ensures Planned(make, xs + [x], r)
  {
    var op := make(d.index, x);
    SummarizeSnoc(d.ops, op, x);
    SortedSnoc(xs, x);
    assert Operations(make, xs + [x]) == Operations(make, xs) + [op];
    r := Draft(d.ops + [op], d.index + 1, Bump(d.summary, x));
  }

  /** planRepair. Its operations are exactly the differences, each once, in strict order; its counts are right. */
  method PlanRepair(realm: string, zone: string, irods: IrodsSnapshot, mirror: MirrorSnapshot, planId: string)
    returns (plan: SyncPlan, ghost xs: seq<Item>)
    ensures IsPlan(realm, zone, irods, mirror, plan, xs) && plan.planId == planId
    ensures forall i, j | 0 <= i < j < |xs| :: PlannedBefore(xs[i], xs[j])
  {
    var d;
    d, xs := PlanAll(irods, mirror, MakerOf(realm, irods, mirror));
    plan := SyncPlan(SyncPlanV1, planId, RepairKeycloak, IRODS, realm, zone, d.summary, d.ops);
    forall i, j | 0 <= i < j < |xs| ensures PlannedBefore(xs[i], xs[j]) {
      BeforeIsPlanned(xs[i], xs[j]);
    }
  }

  /** The two loops of planRepair. */
  method PlanAll(irods: IrodsSnapshot, mirror: MirrorSnapshot, make: Maker) returns (d: Draft, ghost xs: seq<Item>)
    requires Marks(make)
    ensures Planned(make, xs, d)
    ensures forall x :: x in xs <==> InDiff(irods, mirror, x)
  {
    d, xs := Draft([], 1, Summary(0, 0, 0, 0)), [];
    var names := SortedKeys(irods.Keys);
    for k := 0 to |names|
      invariant Planned(make, xs, d)
      invariant forall x :: x in xs <==> InDiff(irods, mirror, x) && !x.Stale? && x.group in names[..k]
    {
      var g := names[k];
      AscendingPrefix(names, k);
      d, xs := PlanGroup(irods, mirror, g, make, d, xs, names[..k]);
    }
    assert names[..|names|] == names;
    d, xs := PlanDeletions(irods, mirror, make, d, xs);
  }

  /** The second loop: mirrors without an iRODS group. */
  method PlanDeletions(irods: IrodsSnapshot, mirror: MirrorSnapshot, make: Maker, d0: Draft, ghost xs0: seq<Item>)
    returns (d: Draft, ghost xs: seq<Item>)
    requires Marks(make) && Planned(make, xs0, d0)
    requires forall x :: x in xs0 <==> InDiff(irods, mirror, x) && !x.Stale?
    ensures Planned(make, xs, d)
    ensures forall x :: x in xs <==> InDiff(irods, mirror, x)
  {
    d, xs := d0, xs0;
    var names := SortedKeys(mirror.Keys);
    for k := 0 to |names|
      invariant Planned(make, xs, d)
      invariant forall x :: x in xs <==> InDiff(irods, mirror, x) && (x.Stale? ==> x.group in names[..k])
    {
      var g := names[k];
      AscendingPrefix(names, k);
      if g !in irods {
        d := Append(d, Stale(g), make, xs);
        xs := xs + [Stale(g)];
      }
    }
    assert names[..|names|] == names;
  }

  /** The body of the first loop: the creation of a group, its additions, its removals. */
  method PlanGroup(irods: IrodsSnapshot, mirror: MirrorSnapshot, g: string, make: Maker, d0: Draft,
                   ghost xs0: seq<Item>, ghost done: seq<string>)
    returns (d: Draft, ghost xs: seq<Item>)
    requires Marks(make) && Planned(make, xs0, d0)
    requires g in irods && forall n | n in done :: Less(n, g)
    requires forall x :: x in xs0 <==> InDiff(irods, mirror, x) && !x.Stale? && x.group in done
    ensures Planned(make, xs, d)
    ensures forall x :: x in xs <==> InDiff(irods, mirror, x) && !x.Stale? && (x.group in done || x.group == g)
  {
    LessIrreflexive(g);
    d, xs := d0, xs0;
    if g !in mirror {
      d := Append(d, Missing(g), make, xs);
      xs := xs + [Missing(g)];
    }
    d, xs := PlanAdditions(irods, mirror, g, make, d, xs);
    if g in mirror {
      d, xs := PlanRemovals(irods, mirror, g, make, d, xs);
    }
  }

  method PlanAdditions(irods: IrodsSnapshot, mirror: MirrorSnapshot, g: string, make: Maker, d0: Draft,
                       ghost xs0: seq<Item>)
    returns (d: Draft, ghost xs: seq<Item>)
    requires Marks(make) && Planned(make, xs0, d0) && g in irods
    requires forall y | y in xs0 :: !y.Stale? && (Less(y.group, g) || y == Missing(g))
    ensures Planned(make, xs, d)
    ensures forall x :: x in xs <==> x in xs0 || (InDiff(irods, mirror, x) && x.Absent? && x.group == g)
  {
    LessIrreflexive(g);
    d, xs := d0, xs0;
    var users := SortedKeys(irods[g].members);
    for k := 0 to |users|
      invariant Planned(make, xs, d)
      invariant forall x ::
                  x in xs <==>
                  x in xs0 || (InDiff(irods, mirror, x) && x.Absent? && x.group == g && x.user in users[..k])
    {
      var u := users[k];
      AscendingPrefix(users, k);
      if g !in mirror || u !in mirror[g].members {
        d := Append(d, Absent(g, u), make, xs);
        xs := xs + [Absent(g, u)];
      }
    }
    assert users[..|users|] == users;
  }

  method PlanRemovals(irods: IrodsSnapshot, mirror: MirrorSnapshot, g: string, make: Maker, d0: Draft,
                      ghost xs0: seq<Item>)
    returns (d: Draft, ghost xs: seq<Item>)
    requires Marks(make) && Planned(make, xs0, d0) && g in irods && g in mirror
    requires forall y | y in xs0 :: !y.Stale? && (Less(y.group, g) || (y.Absent? && y.group == g))
    ensures Planned(make, xs, d)
    ensures forall x :: x in xs <==> x in xs0 || (InDiff(irods, mirror, x) && x.Extra? && x.group == g)
  {
    LessIrreflexive(g);
    d, xs := d0, xs0;
    var users := SortedKeys(mirror[g].members.Keys);
    for k := 0 to |users|
      invariant Planned(make, xs, d)
      invariant forall x ::
                  x in xs <==>
                  x in xs0 || (InDiff(irods, mirror, x) && x.Extra? && x.group == g && x.user in users[..k])
    {
      var u := users[k];
      AscendingPrefix(users, k);
      if u !in irods[g].members {
        d := Append(d, Extra(g, u), make, xs);
        xs := xs + [Extra(g, u)];
      }
    }
    assert users[..|users|] == users;
  }

  // ----- determinism -----

  /** Two plans for the same snapshots differ at most in their ids, however the maps were enumerated. */
  lemma {:induction false} PlanIsDetermined(
    realm: string, zone: string, irods: IrodsSnapshot, mirror: MirrorSnapshot,
    p: SyncPlan, xs: seq<Item>, q: SyncPlan, ys: seq<Item>)
    requires IsPlan(realm, zone, irods, mirror, p, xs) && IsPlan(realm, zone, irods, mirror, q, ys)
    ensures p.(planId := "") == q.(planId := "") && xs == ys
  {
    OrderIsUnique(xs, ys);
  }

  /** What PlanRepair promises of a plan. */
  ghost predicate IsPlan(realm: string, zone: string, irods: IrodsSnapshot, mirror: MirrorSnapshot,
                         plan: SyncPlan, xs: seq<Item>) {
    && plan == SyncPlan(SyncPlanV1, plan.planId, RepairKeycloak, IRODS, realm, zone,
                        Summarize(plan.operations), plan.operations)
    && StrictlySorted(xs) && (forall x :: x in xs <==> InDiff(irods, mirror, x))
    && plan.operations == Operations(MakerOf(realm, irods, mirror), xs)
  }

  lemma {:induction false} PlanExists(
    realm: string, zone: string, irods: IrodsSnapshot, mirror: MirrorSnapshot, planId: string)
    returns (plan: SyncPlan, xs: seq<Item>)
    ensures IsPlan(realm, zone, irods, mirror, plan, xs) && plan.planId == planId
  {
    DiffMembers(irods, mirror);
    xs := InStrictOrder(Diff(irods, mirror));
    var ops := Operations(MakerOf(realm, irods, mirror), xs);
    plan := SyncPlan(SyncPlanV1, planId, RepairKeycloak, IRODS, realm, zone, Summarize(ops), ops);
  }

  /** A plan is as long as there are differences. */
  lemma {:induction false} PlanLength(irods: IrodsSnapshot, mirror: MirrorSnapshot, xs: seq<Item>)
    requires StrictlySorted(xs) && forall x :: x in xs <==> InDiff(irods, mirror, x)
    ensures |xs| == |Diff(irods, mirror)|
  {
    DiffMembers(irods, mirror);
    SortedHasNoRepeats(xs);
    DistinctLength(xs, Diff(irods, mirror));
  }

  lemma {:induction false} DistinctLength(xs: seq<Item>, s: set<Item>)
    requires (forall i, j | 0 <= i < j < |xs| :: xs[i] != xs[j]) && forall x :: x in xs <==> x in s
    ensures |xs| == |s|
  {
    if xs == [] {
      assert s == {};
    } else {
      var n := |xs| - 1;
      assert xs == xs[..n] + [xs[n]];
      DistinctLength(xs[..n], s - {xs[n]});
    }
  }
}
