/** In which order the groups of a realm are listed, given the order in which Keycloak lists the children of each. */
module ForestOrders {
  import opened Groups
  import opened Flattening
  import opened Realms
  import opened KeycloakServer
  import opened Listings

  /** The flat listing for an order of the groups, and its ids. */
  function ListedIn(r: Realm, order: seq<string>): seq<Group> {
    GroupsOf(Flatten(ForestOf(r, order)))
  }

  function IdsOf(out: seq<GroupResponse>): seq<string> {
    seq(|out|, i requires 0 <= i < |out| => out[i].group.id)
  }

  function ListedIds(r: Realm, order: seq<string>): seq<string> {
    IdsOf(Flatten(ForestOf(r, order)))
  }

  predicate Earlier(ids: seq<string>, a: string, b: string) {
    exists i, j | 0 <= i < j < |ids| :: ids[i] == a && ids[j] == b
  }

  lemma {:induction false} EarlierOrLater(ids: seq<string>, a: string, b: string)
    requires a in ids && b in ids && a != b
    ensures Earlier(ids, a, b) || Earlier(ids, b, a)
  {
    var i :| 0 <= i < |ids| && ids[i] == a;
    var j :| 0 <= j < |ids| && ids[j] == b;
    assert i < j || j < i;
  }

  lemma {:induction false} NotBothWays(ids: seq<string>, a: string, b: string)
    requires NoRepeats(ids) && Earlier(ids, a, b)
    ensures !Earlier(ids, b, a) && a != b
  {
    var i, j :| 0 <= i < j < |ids| && ids[i] == a && ids[j] == b;
    forall k, l | 0 <= k < l < |ids| ensures !(ids[k] == b && ids[l] == a) {
      assert ids[k] == b ==> k == j;
      assert ids[l] == a ==> l == i;
    }
  }

  lemma {:induction false} EarlierAt(ids: seq<string>, a: string, k: nat)
    requires k < |ids| && a in ids[..k]
    ensures Earlier(ids, a, ids[k])
  {
    var i :| 0 <= i < k && ids[..k][i] == a;
    assert ids[i] == a;
  }

  // ----- one turn of the walk -----

  /** The children of a group come in the order given. */
  lemma {:induction false} ChildIdsKeepOrder(r: Realm, order: seq<string>, p: seq<string>, d: string, n: nat)
    requires NoRepeats(order) && n < |ChildIds(r, order, p)|
    requires IsChild(r, p, d) && Earlier(order, d, ChildIds(r, order, p)[n])
    ensures d in ChildIds(r, order, p)[..n]
  {
    var ids, c := ChildIds(r, order, p), ChildIds(r, order, p)[n];
    var i, j :| 0 <= i < j < |order| && order[i] == d && order[j] == c;
    var rest := order[1..];
    assert NoRepeats(rest);
    assert order[0] != c;
    if order[0] == d {
      assert ids == [d] + ChildIds(r, rest, p);
      assert n > 0;
      assert ids[..n][0] == d;
    } else {
      assert rest[i - 1] == d && rest[j - 1] == c;
      if IsChild(r, p, order[0]) {
        assert ids == [order[0]] + ChildIds(r, rest, p);
        ChildIdsKeepOrder(r, rest, p, d, n - 1);
        assert ids[..n] == [order[0]] + ChildIds(r, rest, p)[..n - 1];
      } else {
        assert ids == ChildIds(r, rest, p);
        ChildIdsKeepOrder(r, rest, p, d, n);
      }
    }
  }

  /** Every group once. */
  ghost predicate AllOnce(r: Realm, ids: seq<string>) {
    && NoRepeats(ids) && (forall id :: id in ids <==> id in r.groups)
    && forall i | 0 <= i < |ids| :: ids[i] in r.groups && r.groups[ids[i]].segs != []
  }

  /** The groups directly below a path that come before a listed one in the order are listed before it. */
  ghost predicate SiblingsListed(r: Realm, order: seq<string>, ids: seq<string>, k: nat, p: seq<string>)
    requires k < |ids|
  {
    forall d | IsChild(r, p, d) && Earlier(order, d, ids[k]) :: d in ids[..k]
  }

  /** The ids are those of groups. */
  ghost predicate AllGroups(r: Realm, ids: seq<string>) {
    forall i | 0 <= i < |ids| :: ids[i] in r.groups
  }

  /** Everything directly below what has been listed since a level was entered is listed. */
  ghost predicate ChildrenListed(r: Realm, ids: seq<string>, k: nat, level: nat)
    requires k <= |ids| && AllGroups(r, ids)
  {
    forall i, e | level <= i < k && IsChild(r, r.groups[ids[i]].segs, e) :: e in ids[..k]
  }

  /** The level at which a group is listed is that of its siblings, the groups directly below the same path. */
  ghost predicate ListedAtLevel(
    r: Realm, order: seq<string>, ids: seq<string>, k: nat, level: nat, p: seq<string>)
    requires k < |ids| && AllGroups(r, ids)
  {
    && level <= k && IsChild(r, p, ids[k]) && (if level == 0 then p == [] else p == r.groups[ids[level - 1]].segs)
    && SiblingsListed(r, order, ids, k, p) && ChildrenListed(r, ids, k, level)
  }

  ghost predicate InItsTurn(r: Realm, order: seq<string>, ids: seq<string>, k: nat)
    requires k < |ids| && AllGroups(r, ids)
  {
    exists level, p :: ListedAtLevel(r, order, ids, k, level, p)
  }

  /** The ids of a listing: every group once, each in its turn. */
  ghost predicate IsListing(r: Realm, order: seq<string>, ids: seq<string>) {
    AllOnce(r, ids) && AllGroups(r, ids) && forall k | 0 <= k < |ids| :: InItsTurn(r, order, ids, k)
  }

  lemma {:induction false} PrefixCovered(
    r: Realm, order: seq<string>, out: seq<GroupResponse>, k: nat, list: seq<GroupResponse>, d: string)
    requires Ordered(r, order) && k <= |out| && AllCovered(out[..k], list) && d in r.groups
    requires r.groups[d].segs != [] && Response(r, order, d) in list
    ensures d in IdsOf(out)[..k]
  {
    assert ValidId(d);
    assert Covered(out[..k], Response(r, order, d));
    var node :| node in out[..k] && node.group.id == d;
    var i :| 0 <= i < k && out[..k][i] == node;
    assert IdsOf(out)[..k][i] == d;
  }

  lemma {:induction false} OutIsResponses(r: Realm, order: seq<string>)
    requires Ordered(r, order)
    ensures forall i | 0 <= i < |Flatten(ForestOf(r, order))| :: IsResponse(r, order, Flatten(ForestOf(r, order))[i])
  {
    var g := ForestOf(r, order);
    var out := Flatten(g);
    ForestHonest(r, order);
    FlattenComplete(g);
    forall i | 0 <= i < |out| ensures IsResponse(r, order, out[i]) {
      assert out[i] in out;
      var n: nat :| Reaches(g, out[i], n);
      ReachedAreResponses(r, order, out[i], n);
    }
  }

  /** The list of a level holds the groups directly below one path. */
  lemma {:induction false} LevelList(r: Realm, order: seq<string>, out: seq<GroupResponse>, level: nat)
    returns (p: seq<string>)
    requires Ordered(r, order) && out == Flatten(ForestOf(r, order)) && level <= |out|
    ensures ListAt(ForestOf(r, order), ForestOf(r, order).roots, out, 0, level) == Listing(r, order, p)
    ensures level == 0 ==> p == []
    ensures level > 0 ==> out[level - 1].group.id in r.groups && p == r.groups[out[level - 1].group.id].segs
  {
    p := [];
    if level > 0 {
      OutIsResponses(r, order);
      ResponseChildren(r, order, out[level - 1]);
      p := r.groups[out[level - 1].group.id].segs;
    }
  }

  lemma {:induction false} SiblingsTold(
    r: Realm, order: seq<string>, out: seq<GroupResponse>, k: nat, p: seq<string>, n: nat)
    requires IsOrder(r, order) && Ordered(r, order) && k < |out| && n < |Listing(r, order, p)|
    requires out[k] == Listing(r, order, p)[n] && AllCovered(out[..k], Listing(r, order, p)[..n])
    ensures IsChild(r, p, out[k].group.id) && SiblingsListed(r, order, IdsOf(out), k, p)
  {
    var list, children := Listing(r, order, p), ChildIds(r, order, p);
    ListedAreResponses(r, order, p);
    assert out[k] in list && children[n] == out[k].group.id;
    forall d | IsChild(r, p, d) && Earlier(order, d, out[k].group.id) ensures d in IdsOf(out)[..k] {
      ChildIdsKeepOrder(r, order, p, d, n);
      var m :| 0 <= m < n && children[m] == d;
      assert list[..n][m] == Response(r, order, d);
      PrefixCovered(r, order, out, k, list[..n], d);
    }
  }

  lemma {:induction false} ChildrenTold(r: Realm, order: seq<string>, out: seq<GroupResponse>, k: nat, level: nat)
    requires Ordered(r, order) && out == Flatten(ForestOf(r, order))
    requires k <= |out| && Closed(ForestOf(r, order), out[..k], level)
    ensures AllGroups(r, IdsOf(out)) && ChildrenListed(r, IdsOf(out), k, level)
  {
    var g := ForestOf(r, order);
    OutIsResponses(r, order);
    forall i, e | level <= i < k && IsChild(r, r.groups[IdsOf(out)[i]].segs, e) ensures e in IdsOf(out)[..k] {
      assert out[..k][i] == out[i];
      ResponseChildren(r, order, out[i]);
      ListedBelow(r, order, e);
      PrefixCovered(r, order, out, k, Children(g, out[i]), e);
    }
  }

  /** What a turn of the walk says about the ids. */
  lemma {:induction false} TurnTold(
    r: Realm, order: seq<string>, out: seq<GroupResponse>, ids: seq<string>, k: nat)
    returns (level: nat, p: seq<string>)
    requires IsOrder(r, order) && Ordered(r, order) && out == Flatten(ForestOf(r, order)) && k < |out|
    requires ids == IdsOf(out)
    ensures AllGroups(r, ids) && level <= k < |ids| && IsChild(r, p, ids[k])
    ensures level == 0 ==> p == []
    ensures level > 0 ==> p == r.groups[ids[level - 1]].segs
    ensures SiblingsListed(r, order, ids, k, p) && ChildrenListed(r, ids, k, level)
  {
    var g := ForestOf(r, order);
    var n: nat;
    FlattenInTurn(g, k);
    level, n :| 0 <= level <= k && n < |ListAt(g, g.roots, out, 0, level)| &&
                Taken(g, g.roots, out, 0, k, level, n);
    p := LevelList(r, order, out, level);
    SiblingsTold(r, order, out, k, p, n);
    ChildrenTold(r, order, out, k, level);
  }

  lemma {:induction false} ToldIsTurn(
    r: Realm, order: seq<string>, ids: seq<string>, k: nat, level: nat, p: seq<string>)
    requires AllGroups(r, ids) && level <= k < |ids| && IsChild(r, p, ids[k])
    requires level == 0 ==> p == []
    requires level > 0 ==> p == r.groups[ids[level - 1]].segs
    requires SiblingsListed(r, order, ids, k, p) && ChildrenListed(r, ids, k, level)
    ensures InItsTurn(r, order, ids, k)
  {
    assert ListedAtLevel(r, order, ids, k, level, p);
  }

  lemma {:induction false} ListedOnce(r: Realm, list: seq<Group>, ids: seq<string>)
    requires GroupsListed(r, list) && |ids| == |list| && forall i | 0 <= i < |ids| :: ids[i] == list[i].id
    ensures AllOnce(r, ids)
  {
    assert forall i | 0 <= i < |ids| :: list[i] in list;
    forall id | id in r.groups ensures id in ids {
      var g :| g in list && g.id == id;
      var i :| 0 <= i < |list| && list[i] == g;
      assert ids[i] == id;
    }
  }

  lemma {:induction false} RealmIsOrdered(r: Realm, order: seq<string>)
    requires ValidRealm(r) && IsOrder(r, order)
    ensures Ordered(r, order)
  {
    assert forall id | id in r.groups :: ValidRecord(r, id);
  }

  lemma {:induction false} AllInTurn(r: Realm, order: seq<string>)
    requires IsOrder(r, order) && Ordered(r, order)
    requires AllGroups(r, ListedIds(r, order))
    ensures forall k | 0 <= k < |ListedIds(r, order)| :: InItsTurn(r, order, ListedIds(r, order), k)
  {
    var out, ids := Flatten(ForestOf(r, order)), ListedIds(r, order);
    forall k | 0 <= k < |ids| ensures InItsTurn(r, order, ids, k) {
      var level, p := TurnTold(r, order, out, ids, k);
      ToldIsTurn(r, order, ids, k, level, p);
    }
  }

  lemma {:induction false} ListingIsListing(r: Realm, order: seq<string>)
    requires ValidRealm(r) && IsOrder(r, order)
    ensures IsListing(r, order, ListedIds(r, order))
    ensures GroupsListed(r, ListedIn(r, order))
  {
    RealmIsOrdered(r, order);
    ForestFlattened(r, order);
    ListedOnce(r, ListedIn(r, order), ListedIds(r, order));
    AllInTurn(r, order);
  }

  lemma {:induction false} ListedWithIds(r: Realm, order: seq<string>)
    requires ValidRealm(r) && IsOrder(r, order)
    ensures var list, ids := ListedIn(r, order), ListedIds(r, order);
            && GroupsListed(r, list) && NoRepeats(ids)
            && |ids| == |list| && forall i | 0 <= i < |ids| :: ids[i] == list[i].id
  {
    RealmIsOrdered(r, order);
    ForestFlattened(r, order);
    ListedOnce(r, ListedIn(r, order), ListedIds(r, order));
  }

  // ----- which group is listed earlier -----

  /** What is above a group is listed before it. */
  lemma {:induction false} AboveEarlier(r: Realm, order: seq<string>, ids: seq<string>, a: string, k: nat)
    requires ValidRealm(r) && IsListing(r, order, ids) && k < |ids| && a in r.groups
    requires r.groups[a].segs < r.groups[ids[k]].segs
    ensures a in ids[..k]
    decreases |r.groups[ids[k]].segs|
  {
    assert InItsTurn(r, order, ids, k);
    var level: nat, p :| ListedAtLevel(r, order, ids, k, level, p);
    assert ValidRecord(r, a);
    assert r.groups[a].segs <= p;
    assert ids[level - 1] == ids[..k][level - 1];
    if r.groups[a].segs != p {
      AboveEarlier(r, order, ids, a, level - 1);
      var i :| 0 <= i < level - 1 && ids[..level - 1][i] == a;
      assert ids[..k][i] == a;
    }
  }

  /** What lies below an earlier sibling was listed since the level was entered. */
  lemma {:induction false} BelowSiblingEarlier(
    r: Realm, order: seq<string>, ids: seq<string>, k: nat, level: nat, p: seq<string>, d: string, x: string)
    returns (i: nat)
    requires ValidRealm(r) && IsListing(r, order, ids) && k < |ids| && ListedAtLevel(r, order, ids, k, level, p)
    requires IsChild(r, p, d) && Earlier(order, d, ids[k])
    requires x in r.groups && r.groups[d].segs <= r.groups[x].segs
    ensures level <= i < k && ids[i] == x
    decreases |r.groups[x].segs|
  {
    var segs := r.groups[x].segs;
    if segs == r.groups[d].segs {
      assert x == d;
      i := IndexIn(ids, k, x);
      FirstOfLevel(r, order, ids, k, level, p, i);
    } else {
      assert r.groups[d].segs <= Init(segs);
      assert Realms.HasParent(r, x);
      var parent :| At(r, Init(segs), parent);
      var j := BelowSiblingEarlier(r, order, ids, k, level, p, d, parent);
      assert IsChild(r, r.groups[ids[j]].segs, x);
      i := IndexIn(ids, k, x);
      AboveEarlier(r, order, ids, parent, i);
      var l := IndexIn(ids, i, parent);
      assert l == j;
    }
  }

  lemma {:induction false} IndexIn(ids: seq<string>, k: nat, id: string) returns (i: nat)
    requires k <= |ids| && id in ids[..k]
    ensures i < k && ids[i] == id
  {
    i :| 0 <= i < k && ids[..k][i] == id;
  }

  /** A sibling comes after the parent, so after the level was entered. */
  lemma {:induction false} FirstOfLevel(
    r: Realm, order: seq<string>, ids: seq<string>, k: nat, level: nat, p: seq<string>, i: nat)
    requires ValidRealm(r) && IsListing(r, order, ids) && k < |ids| && ListedAtLevel(r, order, ids, k, level, p)
    requires i < |ids| && IsChild(r, p, ids[i])
    ensures level <= i
  {
    if level > 0 {
      AboveEarlier(r, order, ids, ids[level - 1], i);
      var l := IndexIn(ids, i, ids[level - 1]);
      assert l == level - 1;
    }
  }

  /** The two groups lie below, or are, siblings of which the first one's comes first. */
  ghost predicate BranchesBefore(r: Realm, order: seq<string>, a: string, b: string)
    requires a in r.groups && b in r.groups
  {
    exists p, d, c ::
      && IsChild(r, p, d) && IsChild(r, p, c) && Earlier(order, d, c)
      && r.groups[d].segs <= r.groups[a].segs && r.groups[c].segs <= r.groups[b].segs
  }

  lemma {:induction false} BranchEarlier(r: Realm, order: seq<string>, ids: seq<string>, a: string, b: string)
    requires ValidRealm(r) && IsListing(r, order, ids) && a in r.groups && b in r.groups
    requires BranchesBefore(r, order, a, b)
    ensures Earlier(ids, a, b)
  {
    var p, d, c :|
      && IsChild(r, p, d) && IsChild(r, p, c) && Earlier(order, d, c)
      && r.groups[d].segs <= r.groups[a].segs && r.groups[c].segs <= r.groups[b].segs;
    assert ids[..|ids|] == ids;
    var k := IndexIn(ids, |ids|, c);
    var j := IndexIn(ids, |ids|, b);
    assert InItsTurn(r, order, ids, k);
    var level: nat, q :| ListedAtLevel(r, order, ids, k, level, q);
    var i := BelowSiblingEarlier(r, order, ids, k, level, q, d, a);
    NotEarlierThanAbove(r, order, ids, k, j);
    assert i < j;
  }

  lemma {:induction false} NotEarlierThanAbove(r: Realm, order: seq<string>, ids: seq<string>, k: nat, j: nat)
    requires ValidRealm(r) && IsListing(r, order, ids) && k < |ids| && j < |ids|
    requires r.groups[ids[k]].segs <= r.groups[ids[j]].segs
    ensures k <= j
  {
    if r.groups[ids[k]].segs == r.groups[ids[j]].segs {
      assert ids[k] == ids[j];
      assert k < j || j < k || k == j;
    } else {
      AboveEarlier(r, order, ids, ids[k], j);
      var l := IndexIn(ids, j, ids[k]);
      assert l == k;
    }
  }

  lemma {:induction false} AboveOrBranches(r: Realm, order: seq<string>, a: string, b: string)
    requires ValidRealm(r) && IsOrder(r, order) && a in r.groups && b in r.groups && a != b
    ensures || r.groups[a].segs < r.groups[b].segs || r.groups[b].segs < r.groups[a].segs
            || BranchesBefore(r, order, a, b) || BranchesBefore(r, order, b, a)
  {
    var s, t := r.groups[a].segs, r.groups[b].segs;
    assert s != t;
    if !(s <= t) && !(t <= s) {
      var d, c := Fork(r, a, b);
      var p := Init(r.groups[d].segs);
      assert IsChild(r, p, d) && IsChild(r, p, c);
      EarlierOrLater(order, d, c);
    }
  }

  /** Two groups of which none lies above the other lie below different siblings. */
  lemma {:induction false} Fork(r: Realm, a: string, b: string) returns (d: string, c: string)
    requires ValidRealm(r) && a in r.groups && b in r.groups
    requires !(r.groups[a].segs <= r.groups[b].segs) && !(r.groups[b].segs <= r.groups[a].segs)
    ensures d in r.groups && c in r.groups && d != c && r.groups[d].segs != [] && r.groups[c].segs != []
    ensures Init(r.groups[d].segs) == Init(r.groups[c].segs)
    ensures r.groups[d].segs <= r.groups[a].segs && r.groups[c].segs <= r.groups[b].segs
  {
    var s, t := r.groups[a].segs, r.groups[b].segs;
    var n := FirstDifference(s, t);
    assert At(r, s, a) && At(r, t, b);
    AncestorsExist(r, s, s[..n + 1]);
    AncestorsExist(r, t, t[..n + 1]);
    d :| At(r, s[..n + 1], d);
    c :| At(r, t[..n + 1], c);
    assert s[..n + 1][n] != t[..n + 1][n];
    assert s[..n + 1][..n] == s[..n] && t[..n + 1][..n] == t[..n];
  }

  lemma {:induction false} FirstDifference(s: seq<string>, t: seq<string>) returns (n: nat)
    requires !(s <= t) && !(t <= s)
    ensures n < |s| && n < |t| && s[..n] == t[..n] && s[n] != t[n]
  {
    if s[0] != t[0] {
      n := 0;
    } else {
      assert s == [s[0]] + s[1..] && t == [t[0]] + t[1..];
      n := FirstDifference(s[1..], t[1..]);
      n := n + 1;
      assert s[..n] == [s[0]] + s[1..][..n - 1] && t[..n] == [t[0]] + t[1..][..n - 1];
    }
  }

  /** Exactly when a group is listed before another: it lies above it, or below an earlier sibling of one that is or
      lies above the other. */
  lemma {:induction false} ListedBefore(r: Realm, order: seq<string>, a: string, b: string)
    requires ValidRealm(r) && IsOrder(r, order) && a in r.groups && b in r.groups
    ensures Earlier(ListedIds(r, order), a, b) <==>
            r.groups[a].segs < r.groups[b].segs || BranchesBefore(r, order, a, b)
  {
    var ids := ListedIds(r, order);
    ListingIsListing(r, order);
    if r.groups[a].segs < r.groups[b].segs || BranchesBefore(r, order, a, b) {
      AboveOrBranchEarlier(r, order, ids, a, b);
    }
    if r.groups[b].segs < r.groups[a].segs || BranchesBefore(r, order, b, a) {
      AboveOrBranchEarlier(r, order, ids, b, a);
    }
    if Earlier(ids, a, b) {
      NotBothWays(ids, a, b);
      AboveOrBranches(r, order, a, b);
    }
  }

  lemma {:induction false} ListedAbove(r: Realm, order: seq<string>, a: string, b: string)
    requires ValidRealm(r) && IsOrder(r, order) && a in r.groups && b in r.groups
    requires r.groups[a].segs < r.groups[b].segs
    ensures Earlier(ListedIds(r, order), a, b)
  {
    ListedBefore(r, order, a, b);
  }

  lemma {:induction false} AboveOrBranchEarlier(r: Realm, order: seq<string>, ids: seq<string>, a: string, b: string)
    requires ValidRealm(r) && IsListing(r, order, ids) && a in r.groups && b in r.groups
    requires r.groups[a].segs < r.groups[b].segs || BranchesBefore(r, order, a, b)
    ensures Earlier(ids, a, b)
  {
    if r.groups[a].segs < r.groups[b].segs {
      assert ids[..|ids|] == ids;
      var k := IndexIn(ids, |ids|, b);
      AboveEarlier(r, order, ids, a, k);
      EarlierAt(ids, a, k);
    } else {
      BranchEarlier(r, order, ids, a, b);
    }
  }

  // ----- an order that comes to a group as late as possible -----

  function Filter(ids: seq<string>, keep: string -> bool): seq<string> {
    if ids == [] then [] else (if keep(ids[0]) then [ids[0]] else []) + Filter(ids[1..], keep)
  }

  lemma {:induction false} FilterFacts(ids: seq<string>, keep: string -> bool)
    ensures forall id :: id in Filter(ids, keep) <==> id in ids && keep(id)
    ensures NoRepeats(ids) ==> NoRepeats(Filter(ids, keep))
  {
    if ids != [] {
      FilterFacts(ids[1..], keep);
      assert ids == [ids[0]] + ids[1..];
      assert NoRepeats(ids) ==> NoRepeats(ids[1..]) && ids[0] !in ids[1..];
    }
  }

  /** The group is, or lies above, another. */
  function OnTheWay(r: Realm, t: string): string -> bool
    requires t in r.groups
  {
    (id: string) => id in r.groups && r.groups[id].segs <= r.groups[t].segs
  }

  function OffTheWay(r: Realm, t: string): string -> bool
    requires t in r.groups
  {
    (id: string) => !(id in r.groups && r.groups[id].segs <= r.groups[t].segs)
  }

  /** The way down to a group comes last. */
  function LatestFor(r: Realm, order: seq<string>, t: string): seq<string>
    requires t in r.groups
  {
    Filter(order, OffTheWay(r, t)) + Filter(order, OnTheWay(r, t))
  }

  lemma {:induction false} JoinNoRepeats(a: seq<string>, b: seq<string>)
    requires NoRepeats(a) && NoRepeats(b) && forall x | x in a :: x !in b
    ensures NoRepeats(a + b)
  {
    forall i, j | 0 <= i < j < |a + b| ensures (a + b)[i] != (a + b)[j] {
      assert i < |a| ==> (a + b)[i] in a;
      assert j >= |a| ==> (a + b)[j] in b;
    }
  }

  lemma {:induction false} LatestIsOrder(r: Realm, order: seq<string>, t: string)
    requires IsOrder(r, order) && t in r.groups
    ensures IsOrder(r, LatestFor(r, order, t))
  {
    FilterFacts(order, OffTheWay(r, t));
    FilterFacts(order, OnTheWay(r, t));
    JoinNoRepeats(Filter(order, OffTheWay(r, t)), Filter(order, OnTheWay(r, t)));
  }

  lemma {:induction false} OffBeforeOn(r: Realm, order: seq<string>, t: string, d: string, c: string)
    requires IsOrder(r, order) && t in r.groups && d in r.groups && c in r.groups
    requires OffTheWay(r, t)(d) && OnTheWay(r, t)(c)
    ensures Earlier(LatestFor(r, order, t), d, c)
  {
    FilterFacts(order, OffTheWay(r, t));
    FilterFacts(order, OnTheWay(r, t));
    var off, on := Filter(order, OffTheWay(r, t)), Filter(order, OnTheWay(r, t));
    var i :| 0 <= i < |off| && off[i] == d;
    var j :| 0 <= j < |on| && on[j] == c;
    assert (off + on)[i] == d && (off + on)[|off| + j] == c;
  }

  /** In the listing for that order, only what lies below the group comes after it. */
  lemma {:induction false} ListedLatest(r: Realm, order: seq<string>, t: string, x: string)
    requires ValidRealm(r) && IsOrder(r, order) && t in r.groups && x in r.groups
    requires !(r.groups[t].segs <= r.groups[x].segs)
    ensures Earlier(ListedIds(r, LatestFor(r, order, t)), x, t)
  {
    var latest := LatestFor(r, order, t);
    LatestIsOrder(r, order, t);
    if !(r.groups[x].segs <= r.groups[t].segs) {
      var d, c := Fork(r, x, t);
      var p := Init(r.groups[d].segs);
      assert IsChild(r, p, d) && IsChild(r, p, c);
      SiblingOffTheWay(r, t, d, c);
      OffBeforeOn(r, order, t, d, c);
      assert BranchesBefore(r, latest, x, t);
    }
    ListedBefore(r, latest, x, t);
  }

  lemma {:induction false} SiblingOffTheWay(r: Realm, t: string, d: string, c: string)
    requires ValidRealm(r) && t in r.groups && d in r.groups && c in r.groups && d != c
    requires r.groups[d].segs != [] && r.groups[c].segs != [] && Init(r.groups[d].segs) == Init(r.groups[c].segs)
    requires r.groups[c].segs <= r.groups[t].segs
    ensures OffTheWay(r, t)(d) && OnTheWay(r, t)(c)
  {
    var s, u := r.groups[d].segs, r.groups[c].segs;
    assert |s| == |u|;
    assert s <= r.groups[t].segs ==> s == u;
  }

  lemma {:induction false} SomeOrder(r: Realm) returns (order: seq<string>)
    ensures IsOrder(r, order)
  {
    order := Enumerated(r.groups.Keys);
  }

  lemma {:induction false} Enumerated(ids: set<string>) returns (order: seq<string>)
    ensures NoRepeats(order) && forall id :: id in order <==> id in ids
  {
    order := [];
    if ids != {} {
      var id :| id in ids;
      order := Enumerated(ids - {id});
      order := order + [id];
    }
  }
}
