/** Why flattening the forest that Keycloak lists finds every group of the realm, once. */
module Listings {
  import opened Text
  import opened Paths
  import opened Groups
  import opened Flattening
  import opened Realms
  import opened KeycloakServer

  function GroupOf(r: Realm, id: string): Group
    requires id in r.groups && r.groups[id].segs != []
  {
    Group(id, PathOf(r.groups[id].segs), Name(r.groups[id].segs), r.groups[id].attributes)
  }

  /** The group is in the realm, and is listed with its path, name and attributes. */
  predicate Listed(r: Realm, g: Group) {
    g.id in r.groups && r.groups[g.id].segs != [] && g == GroupOf(r, g.id)
  }

  function GroupsOf(nodes: seq<GroupResponse>): seq<Group> {
    seq(|nodes|, i requires 0 <= i < |nodes| => nodes[i].group)
  }

  /** Every group of the realm, once, and nothing else. */
  ghost predicate GroupsListed(r: Realm, list: seq<Group>) {
    && (forall g | g in list :: g.id in r.groups && r.groups[g.id].segs != [] && g == GroupOf(r, g.id))
    && (forall id | id in r.groups :: exists g | g in list :: g.id == id)
    && (forall i, j | 0 <= i < j < |list| :: list[i].id != list[j].id)
  }

  ghost predicate Ordered(r: Realm, order: seq<string>) {
    && (forall id :: id in order <==> id in r.groups)
    && (forall id | id in r.groups :: r.groups[id].segs != [] && ValidId(id))
  }

  predicate IsResponse(r: Realm, order: seq<string>, node: GroupResponse) {
    && node.group.id in r.groups && r.groups[node.group.id].segs != []
    && node == Response(r, order, node.group.id)
  }

  lemma {:induction false} ListedAreResponses(r: Realm, order: seq<string>, p: seq<string>)
    ensures forall n | n in Listing(r, order, p) :: IsResponse(r, order, n) && IsChild(r, p, n.group.id)
    ensures |Listing(r, order, p)| == |ChildIds(r, order, p)|
  {
    ChildIdsFacts(r, order, p);
    var ids, list := ChildIds(r, order, p), Listing(r, order, p);
    forall i | 0 <= i < |list|
      ensures IsResponse(r, order, list[i]) && IsChild(r, p, list[i].group.id)
    {
      assert ids[i] in ids;
      assert list[i] == Response(r, order, ids[i]);
    }
  }

  /** A listed group's count is honest, so its children are loaded when it has any. */
  lemma {:induction false} ResponseChildren(r: Realm, order: seq<string>, node: GroupResponse)
    requires IsResponse(r, order, node) && ValidId(node.group.id)
    ensures Children(ForestOf(r, order), node) == Listing(r, order, r.groups[node.group.id].segs)
    ensures Loaded(ForestOf(r, order), node.group.id) == Listing(r, order, r.groups[node.group.id].segs)
  {
    ListedAreResponses(r, order, r.groups[node.group.id].segs);
  }

  lemma {:induction false} ReachedAreResponses(r: Realm, order: seq<string>, node: GroupResponse, n: nat)
    requires Ordered(r, order) && Reaches(ForestOf(r, order), node, n)
    ensures IsResponse(r, order, node)
    decreases n
  {
    var g := ForestOf(r, order);
    if n == 0 {
      ListedAreResponses(r, order, []);
    } else {
      var parent :| Reaches(g, parent, n - 1) && node in Children(g, parent);
      ReachedAreResponses(r, order, parent, n - 1);
      ResponseChildren(r, order, parent);
      ListedAreResponses(r, order, r.groups[parent.group.id].segs);
    }
  }

  lemma {:induction false} ListedBelow(r: Realm, order: seq<string>, id: string)
    requires Ordered(r, order) && id in r.groups
    ensures Response(r, order, id) in Listing(r, order, Init(r.groups[id].segs))
  {
    var p := Init(r.groups[id].segs);
    ChildIdsFacts(r, order, p);
    var ids := ChildIds(r, order, p);
    var i :| 0 <= i < |ids| && ids[i] == id;
    assert Listing(r, order, p)[i] == Response(r, order, id);
  }

  lemma {:induction false} EveryGroupReached(r: Realm, order: seq<string>, id: string)
    requires Ordered(r, order) && PrefixClosed(r) && id in r.groups
    ensures Reachable(ForestOf(r, order), Response(r, order, id))
    decreases |r.groups[id].segs|
  {
    var g, segs := ForestOf(r, order), r.groups[id].segs;
    ListedBelow(r, order, id);
    if |segs| == 1 {
      assert Init(segs) == [];
      assert Reaches(g, Response(r, order, id), 0);
    } else {
      assert Realms.HasParent(r, id);
      var pid :| At(r, Init(segs), pid);
      EveryGroupReached(r, order, pid);
      var parent := Response(r, order, pid);
      ResponseChildren(r, order, parent);
      ChildrenReachable(g, parent);
    }
  }

  lemma {:induction false} ForestHonest(r: Realm, order: seq<string>)
    requires Ordered(r, order)
    ensures Honest(ForestOf(r, order))
  {
    var g := ForestOf(r, order);
    forall a | Reachable(g, a) ensures IsResponse(r, order, a) {
      var n: nat :| Reaches(g, a, n);
      ReachedAreResponses(r, order, a, n);
    }
  }

  lemma {:induction false} CoveredIsListed(r: Realm, order: seq<string>, out: seq<GroupResponse>, id: string)
    requires id in r.groups && r.groups[id].segs != [] && id != "" && Covered(out, Response(r, order, id))
    ensures exists g | g in GroupsOf(out) :: g.id == id
  {
    var node :| node in out && node.group.id == id;
    var i :| 0 <= i < |out| && out[i] == node;
    assert GroupsOf(out)[i].id == id;
  }

  /** Flattening what Keycloak lists gives every group of the realm exactly once. */
  lemma {:induction false} ForestFlattened(r: Realm, order: seq<string>)
    requires Ordered(r, order) && PrefixClosed(r)
    ensures GroupsListed(r, GroupsOf(Flatten(ForestOf(r, order))))
  {
    var g := ForestOf(r, order);
    var out := Flatten(g);
    ForestHonest(r, order);
    FlattenComplete(g);
    forall node | node in out ensures IsResponse(r, order, node) {
      var n: nat :| Reaches(g, node, n);
      ReachedAreResponses(r, order, node, n);
    }
    forall id | id in r.groups ensures exists x | x in GroupsOf(out) :: x.id == id {
      EveryGroupReached(r, order, id);
      CoveredIsListed(r, order, out, id);
    }
    ResponsesListed(r, order, out);
  }

  lemma {:induction false} ResponsesListed(r: Realm, order: seq<string>, out: seq<GroupResponse>)
    requires (forall node | node in out :: IsResponse(r, order, node)) && DistinctIds(out)
    requires Ordered(r, order)
    ensures forall g | g in GroupsOf(out) :: g.id in r.groups && r.groups[g.id].segs != [] && g == GroupOf(r, g.id)
    ensures forall i, j | 0 <= i < j < |GroupsOf(out)| :: GroupsOf(out)[i].id != GroupsOf(out)[j].id
  {
    forall i | 0 <= i < |out|
      ensures out[i].group.id in r.groups && out[i].group == GroupOf(r, out[i].group.id) && out[i].group.id != ""
    {
      assert out[i] in out;
    }
  }

  /** A clean group is the one a text path names exactly when their normal forms agree. */
  lemma {:induction false} PathMatches(segs: seq<string>, path: string)
    requires segs != [] && CleanNames(segs)
    ensures Normalize(PathOf(segs)) == Normalize(path) <==> segs == Segments(path)
  {
    CleanNamesPath(segs);
    NormalizeRooted(path);
    PathStart(segs);
    if TrimSpace(path) != "" && PathOf(segs) == PathOf(Segments(path)) {
      PathInjective(segs, Segments(path));
    }
  }
}
