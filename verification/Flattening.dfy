/** Flattening a listing of nested groups (ListGroups, appendGroupHierarchy), on any finite server graph. */
module Flattening {
  import opened Text
  import opened Groups

  /** What the server lists: its top-level groups, and the children it gives for an id. */
  datatype Graph = Graph(roots: seq<GroupResponse>, kids: map<string, seq<GroupResponse>>)

  /** listGroupChildren asks only for ids that are not blank. */
  function Loaded(g: Graph, id: string): seq<GroupResponse> {
    if TrimSpace(id) != "" && id in g.kids then g.kids[id] else []
  }

  /** The children that the program descends into. */
  function Children(g: Graph, node: GroupResponse): seq<GroupResponse> {
    if node.subGroupCount > 0 && Loaded(g, node.group.id) != [] then Loaded(g, node.group.id) else node.subGroups
  }

  /** Which children those are: the ones the server gives for the id, if it counts any and gives any; else the ones that
      came with the node. Nothing is asked for without an id. */
  lemma {:induction false} ChildrenChosen(g: Graph, node: GroupResponse, asked: seq<GroupResponse>)
    requires asked == if node.group.id in g.kids then g.kids[node.group.id] else []
    ensures node.subGroupCount > 0 && !Blank(node.group.id) && asked != [] ==> Children(g, node) == asked
    ensures node.subGroupCount == 0 || Blank(node.group.id) || asked == [] ==> Children(g, node) == node.subGroups
  {
  }

  function IdsIn(nodes: seq<GroupResponse>): set<string> {
    if nodes == [] then {}
    else
      (if nodes[0].group.id == "" then {} else {nodes[0].group.id}) + IdsIn(nodes[0].subGroups) + IdsIn(nodes[1..])
  }

  function Weight(nodes: seq<GroupResponse>): nat {
    if nodes == [] then 0 else 1 + Weight(nodes[0].subGroups) + Weight(nodes[1..])
  }

  /** Every id that can turn up. */
  function Universe(g: Graph): set<string> {
    IdsIn(g.roots) + set id, x | id in g.kids && x in IdsIn(g.kids[id]) :: x
  }

  lemma {:induction false} ChildrenInUniverse(g: Graph, nodes: seq<GroupResponse>)
    requires nodes != [] && IdsIn(nodes) <= Universe(g)
    ensures IdsIn(Children(g, nodes[0])) <= Universe(g) && IdsIn(nodes[1..]) <= Universe(g)
    ensures nodes[0].group.id == "" ==> Weight(Children(g, nodes[0])) < Weight(nodes)
  {
  }

  /** The walk so far: ids met, and groups collected. */
  datatype Walk = Walk(seen: set<string>, out: seq<GroupResponse>)

  /** The walk over a list of nodes. Either a new id is seen, or the inline trees that are left get smaller. */
  function Visit(g: Graph, nodes: seq<GroupResponse>, w: Walk): (r: Walk)
    requires IdsIn(nodes) <= Universe(g) && w.seen <= Universe(g)
    ensures w.seen <= r.seen <= Universe(g)
    decreases |Universe(g) - w.seen|, Weight(nodes)
  {
    if nodes == [] then w
    else
      ChildrenInUniverse(g, nodes);
      var node, rest := nodes[0], nodes[1..];
      if node.group.id in w.seen && node.group.id != "" then Visit(g, rest, w)
      else
        var entered := Enter(w, node);
        Shrinks(Universe(g), w.seen, entered.seen);
        var below := Visit(g, Children(g, node), entered);
        Shrinks(Universe(g), w.seen, below.seen);
        Visit(g, rest, below)
  }

  function Enter(w: Walk, node: GroupResponse): Walk {
    Walk(if node.group.id == "" then w.seen else w.seen + {node.group.id}, w.out + [node])
  }

  lemma {:induction false} Shrinks(all: set<string>, a: set<string>, b: set<string>)
    requires a <= b <= all
    ensures |all - b| <= |all - a|
    ensures a != b ==> |all - b| < |all - a|
  {
    assert all - a == (all - b) + (b - a);
    if a != b {
      var x :| x in b - a;
      assert |b - a| >= 1;
    }
  }

  function Flatten(g: Graph): seq<GroupResponse> {
    Visit(g, g.roots, Walk({}, [])).out
  }

  // ----- complete and duplicate-free -----

  function Emitted(out: seq<GroupResponse>): set<string> {
    set r | r in out && r.group.id != "" :: r.group.id
  }

  predicate DistinctIds(out: seq<GroupResponse>) {
    forall i, j | 0 <= i < j < |out| && out[i].group.id != "" :: out[i].group.id != out[j].group.id
  }

  /** Collected: under its id, or as it stands when it has none. */
  predicate Covered(out: seq<GroupResponse>, node: GroupResponse) {
    if node.group.id != "" then node.group.id in Emitted(out) else node in out
  }

  predicate AllCovered(out: seq<GroupResponse>, nodes: seq<GroupResponse>) {
    forall n | n in nodes :: Covered(out, n)
  }

  lemma {:induction false} CoveredStays(out: seq<GroupResponse>, more: seq<GroupResponse>, nodes: seq<GroupResponse>)
    requires out <= more && AllCovered(out, nodes)
    ensures AllCovered(more, nodes)
  {
    assert forall r | r in out :: r in more;
  }

  ghost predicate Consistent(w: Walk) {
    w.seen == Emitted(w.out) && DistinctIds(w.out)
  }

  lemma {:induction false} EnterConsistent(w: Walk, node: GroupResponse)
    requires Consistent(w) && (node.group.id == "" || node.group.id !in w.seen)
    ensures Consistent(Enter(w, node)) && Covered(Enter(w, node).out, node)
  {
    var out := w.out + [node];
    assert forall r :: r in out <==> r in w.out || r == node;
    assert forall i | 0 <= i < |w.out| :: out[i] == w.out[i] && out[i] in w.out;
  }

  /** The children of everything collected from a position on are covered. */
  predicate Closed(g: Graph, out: seq<GroupResponse>, from: nat) {
    forall i | from <= i < |out| :: AllCovered(out, Children(g, out[i]))
  }

  lemma {:induction false} JoinWalks(g: Graph, before: seq<GroupResponse>, node: GroupResponse,
                                     rest: seq<GroupResponse>, below: seq<GroupResponse>, out: seq<GroupResponse>)
    requires before + [node] <= below <= out && Covered(before + [node], node)
    requires AllCovered(below, Children(g, node)) && Closed(g, below, |before| + 1)
    requires AllCovered(out, rest) && Closed(g, out, |below|)
    ensures before <= out && AllCovered(out, [node] + rest) && Closed(g, out, |before|)
  {
    CoveredStays(before + [node], out, [node]);
    assert node in [node];
    forall i | |before| <= i < |out|
      ensures AllCovered(out, Children(g, out[i]))
    {
      if i < |below| {
        assert out[i] == below[i];
        assert i == |before| ==> below[i] == (before + [node])[i] == node;
        CoveredStays(below, out, Children(g, below[i]));
      }
    }
  }

  /** A walk only adds; no id twice; what it was given and the children of all it collected are covered. */
  lemma {:induction false} VisitCovers(g: Graph, nodes: seq<GroupResponse>, w: Walk)
    requires IdsIn(nodes) <= Universe(g) && w.seen <= Universe(g) && Consistent(w)
    ensures w.out <= Visit(g, nodes, w).out
    ensures Consistent(Visit(g, nodes, w))
    ensures AllCovered(Visit(g, nodes, w).out, nodes)
    ensures Closed(g, Visit(g, nodes, w).out, |w.out|)
    decreases |Universe(g) - w.seen|, Weight(nodes)
  {
    if nodes != [] {
      ChildrenInUniverse(g, nodes);
      var node, rest := nodes[0], nodes[1..];
      var r := Visit(g, nodes, w);
      assert nodes == [node] + rest;
      if node.group.id in w.seen && node.group.id != "" {
        VisitCovers(g, rest, w);
        CoveredStays(w.out, r.out, [node]);
        assert node in [node];
      } else {
        var entered := Enter(w, node);
        EnterConsistent(w, node);
        Shrinks(Universe(g), w.seen, entered.seen);
        VisitCovers(g, Children(g, node), entered);
        var below := Visit(g, Children(g, node), entered);
        Shrinks(Universe(g), w.seen, below.seen);
        VisitCovers(g, rest, below);
        JoinWalks(g, w.out, node, rest, below.out, r.out);
      }
    }
  }

  /** Reachable from the roots in n steps down. */
  ghost predicate Reaches(g: Graph, node: GroupResponse, n: nat)
    decreases n
  {
    if n == 0 then node in g.roots
    else exists parent :: Reaches(g, parent, n - 1) && node in Children(g, parent)
  }

  ghost predicate Reachable(g: Graph, node: GroupResponse) {
    exists n: nat :: Reaches(g, node, n)
  }

  ghost predicate AllReachable(g: Graph, nodes: seq<GroupResponse>) {
    forall n | n in nodes :: Reachable(g, n)
  }

  lemma {:induction false} ChildrenReachable(g: Graph, node: GroupResponse)
    requires Reachable(g, node)
    ensures AllReachable(g, Children(g, node))
  {
    var n: nat :| Reaches(g, node, n);
    forall c | c in Children(g, node) ensures Reachable(g, c) {
      assert Reaches(g, c, n + 1);
    }
  }

  /** Nothing else is collected. */
  lemma {:induction false} VisitReachable(g: Graph, nodes: seq<GroupResponse>, w: Walk)
    requires IdsIn(nodes) <= Universe(g) && w.seen <= Universe(g)
    requires AllReachable(g, nodes) && AllReachable(g, w.out)
    ensures AllReachable(g, Visit(g, nodes, w).out)
    decreases |Universe(g) - w.seen|, Weight(nodes)
  {
    if nodes != [] {
      ChildrenInUniverse(g, nodes);
      var node, rest := nodes[0], nodes[1..];
      assert node in nodes && forall n | n in rest :: n in nodes;
      if node.group.id in w.seen && node.group.id != "" {
        VisitReachable(g, rest, w);
      } else {
        var entered := Enter(w, node);
        Shrinks(Universe(g), w.seen, entered.seen);
        ChildrenReachable(g, node);
        VisitReachable(g, Children(g, node), entered);
        var below := Visit(g, Children(g, node), entered);
        Shrinks(Universe(g), w.seen, below.seen);
        VisitReachable(g, rest, below);
      }
    }
  }

  /** Honest child counts: one id leads to the same children wherever it is met. */
  ghost predicate Honest(g: Graph) {
    forall a, b | Reachable(g, a) && Reachable(g, b) && a.group.id != "" && a.group.id == b.group.id ::
      Children(g, a) == Children(g, b)
  }

  /** On an honest server, also with shared nodes and cycles: the groups collected are exactly the reachable ones,
      and no id comes twice. */
  lemma {:induction false} FlattenComplete(g: Graph)
    requires Honest(g)
    ensures forall node | Reachable(g, node) :: Covered(Flatten(g), node)
    ensures forall node | node in Flatten(g) :: Reachable(g, node)
    ensures DistinctIds(Flatten(g))
  {
    RootsReachable(g);
    VisitReachable(g, g.roots, Walk({}, []));
    VisitCovers(g, g.roots, Walk({}, []));
    forall node | Reachable(g, node) ensures Covered(Flatten(g), node) {
      var n: nat :| Reaches(g, node, n);
      ReachedIsCovered(g, node, n);
    }
  }

  lemma {:induction false} RootsReachable(g: Graph)
    ensures AllReachable(g, g.roots)
  {
    forall n | n in g.roots ensures Reachable(g, n) {
      assert Reaches(g, n, 0);
    }
  }

  lemma {:induction false} ChildIsCovered(
    g: Graph, out: seq<GroupResponse>, parent: GroupResponse, node: GroupResponse)
    requires Honest(g) && AllReachable(g, out) && Reachable(g, parent)
    requires Covered(out, parent) && Closed(g, out, 0) && node in Children(g, parent)
    ensures Covered(out, node)
  {
    var twin :| twin in out && (if parent.group.id != "" then twin.group.id == parent.group.id else twin == parent);
    assert Children(g, twin) == Children(g, parent);
    var i :| 0 <= i < |out| && out[i] == twin;
    assert AllCovered(out, Children(g, out[i]));
  }

  lemma {:induction false} ReachedIsCovered(g: Graph, node: GroupResponse, n: nat)
    requires Honest(g) && Reaches(g, node, n)
    ensures Covered(Flatten(g), node)
    decreases n
  {
    VisitCovers(g, g.roots, Walk({}, []));
    if n > 0 {
      var parent :| Reaches(g, parent, n - 1) && node in Children(g, parent);
      ReachedIsCovered(g, parent, n - 1);
      RootsReachable(g);
      VisitReachable(g, g.roots, Walk({}, []));
      ChildIsCovered(g, Flatten(g), parent, node);
    }
  }

  // ----- order -----

  /** The list that a level of the walk goes through: the one given, for the first level, and below that the children of
      the group collected just before the level was entered. */
  function ListAt(
    g: Graph, nodes: seq<GroupResponse>, out: seq<GroupResponse>, from: nat, level: nat): seq<GroupResponse>
    requires from <= level <= |out|
  {
    if level == from then nodes else Children(g, out[level - 1])
  }

  /** The group collected at a position is the n-th of the list of a level. What the list has before it is collected by
      then, and so are the children of everything collected since the level was entered. */
  predicate Taken(g: Graph, nodes: seq<GroupResponse>, out: seq<GroupResponse>, from: nat, i: nat, level: nat, n: nat)
    requires from <= level <= i < |out|
  {
    && n < |ListAt(g, nodes, out, from, level)| && out[i] == ListAt(g, nodes, out, from, level)[n]
    && AllCovered(out[..i], ListAt(g, nodes, out, from, level)[..n])
    && Closed(g, out[..i], level)
  }

  /** Depth first: the next group is the first one left in the innermost list that has one left. */
  predicate InTurn(g: Graph, nodes: seq<GroupResponse>, out: seq<GroupResponse>, from: nat, i: nat)
    requires from <= i < |out|
  {
    exists level, n: nat | from <= level <= i && n < |ListAt(g, nodes, out, from, level)| ::
      Taken(g, nodes, out, from, i, level, n)
  }

  lemma {:induction false} VisitInTurn(g: Graph, nodes: seq<GroupResponse>, w: Walk, i: nat)
    requires IdsIn(nodes) <= Universe(g) && w.seen <= Universe(g) && Consistent(w)
    requires |w.out| <= i < |Visit(g, nodes, w).out|
    ensures InTurn(g, nodes, Visit(g, nodes, w).out, |w.out|, i)
    decreases |Universe(g) - w.seen|, Weight(nodes)
  {
    ChildrenInUniverse(g, nodes);
    var out, node, rest := Visit(g, nodes, w).out, nodes[0], nodes[1..];
    if node.group.id in w.seen && node.group.id != "" {
      VisitInTurn(g, rest, w, i);
      VisitCovers(g, rest, w);
      SkippedOne(g, nodes, w.out, out, |w.out|, i);
    } else {
      var entered := Enter(w, node);
      EnterConsistent(w, node);
      Shrinks(Universe(g), w.seen, entered.seen);
      var below := Visit(g, Children(g, node), entered);
      Shrinks(Universe(g), w.seen, below.seen);
      VisitCovers(g, Children(g, node), entered);
      VisitCovers(g, rest, below);
      if i == |w.out| {
        TakesFirst(g, nodes, w.out, below.out, out);
      } else if i < |below.out| {
        VisitInTurn(g, Children(g, node), entered, i);
        TakenBelow(g, nodes, w.out, below.out, out, i);
      } else {
        VisitInTurn(g, rest, below, i);
        TakenAfter(g, nodes, w.out, below.out, out, i);
      }
    }
  }

  /** A node met before is passed over. */
  lemma {:induction false} SkippedOne(g: Graph, nodes: seq<GroupResponse>, before: seq<GroupResponse>,
                                      out: seq<GroupResponse>, from: nat, i: nat)
    requires nodes != [] && from == |before| <= i < |out| && before <= out && Covered(before, nodes[0])
    requires InTurn(g, nodes[1..], out, from, i)
    ensures InTurn(g, nodes, out, from, i)
  {
    var level, n: nat :| from <= level <= i && n < |ListAt(g, nodes[1..], out, from, level)| &&
                         Taken(g, nodes[1..], out, from, i, level, n);
    if level == from {
      CoveredStays(before, out[..i], [nodes[0]]);
      assert nodes[..n + 1] == [nodes[0]] + nodes[1..][..n];
      assert Taken(g, nodes, out, from, i, level, n + 1);
    } else {
      assert Taken(g, nodes, out, from, i, level, n);
    }
  }

  lemma {:induction false} TakesFirst(g: Graph, nodes: seq<GroupResponse>, before: seq<GroupResponse>,
                                      below: seq<GroupResponse>, out: seq<GroupResponse>)
    requires nodes != [] && before + [nodes[0]] <= below <= out
    ensures InTurn(g, nodes, out, |before|, |before|)
  {
    assert out[|before|] == below[|before|] == (before + [nodes[0]])[|before|];
    assert Taken(g, nodes, out, |before|, |before|, |before|, 0);
  }

  /** What the walk over the children takes in turn is taken in turn here. */
  lemma {:induction false} TakenBelow(g: Graph, nodes: seq<GroupResponse>, before: seq<GroupResponse>,
                                      below: seq<GroupResponse>, out: seq<GroupResponse>, i: nat)
    requires nodes != [] && before + [nodes[0]] <= below <= out && |before| < i < |below|
    requires InTurn(g, Children(g, nodes[0]), below, |before| + 1, i)
    ensures InTurn(g, nodes, out, |before|, i)
  {
    var node, from := nodes[0], |before| + 1;
    assert out[|before|] == below[|before|] == (before + [node])[|before|];
    var level, n: nat :| from <= level <= i && n < |ListAt(g, Children(g, node), below, from, level)| &&
                         Taken(g, Children(g, node), below, from, i, level, n);
    assert out[..i] == below[..i];
    assert ListAt(g, Children(g, node), below, from, level) == ListAt(g, nodes, out, |before|, level);
    assert Taken(g, nodes, out, |before|, i, level, n);
  }

  /** And what the walk over the other nodes takes, once all below the first is collected. */
  lemma {:induction false} TakenAfter(g: Graph, nodes: seq<GroupResponse>, before: seq<GroupResponse>,
                                      below: seq<GroupResponse>, out: seq<GroupResponse>, i: nat)
    requires nodes != [] && before + [nodes[0]] <= below <= out && |below| <= i < |out|
    requires Covered(before + [nodes[0]], nodes[0])
    requires AllCovered(below, Children(g, nodes[0])) && Closed(g, below, |before| + 1)
    requires InTurn(g, nodes[1..], out, |below|, i)
    ensures InTurn(g, nodes, out, |before|, i)
  {
    var from := |below|;
    var level, n: nat :| from <= level <= i && n < |ListAt(g, nodes[1..], out, from, level)| &&
                         Taken(g, nodes[1..], out, from, i, level, n);
    if level == from {
      JoinWalks(g, before, nodes[0], nodes[1..][..n], below, out[..i]);
      assert nodes[..n + 1] == [nodes[0]] + nodes[1..][..n];
      assert Taken(g, nodes, out, |before|, i, |before|, n + 1);
    } else {
      assert Taken(g, nodes, out, |before|, i, level, n);
    }
  }

  /** On every graph, also with shared nodes and cycles, flattening goes depth first and in the order of the lists. */
  lemma {:induction false} FlattenInTurn(g: Graph, i: nat)
    requires i < |Flatten(g)|
    ensures InTurn(g, g.roots, Flatten(g), 0, i)
  {
    VisitInTurn(g, g.roots, Walk({}, []), i);
  }

  /** A depth-first listing: complete, without repetition, and everything in its turn. */
  ghost predicate DepthFirst(g: Graph, out: seq<GroupResponse>) {
    && DistinctIds(out) && AllCovered(out, g.roots) && Closed(g, out, 0)
    && forall i | 0 <= i < |out| :: InTurn(g, g.roots, out, 0, i)
  }

  lemma {:induction false} FlattenIsDepthFirst(g: Graph)
    ensures DepthFirst(g, Flatten(g))
  {
    VisitCovers(g, g.roots, Walk({}, []));
    forall i | 0 <= i < |Flatten(g)| ensures InTurn(g, g.roots, Flatten(g), 0, i) {
      FlattenInTurn(g, i);
    }
  }

  predicate AllNamed(out: seq<GroupResponse>) {
    forall r | r in out :: r.group.id != ""
  }

  /** A list with a group in it is not all covered before the group is collected. */
  lemma {:induction false} NotYet(out: seq<GroupResponse>, k: nat, i: nat, list: seq<GroupResponse>)
    requires DistinctIds(out) && k <= i < |out| && out[i].group.id != "" && out[i] in list
    ensures !AllCovered(out[..k], list)
  {
    assert !Covered(out[..k], out[i]);
  }

  /** The lists of the levels below one are all covered when the walk is back at that one. */
  lemma {:induction false} LevelsBelow(
    g: Graph, nodes: seq<GroupResponse>, out: seq<GroupResponse>, from: nat, i: nat, level: nat, lower: nat)
    requires from <= level < lower <= i < |out| && Closed(g, out[..i], level)
    ensures AllCovered(out[..i], ListAt(g, nodes, out, from, lower))
  {
    assert out[..i][lower - 1] == out[lower - 1];
  }

  lemma {:induction false} SameLists(g: Graph, a: seq<GroupResponse>, b: seq<GroupResponse>, i: nat, level: nat)
    requires level <= i <= |a| && i <= |b| && a[..i] == b[..i]
    ensures ListAt(g, g.roots, a, 0, level) == ListAt(g, g.roots, b, 0, level)
  {
    assert level > 0 ==> a[..i][level - 1] == b[..i][level - 1];
  }

  /** With the same beginning, no listing goes on at a higher level, or earlier in a list, than another. */
  lemma {:induction false} SameLevel(
    g: Graph, a: seq<GroupResponse>, b: seq<GroupResponse>, i: nat, k: nat, m: nat, l: nat, n: nat)
    requires i < |a| && i < |b| && a[..i] == b[..i] && DistinctIds(b) && b[i].group.id != ""
    requires k <= i && l <= i && m < |ListAt(g, g.roots, a, 0, k)| && n < |ListAt(g, g.roots, b, 0, l)|
    requires Taken(g, g.roots, a, 0, i, k, m) && Taken(g, g.roots, b, 0, i, l, n)
    ensures k >= l && (k == l ==> m <= n)
  {
    SameLists(g, a, b, i, l);
    var list := ListAt(g, g.roots, b, 0, l);
    if k < l {
      LevelsBelow(g, g.roots, a, 0, i, k, l);
      NotYet(b, i, i, list);
    } else if k == l && n < m {
      assert list[n] in list[..m];
      NotYet(b, i, i, list[..m]);
    }
  }

  lemma {:induction false} SameNext(g: Graph, a: seq<GroupResponse>, b: seq<GroupResponse>, i: nat)
    requires DepthFirst(g, a) && DepthFirst(g, b) && AllNamed(a) && AllNamed(b)
    requires i < |a| && i < |b| && a[..i] == b[..i]
    ensures a[i] == b[i]
  {
    assert InTurn(g, g.roots, a, 0, i) && InTurn(g, g.roots, b, 0, i);
    var k, m: nat :| 0 <= k <= i && m < |ListAt(g, g.roots, a, 0, k)| && Taken(g, g.roots, a, 0, i, k, m);
    var l, n: nat :| 0 <= l <= i && n < |ListAt(g, g.roots, b, 0, l)| && Taken(g, g.roots, b, 0, i, l, n);
    SameLevel(g, a, b, i, k, m, l, n);
    SameLevel(g, b, a, i, l, n, k, m);
    SameLists(g, a, b, i, l);
  }

  lemma {:induction false} SameBeginning(g: Graph, a: seq<GroupResponse>, b: seq<GroupResponse>, i: nat)
    requires DepthFirst(g, a) && DepthFirst(g, b) && AllNamed(a) && AllNamed(b) && i <= |a| && i <= |b|
    ensures a[..i] == b[..i]
  {
    if i > 0 {
      SameBeginning(g, a, b, i - 1);
      SameNext(g, a, b, i - 1);
      assert a[..i] == a[..i - 1] + [a[i - 1]] && b[..i] == b[..i - 1] + [b[i - 1]];
    }
  }

  lemma {:induction false} LevelsCovered(g: Graph, out: seq<GroupResponse>, level: nat)
    requires level <= |out| && AllCovered(out, g.roots) && Closed(g, out, 0)
    ensures AllCovered(out, ListAt(g, g.roots, out, 0, level))
  {
  }

  /** No depth-first listing goes on after another. */
  lemma {:induction false} NothingAfter(g: Graph, a: seq<GroupResponse>, b: seq<GroupResponse>)
    requires DepthFirst(g, a) && DepthFirst(g, b) && AllNamed(b) && a <= b
    ensures a == b
  {
    var i := |a|;
    if i < |b| {
      assert InTurn(g, g.roots, b, 0, i);
      var l, n: nat :| 0 <= l <= i && n < |ListAt(g, g.roots, b, 0, l)| && Taken(g, g.roots, b, 0, i, l, n);
      SameLists(g, a, b, i, l);
      LevelsCovered(g, a, l);
      NotYet(b, i, i, ListAt(g, g.roots, b, 0, l));
    }
  }

  /** Where every group has an id the order is settled: the depth-first listing is the one that flattening gives. */
  lemma {:induction false} OneDepthFirst(g: Graph, out: seq<GroupResponse>)
    requires AllNamed(out) && AllNamed(Flatten(g))
    ensures DepthFirst(g, out) <==> out == Flatten(g)
  {
    FlattenIsDepthFirst(g);
    if DepthFirst(g, out) {
      if |out| <= |Flatten(g)| {
        SameBeginning(g, out, Flatten(g), |out|);
        NothingAfter(g, out, Flatten(g));
      } else {
        SameBeginning(g, out, Flatten(g), |Flatten(g)|);
        NothingAfter(g, Flatten(g), out);
      }
    }
  }

  lemma {:induction false} Contiguous(g: Graph, out: seq<GroupResponse>, i: nat, k: nat, j: nat) returns (m: nat)
    requires i < k <= j < |out| && DistinctIds(out) && InTurn(g, g.roots, out, 0, k)
    requires out[j].group.id != "" && out[j] in Children(g, out[i])
    ensures i <= m < k && out[k] in Children(g, out[m])
  {
    var level, n: nat :| 0 <= level <= k && n < |ListAt(g, g.roots, out, 0, level)| &&
                         Taken(g, g.roots, out, 0, k, level, n);
    if level > i {
      m := level - 1;
    } else {
      LevelsBelow(g, g.roots, out, 0, k, level, i + 1);
      NotYet(out, k, j, Children(g, out[i]));
    }
  }

  /** What stands below a group stands together: up to the last of its children, everything after the group is a child
      of the group or of something in between. */
  lemma {:induction false} FlattenContiguous(g: Graph, i: nat, k: nat, j: nat) returns (m: nat)
    requires i < k <= j < |Flatten(g)|
    requires Flatten(g)[j].group.id != "" && Flatten(g)[j] in Children(g, Flatten(g)[i])
    ensures i <= m < k && Flatten(g)[k] in Children(g, Flatten(g)[m])
  {
    FlattenIsDepthFirst(g);
    m := Contiguous(g, Flatten(g), i, k, j);
  }

  lemma {:induction false} Siblings(
    g: Graph, out: seq<GroupResponse>, i: nat, list: seq<GroupResponse>, first: nat, p: nat, q: nat)
    requires i < q < |out| && p < |out| && DistinctIds(out) && InTurn(g, g.roots, out, 0, q)
    requires list == Children(g, out[i]) && first < |list|
    requires list[first].group.id == out[p].group.id != "" && out[q] in list && out[q].group.id != ""
    requires forall n | 0 <= n <= first :: list[n] != out[q]
    requires forall m | i < m < q :: out[q] !in Children(g, out[m])
    ensures p < q
  {
    var level, n: nat :| 0 <= level <= q && n < |ListAt(g, g.roots, out, 0, level)| &&
                         Taken(g, g.roots, out, 0, q, level, n);
    assert level <= i + 1;
    if level <= i {
      LevelsBelow(g, g.roots, out, 0, q, level, i + 1);
      NotYet(out, q, q, list);
    } else {
      assert list[first] in list[..n];
      assert Covered(out[..q], list[first]);
    }
  }

  /** Siblings come in the order in which they are listed, unless the later one is listed by a group in between, too. */
  lemma {:induction false} FlattenSiblings(
    g: Graph, i: nat, list: seq<GroupResponse>, first: nat, later: nat, p: nat, q: nat)
    requires i < q < |Flatten(g)| && p < |Flatten(g)|
    requires list == Children(g, Flatten(g)[i]) && first < later < |list|
    requires list[first].group.id == Flatten(g)[p].group.id != ""
    requires list[later] == Flatten(g)[q] && Flatten(g)[q].group.id != ""
    requires forall n | 0 <= n <= first :: list[n] != list[later]
    requires forall m | i < m < q :: list[later] !in Children(g, Flatten(g)[m])
    ensures p < q
  {
    FlattenIsDepthFirst(g);
    Siblings(g, Flatten(g), i, list, first, p, q);
  }

  /** A child shared with an earlier sibling is collected below that one, before siblings that are listed before it. */
  lemma {:induction false} SharedChildComesEarly(r: GroupResponse, a: GroupResponse, b: GroupResponse, c: GroupResponse)
    requires r.group.id == "r" && a.group.id == "a" && b.group.id == "b" && c.group.id == "c"
    requires r.subGroupCount == a.subGroupCount == b.subGroupCount == c.subGroupCount == 0
    requires r.subGroups == [a, b, c] && a.subGroups == [c] && b.subGroups == c.subGroups == []
    ensures Flatten(Graph([r], map[])) == [r, a, c, b]
  {
    var g := Graph([r], map[]);
    UniverseOfRoots(g);
    VisitStep(g, [r], Walk({}, []));
    var w1 := Enter(Walk({}, []), r);
    VisitStep(g, [a, b, c], w1);
    var w2 := Enter(w1, a);
    VisitStep(g, [c], w2);
    var w3 := Enter(w2, c);
    assert Visit(g, [], w3) == w3;
    assert [a, b, c][1..] == [b, c] && [b, c][1..] == [c] && [c][1..] == [] && [r][1..] == [];
    VisitStep(g, [b, c], w3);
    var w4 := Enter(w3, b);
    assert Visit(g, [], w4) == w4;
    ChildrenInUniverse(g, [c]);
    assert Visit(g, [c], w4) == w4;
    assert w4.out == [r, a, c, b];
  }

  lemma {:induction false} UniverseOfRoots(g: Graph)
    ensures IdsIn(g.roots) <= Universe(g)
  {
  }

  /** The plain preorder of the tree below a list of nodes, cut off at a depth. */
  function Preorder(g: Graph, nodes: seq<GroupResponse>, depth: nat): seq<GroupResponse>
    decreases depth, |nodes|
  {
    if nodes == [] then []
    else
      [nodes[0]] + (if depth == 0 then [] else Preorder(g, Children(g, nodes[0]), depth - 1)) +
      Preorder(g, nodes[1..], depth)
  }

  /** The depth is not cut off anywhere. */
  predicate Fits(g: Graph, nodes: seq<GroupResponse>, depth: nat)
    decreases depth, |nodes|
  {
    nodes == [] || (depth > 0 && Fits(g, Children(g, nodes[0]), depth - 1) && Fits(g, nodes[1..], depth))
  }

  /** One step of the walk, for a node that has not been met. */
  lemma {:induction false} VisitStep(g: Graph, nodes: seq<GroupResponse>, w: Walk)
    requires nodes != [] && IdsIn(nodes) <= Universe(g) && w.seen <= Universe(g)
    requires nodes[0].group.id == "" || nodes[0].group.id !in w.seen
    ensures var entered, children := Enter(w, nodes[0]), Children(g, nodes[0]);
            && IdsIn(children) <= Universe(g) && IdsIn(nodes[1..]) <= Universe(g) && entered.seen <= Universe(g)
            && Visit(g, nodes, w) == Visit(g, nodes[1..], Visit(g, children, entered))
  {
    ChildrenInUniverse(g, nodes);
  }

  /** When nothing is shared, flattening is the plain preorder. */
  lemma {:induction false} VisitTree(
    g: Graph, nodes: seq<GroupResponse>, w: Walk, depth: nat, tree: seq<GroupResponse>)
    requires IdsIn(nodes) <= Universe(g) && w.seen <= Universe(g)
    requires Fits(g, nodes, depth) && tree == Preorder(g, nodes, depth)
    requires DistinctIds(tree) && Emitted(tree) !! w.seen
    ensures Visit(g, nodes, w) == Walk(w.seen + Emitted(tree), w.out + tree)
    decreases depth, |nodes|
  {
    if nodes == [] {
      assert w.out + [] == w.out;
    } else {
      var node, rest := nodes[0], nodes[1..];
      var deep, wide := Preorder(g, Children(g, node), depth - 1), Preorder(g, rest, depth);
      assert tree == [node] + deep + wide;
      SplitDistinct([node], deep, wide);
      FreshEnter(w, node, Emitted(tree));
      VisitStep(g, nodes, w);
      var entered := Enter(w, node);
      VisitTree(g, Children(g, node), entered, depth - 1, deep);
      VisitTree(g, rest, Visit(g, Children(g, node), entered), depth, wide);
      JoinOutputs(w.out, node, deep, wide);
    }
  }

  lemma {:induction false} JoinOutputs(
    before: seq<GroupResponse>, node: GroupResponse, deep: seq<GroupResponse>, wide: seq<GroupResponse>)
    ensures before + ([node] + deep + wide) == before + [node] + deep + wide
  {
  }

  lemma {:induction false} FreshEnter(w: Walk, node: GroupResponse, ids: set<string>)
    requires Emitted([node]) <= ids && ids !! w.seen
    ensures Enter(w, node) == Walk(w.seen + Emitted([node]), w.out + [node])
    ensures node.group.id == "" || node.group.id !in w.seen
  {
    assert node in [node];
  }

  lemma {:induction false} SplitDistinct(a: seq<GroupResponse>, b: seq<GroupResponse>, c: seq<GroupResponse>)
    requires DistinctIds(a + b + c)
    ensures DistinctIds(b) && DistinctIds(c)
    ensures Emitted(a) !! Emitted(b) && Emitted(a) !! Emitted(c) && Emitted(b) !! Emitted(c)
    ensures Emitted(a + b + c) == Emitted(a) + Emitted(b) + Emitted(c)
  {
    var s := a + b + c;
    assert forall i | 0 <= i < |a| :: a[i] == s[i];
    assert forall i | 0 <= i < |b| :: b[i] == s[|a| + i];
    assert forall i | 0 <= i < |c| :: c[i] == s[|a| + |b| + i];
    assert forall r :: r in s <==> r in a || r in b || r in c;
  }

  lemma {:induction false} FlattenTree(g: Graph, depth: nat)
    requires Fits(g, g.roots, depth) && DistinctIds(Preorder(g, g.roots, depth))
    ensures Flatten(g) == Preorder(g, g.roots, depth)
  {
    VisitTree(g, g.roots, Walk({}, []), depth, Preorder(g, g.roots, depth));
    assert [] + Preorder(g, g.roots, depth) == Preorder(g, g.roots, depth);
  }

  /** Walking over a list in two parts. */
  lemma {:induction false} VisitAppend(g: Graph, a: seq<GroupResponse>, b: seq<GroupResponse>, w: Walk)
    requires IdsIn(a + b) <= Universe(g) && w.seen <= Universe(g)
    ensures IdsIn(a) <= Universe(g) && IdsIn(b) <= Universe(g)
    ensures Visit(g, a + b, w) == Visit(g, b, Visit(g, a, w))
    decreases |Universe(g) - w.seen|, Weight(a)
  {
    if a == [] {
      assert a + b == b;
    } else {
      assert (a + b)[1..] == a[1..] + b && (a + b)[0] == a[0];
      ChildrenInUniverse(g, a + b);
      var node := a[0];
      if node.group.id in w.seen && node.group.id != "" {
        VisitAppend(g, a[1..], b, w);
      } else {
        var entered := Enter(w, node);
        Shrinks(Universe(g), w.seen, entered.seen);
        var below := Visit(g, Children(g, node), entered);
        Shrinks(Universe(g), w.seen, below.seen);
        VisitAppend(g, a[1..], b, below);
      }
    }
  }
}
