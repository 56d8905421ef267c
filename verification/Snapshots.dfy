/** Snapshots filled entry by entry, in which the last entry of a name counts. */
module Snapshots {
  import opened Wrappers

  /** The last element with the key. */
  predicate LastAt<T>(key: T -> Option<string>, xs: seq<T>, k: nat, name: string) {
    k < |xs| && key(xs[k]) == Some(name) && forall j | k < j < |xs| :: key(xs[j]) != Some(name)
  }

  /** The value was made of the last element with the key. */
  ghost predicate MadeOfLast<T, V(!new)>(
    key: T -> Option<string>, makes: (T, V) -> bool, xs: seq<T>, name: string, v: V)
  {
    exists k: nat :: LastAt(key, xs, k, name) && makes(xs[k], v)
  }

  /** Every key has a value, and every value was made of the last element with its key. */
  ghost predicate LastWins<T(!new), V(!new)>(
    key: T -> Option<string>, makes: (T, V) -> bool, xs: seq<T>, snapshot: map<string, V>) {
    && (forall x | x in xs && key(x).Some? :: key(x).value in snapshot)
    && (forall name | name in snapshot :: MadeOfLast(key, makes, xs, name, snapshot[name]))
  }

  lemma {:induction false} MadeOfLastStill<T(!new), V(!new)>(
    key: T -> Option<string>, makes: (T, V) -> bool, xs: seq<T>, x: T, name: string, v: V)
    requires MadeOfLast(key, makes, xs, name, v) && key(x) != Some(name)
    ensures MadeOfLast(key, makes, xs + [x], name, v)
  {
    var k: nat :| LastAt(key, xs, k, name) && makes(xs[k], v);
    assert LastAt(key, xs + [x], k, name);
  }

  /** An element without a key is passed over. */
  lemma {:induction false} PassedOver<T(!new), V(!new)>(
    key: T -> Option<string>, makes: (T, V) -> bool, xs: seq<T>, snapshot: map<string, V>, x: T)
    requires LastWins(key, makes, xs, snapshot) && key(x).None?
    ensures LastWins(key, makes, xs + [x], snapshot)
  {
    forall name | name in snapshot ensures MadeOfLast(key, makes, xs + [x], name, snapshot[name]) {
      MadeOfLastStill(key, makes, xs, x, name, snapshot[name]);
    }
  }

  /** An element with a key sets, or replaces, the value of the key. */
  lemma {:induction false} Entered<T(!new), V(!new)>(
    key: T -> Option<string>, makes: (T, V) -> bool, xs: seq<T>, snapshot: map<string, V>, x: T, v: V)
    requires LastWins(key, makes, xs, snapshot) && key(x).Some? && makes(x, v)
    ensures LastWins(key, makes, xs + [x], snapshot[key(x).value := v])
  {
    var after := snapshot[key(x).value := v];
    forall name | name in after ensures MadeOfLast(key, makes, xs + [x], name, after[name]) {
      if name == key(x).value {
        assert LastAt(key, xs + [x], |xs|, name);
      } else {
        MadeOfLastStill(key, makes, xs, x, name, snapshot[name]);
      }
    }
  }

  lemma {:induction false} OneLast<T(!new)>(key: T -> Option<string>, xs: seq<T>, j: nat, k: nat, name: string)
    requires LastAt(key, xs, j, name) && LastAt(key, xs, k, name)
    ensures j == k
  {
  }

  lemma {:induction false} SameValue<T(!new), V(!new)>(
    key: T -> Option<string>, makes: (T, V) -> bool, xs: seq<T>, name: string, v: V, w: V)
    requires MadeOfLast(key, makes, xs, name, v) && MadeOfLast(key, makes, xs, name, w)
    requires forall x, a, b | makes(x, a) && makes(x, b) :: a == b
    ensures v == w
  {
    var j: nat :| LastAt(key, xs, j, name) && makes(xs[j], v);
    var k: nat :| LastAt(key, xs, k, name) && makes(xs[k], w);
    OneLast(key, xs, j, k, name);
  }

  lemma {:induction false} SameNames<T(!new), V(!new)>(
    key: T -> Option<string>, makes: (T, V) -> bool, xs: seq<T>, a: map<string, V>, b: map<string, V>, name: string)
    requires LastWins(key, makes, xs, a) && LastWins(key, makes, xs, b) && name in a
    ensures name in b
  {
    var k: nat :| LastAt(key, xs, k, name) && makes(xs[k], a[name]);
    assert xs[k] in xs;
  }

  /** When an element makes one value only, there is one snapshot. */
  lemma {:induction false} OneSnapshot<T(!new), V(!new)>(
    key: T -> Option<string>, makes: (T, V) -> bool, xs: seq<T>, a: map<string, V>, b: map<string, V>)
    requires LastWins(key, makes, xs, a) && LastWins(key, makes, xs, b)
    requires forall x, v, w | makes(x, v) && makes(x, w) :: v == w
    ensures a == b
  {
    forall name ensures name in a <==> name in b {
      if name in a {
        SameNames(key, makes, xs, a, b, name);
      }
      if name in b {
        SameNames(key, makes, xs, b, a, name);
      }
    }
    assert a.Keys == b.Keys;
    forall name | name in a ensures a[name] == b[name] {
      SameValue(key, makes, xs, name, a[name], b[name]);
    }
  }

  // ----- other orders -----

  /** Whatever has a key makes a value. */
  ghost predicate AllMake<T(!new), V(!new)>(key: T -> Option<string>, makes: (T, V) -> bool, xs: seq<T>) {
    forall x | x in xs && key(x).Some? :: exists v :: makes(x, v)
  }

  /** Elements with one key make one value. */
  ghost predicate OneValueEach<T(!new), V(!new)>(key: T -> Option<string>, makes: (T, V) -> bool, xs: seq<T>) {
    forall x, y, v, w | x in xs && y in xs && key(x).Some? && key(x) == key(y) && makes(x, v) && makes(y, w) :: v == w
  }

  /** All orders of the elements give one snapshot. */
  ghost predicate OneInAnyOrder<T(!new), V(!new)>(key: T -> Option<string>, makes: (T, V) -> bool, xs: seq<T>) {
    forall ys, zs, a, b | multiset(ys) == multiset(xs) && multiset(zs) == multiset(xs)
                          && LastWins(key, makes, ys, a) && LastWins(key, makes, zs, b) ::
      a == b
  }

  lemma {:induction false} SnapshotOf<T(!new), V(!new)>(key: T -> Option<string>, makes: (T, V) -> bool, xs: seq<T>)
    returns (snapshot: map<string, V>)
    requires AllMake(key, makes, xs)
    ensures LastWins(key, makes, xs, snapshot)
  {
    snapshot := map[];
    if xs != [] {
      var rest, x := xs[..|xs| - 1], xs[|xs| - 1];
      assert xs == rest + [x];
      snapshot := SnapshotOf(key, makes, rest);
      if key(x).Some? {
        var v :| makes(x, v);
        Entered(key, makes, rest, snapshot, x, v);
        snapshot := snapshot[key(x).value := v];
      } else {
        PassedOver(key, makes, rest, snapshot, x);
      }
    }
  }

  lemma {:induction false} SameElements<T>(xs: seq<T>, ys: seq<T>)
    requires multiset(xs) == multiset(ys)
    ensures forall x :: x in xs <==> x in ys
  {
    assert forall x :: x in xs <==> x in multiset(xs);
    assert forall y :: y in ys <==> y in multiset(ys);
  }

  lemma {:induction false} MovedToEnd<T>(a: seq<T>, x: T, b: seq<T>)
    ensures multiset(a + b + [x]) == multiset(a + [x] + b)
  {
  }

  /** With an element put last, its value is the one in the snapshot. */
  lemma {:induction false} PutLast<T(!new), V(!new)>(
    key: T -> Option<string>, makes: (T, V) -> bool, xs: seq<T>, x: T, v: V)
    returns (ys: seq<T>, snapshot: map<string, V>)
    requires AllMake(key, makes, xs) && x in xs && key(x).Some? && makes(x, v)
    ensures multiset(ys) == multiset(xs) && LastWins(key, makes, ys, snapshot)
    ensures key(x).value in snapshot && snapshot[key(x).value] == v
  {
    var k :| 0 <= k < |xs| && xs[k] == x;
    var rest := xs[..k] + xs[k + 1..];
    assert xs == xs[..k] + [x] + xs[k + 1..];
    MovedToEnd(xs[..k], x, xs[k + 1..]);
    snapshot := SnapshotOf(key, makes, rest);
    Entered(key, makes, rest, snapshot, x, v);
    ys, snapshot := rest + [x], snapshot[key(x).value := v];
  }

  lemma {:induction false} SameInTwoOrders<T(!new), V(!new)>(
    key: T -> Option<string>, makes: (T, V) -> bool, ys: seq<T>, zs: seq<T>, a: map<string, V>, b: map<string, V>,
    name: string)
    requires multiset(ys) == multiset(zs) && OneValueEach(key, makes, ys)
    requires LastWins(key, makes, ys, a) && LastWins(key, makes, zs, b) && name in a
    ensures name in b && a[name] == b[name]
  {
    var k: nat :| LastAt(key, ys, k, name) && makes(ys[k], a[name]);
    SameElements(ys, zs);
    assert ys[k] in zs;
    var l: nat :| LastAt(key, zs, l, name) && makes(zs[l], b[name]);
    assert zs[l] in ys;
  }

  /** The snapshot does not depend on the order of the elements if and only if elements with one key make one value. */
  lemma {:induction false} OrderMatters<T(!new), V(!new)>(key: T -> Option<string>, makes: (T, V) -> bool, xs: seq<T>)
    requires AllMake(key, makes, xs)
    ensures OneInAnyOrder(key, makes, xs) <==> OneValueEach(key, makes, xs)
  {
    if OneValueEach(key, makes, xs) {
      forall ys, zs, a, b | multiset(ys) == multiset(xs) && multiset(zs) == multiset(xs)
                            && LastWins(key, makes, ys, a) && LastWins(key, makes, zs, b)
        ensures a == b
      {
        SameElements(xs, ys);
        SameElements(xs, zs);
        forall name ensures name in a ==> name in b && a[name] == b[name] {
          if name in a {
            SameInTwoOrders(key, makes, ys, zs, a, b, name);
          }
        }
        forall name ensures name in b ==> name in a {
          if name in b {
            SameInTwoOrders(key, makes, zs, ys, b, a, name);
          }
        }
        assert a.Keys == b.Keys;
      }
    }
    if OneInAnyOrder(key, makes, xs) {
      forall x, y, v, w | x in xs && y in xs && key(x).Some? && key(x) == key(y) && makes(x, v) && makes(y, w)
        ensures v == w
      {
        var ys, a := PutLast(key, makes, xs, x, v);
        var zs, b := PutLast(key, makes, xs, y, w);
        assert a == b;
      }
    }
  }
}
