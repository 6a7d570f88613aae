/**
 * d3.rollup(data, v => d3.sum(v, value), key): the rows are grouped by key
 * in an InternMap, whose iteration order is the order in which each key was
 * first seen, and each group is then reduced to the sum of its values.
 * Array.from over the result yields (key, total) pairs in that order.
 */
module Rollups {

  /** One bucket of the InternMap: a key and the rows filed under it, in input order. */
  datatype Group<R, K> = Group(key: K, members: seq<R>)

  /** A (key, total) pair as Array.from yields it from a rollup. */
  datatype Entry<K> = Entry(key: K, total: real)

  function KeyOf<K>(e: Entry<K>): K { e.key }

  function TotalOf<K>(e: Entry<K>): real { e.total }

  // ---------------------------------------------------------------------------
  // Sums, selections and first occurrences
  // ---------------------------------------------------------------------------

  /** d3.sum: the values added from the first element to the last, starting from zero. */
  function SumOf<R>(s: seq<R>, value: R -> real): real
  {
    if s == [] then 0.0 else SumOf(s[..|s| - 1], value) + value(s[|s| - 1])
  }

  /** The rows whose key is k, in input order. */
  function WithKey<R, K(==)>(rows: seq<R>, key: R -> K, k: K): (r: seq<R>)
    ensures forall i :: 0 <= i < |r| ==> r[i] in rows && key(r[i]) == k
    ensures forall j :: 0 <= j < |rows| && key(rows[j]) == k ==> rows[j] in r
  {
    if rows == [] then []
    else
      var n := |rows| - 1;
      assert rows == rows[..n] + [rows[n]];
      WithKey(rows[..n], key, k) + (if key(rows[n]) == k then [rows[n]] else [])
  }

  /**
   * The index of the first row whose key is k, or |rows| when there is none:
   * the linear search that Array.prototype.find performs.
   */
  function FirstIndex<R, K(==)>(rows: seq<R>, key: R -> K, k: K): (n: nat)
    ensures n <= |rows|
    ensures n < |rows| ==> key(rows[n]) == k
    ensures forall j :: 0 <= j < n ==> key(rows[j]) != k
  {
    if rows == [] then 0
    else if key(rows[0]) == k then 0
    else 1 + FirstIndex(rows[1..], key, k)
  }

  /** The set of keys the rows produce: the distinct keys the rollup must report. */
  ghost function KeyImage<R, K>(rows: seq<R>, key: R -> K): set<K>
  {
    set j | 0 <= j < |rows| :: key(rows[j])
  }

  ghost function KeySet<K>(es: seq<Entry<K>>): set<K>
  {
    set i | 0 <= i < |es| :: es[i].key
  }

  predicate DistinctKeys<K(==)>(es: seq<Entry<K>>)
  {
    forall i, j :: 0 <= i < j < |es| ==> es[i].key != es[j].key
  }

  // ---------------------------------------------------------------------------
  // The InternMap and the rollup
  // ---------------------------------------------------------------------------

  function GroupKeys<R, K>(gs: seq<Group<R, K>>): seq<K>
  {
    seq(|gs|, i requires 0 <= i < |gs| => gs[i].key)
  }

  /**
   * Files row x under key k: appended to the bucket of k when the map has
   * one, otherwise a new bucket is set at the end of the iteration order.
   */
  function Place<R, K(==)>(gs: seq<Group<R, K>>, k: K, x: R): seq<Group<R, K>>
  {
    if k in GroupKeys(gs) then
      seq(|gs|, i requires 0 <= i < |gs| =>
        if gs[i].key == k then Group(k, gs[i].members + [x]) else gs[i])
    else
      gs + [Group(k, [x])]
  }

  /** d3.group: the buckets after filing every row, first to last. */
  function GroupBy<R, K(==)>(rows: seq<R>, key: R -> K): seq<Group<R, K>>
  {
    if rows == [] then []
    else
      var n := |rows| - 1;
      Place(GroupBy(rows[..n], key), key(rows[n]), rows[n])
  }

  /** Each bucket reduced by d3.sum over its rows. */
  function Reduce<R, K>(gs: seq<Group<R, K>>, value: R -> real): seq<Entry<K>>
  {
    seq(|gs|, i requires 0 <= i < |gs| => Entry(gs[i].key, SumOf(gs[i].members, value)))
  }

  /** Array.from(d3.rollup(rows, v => d3.sum(v, value), key)). */
  function Rollup<R, K(==)>(rows: seq<R>, key: R -> K, value: R -> real): seq<Entry<K>>
  {
    Reduce(GroupBy(rows, key), value)
  }

  /**
   * What a rollup of rows by key must be: each key the rows produce is listed
   * exactly once, and its total is the sum over the rows with that key.
   */
  ghost predicate Summarises<R, K>(rows: seq<R>, key: R -> K, value: R -> real, es: seq<Entry<K>>)
  {
    && DistinctKeys(es)
    && KeySet(es) == KeyImage(rows, key)
    && (forall i :: 0 <= i < |es| ==> es[i].total == SumOf(WithKey(rows, key, es[i].key), value))
  }

  // ---------------------------------------------------------------------------
  // Lemmas about sums
  // ---------------------------------------------------------------------------

  lemma {:induction false} SumOfConcat<R>(u: seq<R>, w: seq<R>, value: R -> real)
    ensures SumOf(u + w, value) == SumOf(u, value) + SumOf(w, value)
    decreases |w|
  {
    if w == [] {
      assert u + w == u;
    } else {
      var n := |w| - 1;
      assert (u + w)[..|u + w| - 1] == u + w[..n];
      SumOfConcat(u, w[..n], value);
    }
  }

  /** Two sequences whose elements have the same values pointwise have the same sum. */
  lemma {:induction false} SumOfPointwise<R>(a: seq<R>, b: seq<R>, value: R -> real)
    requires |a| == |b|
    requires forall i :: 0 <= i < |a| ==> value(a[i]) == value(b[i])
    ensures SumOf(a, value) == SumOf(b, value)
    decreases |a|
  {
    if a != [] {
      var n := |a| - 1;
      SumOfPointwise(a[..n], b[..n], value);
    }
  }

  /** Raising the value of one element by v raises the sum by v. */
  lemma {:induction false} SumOfUpdate<R>(a: seq<R>, b: seq<R>, q: nat, v: real, value: R -> real)
    requires |a| == |b| && q < |a|
    requires value(b[q]) == value(a[q]) + v
    requires forall i :: 0 <= i < |a| && i != q ==> value(a[i]) == value(b[i])
    ensures SumOf(b, value) == SumOf(a, value) + v
    decreases |a|
  {
    var n := |a| - 1;
    if q == n {
      SumOfPointwise(a[..n], b[..n], value);
    } else {
      SumOfUpdate(a[..n], b[..n], q, v, value);
    }
  }

  /** d3.sum does not depend on the order of its input. */
  lemma {:induction false} SumOfPermutation<R>(a: seq<R>, b: seq<R>, value: R -> real)
    requires multiset(a) == multiset(b)
    ensures SumOf(a, value) == SumOf(b, value)
    decreases |a|
  {
    if a == [] {
      assert |b| == |multiset(b)| == 0;
    } else {
      var n := |a| - 1;
      var x := a[n];
      assert a == a[..n] + [x];
      assert x in multiset(b);
      var j :| 0 <= j < |b| && b[j] == x;
      var rest := b[..j] + b[j + 1..];
      assert b == b[..j] + [x] + b[j + 1..];
      assert multiset(rest) == multiset(b) - multiset{x};
      assert multiset(a[..n]) == multiset(a) - multiset{x};
      SumOfPermutation(a[..n], rest, value);
      SumOfConcat(b[..j] + [x], b[j + 1..], value);
      SumOfConcat(b[..j], [x], value);
      SumOfConcat(b[..j], b[j + 1..], value);
      assert SumOf([x], value) == value(x) by {
        assert [x][..0] == [];
      }
    }
  }

  // ---------------------------------------------------------------------------
  // Lemmas about selections and first occurrences
  // ---------------------------------------------------------------------------

  lemma WithKeySnoc<R, K>(p: seq<R>, x: R, key: R -> K)
    ensures forall k :: WithKey(p + [x], key, k) == WithKey(p, key, k) + (if key(x) == k then [x] else [])
  {
    assert (p + [x])[..|p|] == p;
  }

  lemma WithKeyNone<R, K>(p: seq<R>, key: R -> K, k: K)
    requires forall j :: 0 <= j < |p| ==> key(p[j]) != k
    ensures WithKey(p, key, k) == []
  {
    var w := WithKey(p, key, k);
    if w != [] {
      var j :| 0 <= j < |p| && p[j] == w[0];
    }
  }

  lemma FirstIndexSnoc<R, K>(p: seq<R>, x: R, key: R -> K)
    ensures forall k ::
      FirstIndex(p + [x], key, k) == (if FirstIndex(p, key, k) < |p| then FirstIndex(p, key, k)
                                      else if key(x) == k then |p| else |p| + 1)
  {
    forall k ensures FirstIndex(p + [x], key, k) ==
      if FirstIndex(p, key, k) < |p| then FirstIndex(p, key, k)
      else if key(x) == k then |p| else |p| + 1
    {
      FirstIndexSnocAt(p, x, key, k);
    }
  }

  lemma {:induction false} FirstIndexSnocAt<R, K>(p: seq<R>, x: R, key: R -> K, k: K)
    ensures FirstIndex(p + [x], key, k) ==
      if FirstIndex(p, key, k) < |p| then FirstIndex(p, key, k)
      else if key(x) == k then |p| else |p| + 1
    decreases |p|
  {
    if p != [] && key(p[0]) != k {
      assert (p + [x])[1..] == p[1..] + [x];
      FirstIndexSnocAt(p[1..], x, key, k);
    }
  }

  // ---------------------------------------------------------------------------
  // The InternMap is a correct grouping
  // ---------------------------------------------------------------------------

  ghost predicate KeysDistinct<R, K>(gs: seq<Group<R, K>>)
  {
    forall i, j :: 0 <= i < j < |gs| ==> gs[i].key != gs[j].key
  }

  /** Each bucket holds exactly the rows with its key, in input order. */
  ghost predicate MembersMatch<R, K>(rows: seq<R>, key: R -> K, gs: seq<Group<R, K>>)
  {
    forall i :: 0 <= i < |gs| ==> gs[i].members == WithKey(rows, key, gs[i].key)
  }

  /** Every key of a row has a bucket. */
  ghost predicate Covers<R, K>(rows: seq<R>, key: R -> K, gs: seq<Group<R, K>>)
  {
    forall j :: 0 <= j < |rows| ==> key(rows[j]) in GroupKeys(gs)
  }

  /** Every bucket key occurs in the rows, and buckets come in order of first occurrence. */
  ghost predicate FirstAppearanceOrder<R, K>(rows: seq<R>, key: R -> K, gs: seq<Group<R, K>>)
  {
    && (forall i :: 0 <= i < |gs| ==> FirstIndex(rows, key, gs[i].key) < |rows|)
    && (forall i, j :: 0 <= i < j < |gs| ==>
          FirstIndex(rows, key, gs[i].key) < FirstIndex(rows, key, gs[j].key))
  }

  /** gs is the grouping of rows by key, as an InternMap holds it. */
  ghost predicate Grouped<R, K>(rows: seq<R>, key: R -> K, gs: seq<Group<R, K>>)
  {
    KeysDistinct(gs) && MembersMatch(rows, key, gs) && Covers(rows, key, gs) && FirstAppearanceOrder(rows, key, gs)
  }

  lemma PlaceStep<R, K>(p: seq<R>, x: R, key: R -> K, gs: seq<Group<R, K>>)
    requires Grouped(p, key, gs)
    ensures Grouped(p + [x], key, Place(gs, key(x), x))
  {
    var k := key(x);
    if k in GroupKeys(gs) {
      PlaceExistingKeys(gs, k, x);
      PlaceExistingMembers(p, x, key, gs);
      PlaceExistingOrder(p, x, key, gs);
    } else {
      PlaceNewKeys(gs, k, x);
      PlaceNewMembers(p, x, key, gs);
      PlaceNewOrder(p, x, key, gs);
    }
    PlaceCovers(p, x, key, gs);
  }

  lemma PlaceExistingKeys<R, K>(gs: seq<Group<R, K>>, k: K, x: R)
    requires k in GroupKeys(gs)
    ensures |Place(gs, k, x)| == |gs|
    ensures forall i :: 0 <= i < |gs| ==> Place(gs, k, x)[i].key == gs[i].key
    ensures GroupKeys(Place(gs, k, x)) == GroupKeys(gs)
  {
  }

  lemma PlaceNewKeys<R, K>(gs: seq<Group<R, K>>, k: K, x: R)
    requires k !in GroupKeys(gs)
    ensures Place(gs, k, x) == gs + [Group(k, [x])]
    ensures GroupKeys(Place(gs, k, x)) == GroupKeys(gs) + [k]
  {
  }

  lemma PlaceCovers<R, K>(p: seq<R>, x: R, key: R -> K, gs: seq<Group<R, K>>)
    requires Covers(p, key, gs)
    ensures Covers(p + [x], key, Place(gs, key(x), x))
  {
    var q, hs := p + [x], Place(gs, key(x), x);
    if key(x) in GroupKeys(gs) {
      PlaceExistingKeys(gs, key(x), x);
    } else {
      PlaceNewKeys(gs, key(x), x);
    }
    forall j | 0 <= j < |q| ensures key(q[j]) in GroupKeys(hs) {
      if j < |p| {
        assert q[j] == p[j] && key(p[j]) in GroupKeys(gs);
      }
    }
  }

  lemma PlaceExistingMembers<R, K>(p: seq<R>, x: R, key: R -> K, gs: seq<Group<R, K>>)
    requires MembersMatch(p, key, gs)
    requires key(x) in GroupKeys(gs)
    ensures MembersMatch(p + [x], key, Place(gs, key(x), x))
  {
    var q, k, hs := p + [x], key(x), Place(gs, key(x), x);
    PlaceExistingKeys(gs, k, x);
    WithKeySnoc(p, x, key);
    forall i | 0 <= i < |hs| ensures hs[i].members == WithKey(q, key, hs[i].key) {
      assert WithKey(q, key, gs[i].key) == WithKey(p, key, gs[i].key) + (if k == gs[i].key then [x] else []);
    }
  }

  lemma PlaceNewMembers<R, K>(p: seq<R>, x: R, key: R -> K, gs: seq<Group<R, K>>)
    requires MembersMatch(p, key, gs) && Covers(p, key, gs)
    requires key(x) !in GroupKeys(gs)
    ensures MembersMatch(p + [x], key, Place(gs, key(x), x))
  {
    var q, k, hs := p + [x], key(x), Place(gs, key(x), x);
    PlaceNewKeys(gs, k, x);
    WithKeySnoc(p, x, key);
    assert forall j :: 0 <= j < |p| ==> key(p[j]) != k;
    WithKeyNone(p, key, k);
    forall i | 0 <= i < |hs| ensures hs[i].members == WithKey(q, key, hs[i].key) {
      if i < |gs| {
        assert GroupKeys(gs)[i] == gs[i].key;
        assert WithKey(q, key, gs[i].key) == WithKey(p, key, gs[i].key);
      }
    }
  }

  lemma PlaceExistingOrder<R, K>(p: seq<R>, x: R, key: R -> K, gs: seq<Group<R, K>>)
    requires FirstAppearanceOrder(p, key, gs)
    requires key(x) in GroupKeys(gs)
    ensures FirstAppearanceOrder(p + [x], key, Place(gs, key(x), x))
  {
    var q, k, hs := p + [x], key(x), Place(gs, key(x), x);
    PlaceExistingKeys(gs, k, x);
    FirstIndexSnoc(p, x, key);
    assert forall i :: 0 <= i < |hs| ==> FirstIndex(q, key, hs[i].key) == FirstIndex(p, key, gs[i].key);
  }

  lemma PlaceNewOrder<R, K>(p: seq<R>, x: R, key: R -> K, gs: seq<Group<R, K>>)
    requires FirstAppearanceOrder(p, key, gs) && Covers(p, key, gs)
    requires key(x) !in GroupKeys(gs)
    ensures FirstAppearanceOrder(p + [x], key, Place(gs, key(x), x))
  {
    var q, k, hs := p + [x], key(x), Place(gs, key(x), x);
    PlaceNewKeys(gs, k, x);
    FirstIndexSnoc(p, x, key);
    assert forall j :: 0 <= j < |p| ==> key(p[j]) != k;
    assert FirstIndex(p, key, k) == |p|;
    assert FirstIndex(q, key, k) == |p|;
    assert forall i :: 0 <= i < |gs| ==> FirstIndex(q, key, hs[i].key) == FirstIndex(p, key, gs[i].key);
  }

  lemma {:induction false} GroupByCorrect<R, K>(rows: seq<R>, key: R -> K)
    ensures Grouped(rows, key, GroupBy(rows, key))
    decreases |rows|
  {
    if rows != [] {
      var n := |rows| - 1;
      GroupByCorrect(rows[..n], key);
      assert rows == rows[..n] + [rows[n]];
      PlaceStep(rows[..n], rows[n], key, GroupBy(rows[..n], key));
    }
  }

  /** The one fact about the InternMap that the sum argument needs. */
  lemma GroupByKeysDistinct<R, K>(rows: seq<R>, key: R -> K)
    ensures KeysDistinct(GroupBy(rows, key))
  {
    GroupByCorrect(rows, key);
  }

  // ---------------------------------------------------------------------------
  // What the rollup promises
  // ---------------------------------------------------------------------------

  /**
   * Every key the rows produce appears exactly once in the rollup, with the
   * sum of the values of the rows that have it; the keys come in the order of
   * their first appearance in the rows.
   */
  lemma RollupCorrect<R, K>(rows: seq<R>, key: R -> K, value: R -> real)
    ensures Summarises(rows, key, value, Rollup(rows, key, value))
    ensures var r := Rollup(rows, key, value);
      forall i, j :: 0 <= i < j < |r| ==> FirstIndex(rows, key, r[i].key) < FirstIndex(rows, key, r[j].key)
  {
    var gs := GroupBy(rows, key);
    GroupByCorrect(rows, key);
    ReduceDistinct(gs, value);
    ReduceTotals(rows, key, gs, value);
    ReduceKeySet(rows, key, gs, value);
    ReduceOrder(rows, key, gs, value);
  }

  lemma ReduceDistinct<R, K>(gs: seq<Group<R, K>>, value: R -> real)
    requires KeysDistinct(gs)
    ensures DistinctKeys(Reduce(gs, value))
  {
  }

  lemma ReduceTotals<R, K>(rows: seq<R>, key: R -> K, gs: seq<Group<R, K>>, value: R -> real)
    requires MembersMatch(rows, key, gs)
    ensures var r := Reduce(gs, value);
      forall i :: 0 <= i < |r| ==> r[i].total == SumOf(WithKey(rows, key, r[i].key), value)
  {
  }

  lemma ReduceOrder<R, K>(rows: seq<R>, key: R -> K, gs: seq<Group<R, K>>, value: R -> real)
    requires FirstAppearanceOrder(rows, key, gs)
    ensures var r := Reduce(gs, value);
      forall i, j :: 0 <= i < j < |r| ==> FirstIndex(rows, key, r[i].key) < FirstIndex(rows, key, r[j].key)
  {
    var r := Reduce(gs, value);
    assert forall i :: 0 <= i < |r| ==> r[i].key == gs[i].key;
  }

  lemma ReduceKeySet<R, K>(rows: seq<R>, key: R -> K, gs: seq<Group<R, K>>, value: R -> real)
    requires Covers(rows, key, gs) && FirstAppearanceOrder(rows, key, gs)
    ensures KeySet(Reduce(gs, value)) == KeyImage(rows, key)
  {
    var r := Reduce(gs, value);
    forall k | k in KeyImage(rows, key) ensures k in KeySet(r) {
      var j :| 0 <= j < |rows| && key(rows[j]) == k;
      assert k in GroupKeys(gs);
      var i :| 0 <= i < |gs| && GroupKeys(gs)[i] == k;
      assert r[i].key == k;
    }
    forall k | k in KeySet(r) ensures k in KeyImage(rows, key) {
      var i :| 0 <= i < |r| && r[i].key == k;
      var n := FirstIndex(rows, key, gs[i].key);
      assert key(rows[n]) == k;
    }
  }

  /** The totals of a rollup add up to the sum over all rows. */
  lemma {:induction false} RollupPreservesTotal<R, K>(rows: seq<R>, key: R -> K, value: R -> real)
    ensures SumOf(Rollup(rows, key, value), TotalOf) == SumOf(rows, value)
    decreases |rows|
  {
    if rows != [] {
      var n := |rows| - 1;
      var p, x := rows[..n], rows[n];
      RollupPreservesTotal(p, key, value);
      GroupByKeysDistinct(p, key);
      ReducePlaceTotal(GroupBy(p, key), key(x), x, value);
    }
  }

  /** Filing one more row into the map raises the sum of the bucket totals by that row's value. */
  lemma ReducePlaceTotal<R, K>(gs: seq<Group<R, K>>, k: K, x: R, value: R -> real)
    requires KeysDistinct(gs)
    ensures SumOf(Reduce(Place(gs, k, x), value), TotalOf) == SumOf(Reduce(gs, value), TotalOf) + value(x)
  {
    if k in GroupKeys(gs) {
      ReducePlaceExistingTotal(gs, k, x, value);
    } else {
      ReducePlaceNewTotal(gs, k, x, value);
    }
  }

  lemma ReducePlaceExistingTotal<R, K>(gs: seq<Group<R, K>>, k: K, x: R, value: R -> real)
    requires KeysDistinct(gs) && k in GroupKeys(gs)
    ensures SumOf(Reduce(Place(gs, k, x), value), TotalOf) == SumOf(Reduce(gs, value), TotalOf) + value(x)
  {
    var before := Reduce(gs, value);
    var after := Reduce(Place(gs, k, x), value);
    PlaceExistingKeys(gs, k, x);
    var t :| 0 <= t < |gs| && GroupKeys(gs)[t] == k;
    var m := gs[t].members;
    assert (m + [x])[..|m|] == m;
    assert after[t].total == before[t].total + value(x);
    forall i | 0 <= i < |before| && i != t ensures TotalOf(before[i]) == TotalOf(after[i]) {
      assert gs[i].key != k;
    }
    SumOfUpdate(before, after, t, value(x), TotalOf);
  }

  lemma ReducePlaceNewTotal<R, K>(gs: seq<Group<R, K>>, k: K, x: R, value: R -> real)
    requires k !in GroupKeys(gs)
    ensures SumOf(Reduce(Place(gs, k, x), value), TotalOf) == SumOf(Reduce(gs, value), TotalOf) + value(x)
  {
    var before := Reduce(gs, value);
    var after := Reduce(Place(gs, k, x), value);
    PlaceNewKeys(gs, k, x);
    assert SumOf([x], value) == value(x) by {
      assert [x][..0] == [];
    }
    assert after == before + [Entry(k, SumOf([x], value))];
    assert after[..|after| - 1] == before;
  }

  // ---------------------------------------------------------------------------
  // Reordering a rollup
  // ---------------------------------------------------------------------------

  lemma OccursOnce<K>(es: seq<Entry<K>>, p: nat)
    requires DistinctKeys(es) && p < |es|
    ensures multiset(es)[es[p]] == 1
  {
    var x := es[p];
    var u, w := es[..p], es[p + 1..];
    assert es == u + [x] + w;
    assert forall i :: 0 <= i < |u| ==> u[i] == es[i];
    assert forall i :: 0 <= i < |w| ==> w[i] == es[p + 1 + i];
    assert x !in u;
    assert x !in w;
  }

  /** Two positions holding the same element make it occur at least twice. */
  lemma OccursTwice<T>(s: seq<T>, i: nat, j: nat)
    requires i < j < |s| && s[i] == s[j]
    ensures multiset(s)[s[i]] >= 2
  {
    assert s == s[..j] + s[j..];
    assert s[i] in s[..j] && s[j] in s[j..];
  }

  /** A permutation of entries with distinct keys has distinct keys. */
  lemma DistinctKeysPermutation<K>(a: seq<Entry<K>>, b: seq<Entry<K>>)
    requires DistinctKeys(a) && multiset(a) == multiset(b)
    ensures DistinctKeys(b)
  {
    forall i, j | 0 <= i < j < |b| ensures b[i].key != b[j].key {
      assert b[i] in multiset(a) && b[j] in multiset(a);
      var p :| 0 <= p < |a| && a[p] == b[i];
      var q :| 0 <= q < |a| && a[q] == b[j];
      if p == q {
        OccursTwice(b, i, j);
        OccursOnce(a, p);
        assert false;
      }
    }
  }

  /** Reordering a summary of the rows leaves it a summary of the rows. */
  lemma SummarisesPermutation<R, K>(rows: seq<R>, key: R -> K, value: R -> real, a: seq<Entry<K>>, b: seq<Entry<K>>)
    requires Summarises(rows, key, value, a) && multiset(a) == multiset(b)
    ensures Summarises(rows, key, value, b)
  {
    DistinctKeysPermutation(a, b);
    forall i | 0 <= i < |b| ensures b[i].total == SumOf(WithKey(rows, key, b[i].key), value) {
      assert b[i] in multiset(a);
      var p :| 0 <= p < |a| && a[p] == b[i];
    }
    forall k | k in KeySet(a) ensures k in KeySet(b) {
      var p :| 0 <= p < |a| && a[p].key == k;
      assert a[p] in multiset(b);
      var q :| 0 <= q < |b| && b[q] == a[p];
    }
    forall k | k in KeySet(b) ensures k in KeySet(a) {
      var q :| 0 <= q < |b| && b[q].key == k;
      assert b[q] in multiset(a);
      var p :| 0 <= p < |a| && a[p] == b[q];
    }
  }

  /** Entries with distinct keys are as many as their keys. */
  lemma {:induction false} KeySetSize<K>(es: seq<Entry<K>>)
    requires DistinctKeys(es)
    ensures |KeySet(es)| == |es|
    decreases |es|
  {
    if es != [] {
      var n := |es| - 1;
      var p := es[..n];
      assert DistinctKeys(p);
      KeySetSize(p);
      assert KeySet(es) == KeySet(p) + {es[n].key};
      assert es[n].key !in KeySet(p);
    }
  }

  // ---------------------------------------------------------------------------
  // Reordering the rows; scaling a sum
  // ---------------------------------------------------------------------------

  /** A row occurs among the rows with key k as often as among all rows if its key is k, else never. */
  lemma {:induction false} WithKeyCount<R, K>(rows: seq<R>, key: R -> K, k: K, x: R)
    ensures multiset(WithKey(rows, key, k))[x] == if key(x) == k then multiset(rows)[x] else 0
    decreases |rows|
  {
    if rows != [] {
      var n := |rows| - 1;
      assert rows == rows[..n] + [rows[n]];
      WithKeyCount(rows[..n], key, k, x);
    }
  }

  /** Reordering the rows reorders the rows of every key. */
  lemma WithKeyPermutation<R, K>(a: seq<R>, b: seq<R>, key: R -> K, k: K)
    requires multiset(a) == multiset(b)
    ensures multiset(WithKey(a, key, k)) == multiset(WithKey(b, key, k))
  {
    forall x ensures multiset(WithKey(a, key, k))[x] == multiset(WithKey(b, key, k))[x] {
      WithKeyCount(a, key, k, x);
      WithKeyCount(b, key, k, x);
    }
  }

  /**
   * The totals do not depend on the order of the rows: the rollup of a
   * reordering of the rows is a summary of the original rows as well.
   */
  lemma RollupIgnoresRowOrder<R, K>(rows: seq<R>, shuffled: seq<R>, key: R -> K, value: R -> real)
    requires multiset(rows) == multiset(shuffled)
    ensures Summarises(rows, key, value, Rollup(shuffled, key, value))
  {
    var r := Rollup(shuffled, key, value);
    RollupCorrect(shuffled, key, value);
    forall i | 0 <= i < |r| ensures r[i].total == SumOf(WithKey(rows, key, r[i].key), value) {
      WithKeyPermutation(rows, shuffled, key, r[i].key);
      SumOfPermutation(WithKey(rows, key, r[i].key), WithKey(shuffled, key, r[i].key), value);
    }
    forall k | k in KeyImage(shuffled, key) ensures k in KeyImage(rows, key) {
      var j :| 0 <= j < |shuffled| && key(shuffled[j]) == k;
      assert shuffled[j] in multiset(rows);
      var m :| 0 <= m < |rows| && rows[m] == shuffled[j];
    }
    forall k | k in KeyImage(rows, key) ensures k in KeyImage(shuffled, key) {
      var m :| 0 <= m < |rows| && key(rows[m]) == k;
      assert rows[m] in multiset(shuffled);
      var j :| 0 <= j < |shuffled| && shuffled[j] == rows[m];
    }
  }

  /** Multiplying every value by c multiplies the sum by c. */
  lemma {:induction false} SumOfScaled<R, S>(a: seq<R>, f: R -> real, b: seq<S>, g: S -> real, c: real)
    requires |a| == |b| && forall i :: 0 <= i < |a| ==> g(b[i]) == f(a[i]) * c
    ensures SumOf(b, g) == SumOf(a, f) * c
    decreases |a|
  {
    if a != [] {
      var n := |a| - 1;
      SumOfScaled(a[..n], f, b[..n], g, c);
      assert g(b[n]) == f(a[n]) * c;
    }
  }
}
