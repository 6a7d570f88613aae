/**
 * Array.prototype.sort with a comparator of the form (a, b) => f(a) - f(b),
 * which orders by f ascending and, since ECMAScript 2019, is stable: elements
 * whose scores tie keep their input order. Array.prototype.slice(0, n) keeps
 * a prefix.
 */
module StableSort {
  import opened Rollups

  /** Non-decreasing by score. */
  ghost predicate Sorted<T>(s: seq<T>, score: T -> real)
  {
    forall i, j :: 0 <= i < j < |s| ==> score(s[i]) <= score(s[j])
  }

  /** The elements whose score is v, in their order in s: the selection by key, with the score as key. */
  function WithScore<T>(s: seq<T>, score: T -> real, v: real): seq<T>
  {
    WithKey(s, score, v)
  }

  lemma WithScoreSnoc<T>(s: seq<T>, x: T, score: T -> real)
    ensures forall v :: WithScore(s + [x], score, v) == WithScore(s, score, v) + (if score(x) == v then [x] else [])
  {
    WithKeySnoc(s, x, score);
  }

  /**
   * Puts x into a sorted s after every element whose score is at most x's, so
   * that x follows any earlier element it ties with.
   */
  function Insert<T>(s: seq<T>, x: T, score: T -> real): seq<T>
    decreases |s|
  {
    if s == [] || score(s[|s| - 1]) <= score(x) then s + [x]
    else Insert(s[..|s| - 1], x, score) + [s[|s| - 1]]
  }

  /** Stable insertion sort by ascending score. */
  function SortBy<T>(s: seq<T>, score: T -> real): seq<T>
  {
    if s == [] then [] else Insert(SortBy(s[..|s| - 1], score), s[|s| - 1], score)
  }

  /** s.slice(0, n). */
  function Take<T>(s: seq<T>, n: nat): (r: seq<T>)
    ensures |r| == if n <= |s| then n else |s|
    ensures r == s[..|r|]
  {
    if n <= |s| then s[..n] else s
  }

  // ---------------------------------------------------------------------------
  // Insertion
  // ---------------------------------------------------------------------------

  lemma {:induction false} InsertPermutes<T>(s: seq<T>, x: T, score: T -> real)
    ensures multiset(Insert(s, x, score)) == multiset(s) + multiset{x}
    decreases |s|
  {
    if s != [] && score(x) < score(s[|s| - 1]) {
      var n := |s| - 1;
      assert s == s[..n] + [s[n]];
      InsertPermutes(s[..n], x, score);
    }
  }

  lemma {:induction false} InsertSorted<T>(s: seq<T>, x: T, score: T -> real)
    requires Sorted(s, score)
    ensures Sorted(Insert(s, x, score), score)
    decreases |s|
  {
    if s != [] && score(x) < score(s[|s| - 1]) {
      var n := |s| - 1;
      var p, last := s[..n], s[n];
      InsertSorted(p, x, score);
      InsertPermutes(p, x, score);
      var ins := Insert(p, x, score);
      forall i | 0 <= i < |ins| ensures score(ins[i]) <= score(last) {
        assert ins[i] in multiset(p) + multiset{x};
        if ins[i] != x {
          assert ins[i] in p;
          var j :| 0 <= j < |p| && p[j] == ins[i];
          assert s[j] == p[j];
        }
      }
    }
  }

  lemma {:induction false} InsertStable<T>(s: seq<T>, x: T, score: T -> real)
    requires Sorted(s, score)
    ensures forall v ::
      WithScore(Insert(s, x, score), score, v) == WithScore(s, score, v) + (if score(x) == v then [x] else [])
    decreases |s|
  {
    WithScoreSnoc(s, x, score);
    if s != [] && score(x) < score(s[|s| - 1]) {
      var n := |s| - 1;
      var p, last := s[..n], s[n];
      assert s == p + [last];
      InsertStable(p, x, score);
      InsertStableStep(s, p, last, x, score);
    }
  }

  /** The step of InsertStable: x passes an element of a larger score, which is not in x's filter. */
  lemma InsertStableStep<T>(s: seq<T>, p: seq<T>, last: T, x: T, score: T -> real)
    requires s == p + [last] && score(x) < score(last)
    requires forall v ::
      WithScore(Insert(p, x, score), score, v) == WithScore(p, score, v) + (if score(x) == v then [x] else [])
    ensures forall v ::
      WithScore(Insert(s, x, score), score, v) == WithScore(s, score, v) + (if score(x) == v then [x] else [])
  {
    var ins := Insert(p, x, score);
    assert Insert(s, x, score) == ins + [last];
    WithScoreSnoc(ins, last, score);
    WithScoreSnoc(p, last, score);
  }

  // ---------------------------------------------------------------------------
  // The sort
  // ---------------------------------------------------------------------------

  /**
   * The result is sorted by score, a permutation of the input, and stable:
   * for every score, the elements with that score appear in input order.
   */
  lemma {:induction false} SortByCorrect<T>(s: seq<T>, score: T -> real)
    ensures Sorted(SortBy(s, score), score)
    ensures multiset(SortBy(s, score)) == multiset(s)
    ensures forall v :: WithScore(SortBy(s, score), score, v) == WithScore(s, score, v)
    decreases |s|
  {
    if s != [] {
      var n := |s| - 1;
      assert s == s[..n] + [s[n]];
      SortByCorrect(s[..n], score);
      InsertSorted(SortBy(s[..n], score), s[n], score);
      InsertPermutes(SortBy(s[..n], score), s[n], score);
      InsertStable(SortBy(s[..n], score), s[n], score);
      WithScoreSnoc(s[..n], s[n], score);
    }
  }

  lemma WithScoreLast<T>(s: seq<T>, score: T -> real)
    requires s != []
    ensures WithScore(s, score, score(s[|s| - 1])) ==
      WithScore(s[..|s| - 1], score, score(s[|s| - 1])) + [s[|s| - 1]]
    ensures forall v :: v != score(s[|s| - 1]) ==> WithScore(s, score, v) == WithScore(s[..|s| - 1], score, v)
  {
  }

  /** In a sorted sequence no element scores above the last one. */
  lemma SortedLastIsMax<T>(s: seq<T>, score: T -> real, y: T)
    requires Sorted(s, score) && y in s
    ensures score(y) <= score(s[|s| - 1])
  {
    var j :| 0 <= j < |s| && s[j] == y;
  }

  /** The last element of a non-empty sequence is found among the elements with its score. */
  lemma LastHasScore<T>(s: seq<T>, score: T -> real)
    requires s != []
    ensures WithScore(s, score, score(s[|s| - 1])) != []
  {
    assert s[|s| - 1] in WithScore(s, score, score(s[|s| - 1]));
  }

  /** A sequence with no element at any score is empty. */
  lemma NoScoresEmpty<T>(s: seq<T>, score: T -> real)
    requires forall v :: WithScore(s, score, v) == []
    ensures s == []
  {
    if s != [] {
      assert WithScore(s, score, score(s[|s| - 1])) == [];
      LastHasScore(s, score);
      assert false;
    }
  }

  /**
   * Two sorted sequences with the same elements at every score, in the same
   * order, are equal: a stable sort has only one possible result.
   */
  lemma {:induction false} SortedUnique<T>(a: seq<T>, b: seq<T>, score: T -> real)
    requires Sorted(a, score) && Sorted(b, score)
    requires forall v :: WithScore(a, score, v) == WithScore(b, score, v)
    ensures a == b
    decreases |a|
  {
    if a == [] {
      NoScoresEmpty(b, score);
    } else if b == [] {
      NoScoresEmpty(a, score);
    } else {
      var x, y := a[|a| - 1], b[|b| - 1];
      var a', b' := a[..|a| - 1], b[..|b| - 1];
      SortedLastsAgree(a, b, score);
      assert a == a' + [x] && b == b' + [x];
      PrefixFiltersAgree(a, a', b, b', x, score);
      SortedUnique(a', b', score);
    }
  }

  /** The step of SortedUnique: the maximal elements at the end agree. */
  lemma SortedLastsAgree<T>(a: seq<T>, b: seq<T>, score: T -> real)
    requires a != [] && b != []
    requires Sorted(a, score) && Sorted(b, score)
    requires forall v :: WithScore(a, score, v) == WithScore(b, score, v)
    ensures a[|a| - 1] == b[|b| - 1]
  {
    var x, y := a[|a| - 1], b[|b| - 1];
    LastScoresAgree(a, b, score);
    var m := score(x);
    WithScoreLast(a, score);
    WithScoreLast(b, score);
    var u, w := WithScore(a[..|a| - 1], score, m), WithScore(b[..|b| - 1], score, m);
    assert u + [x] == w + [y];
    assert (u + [x])[|u|] == x && (w + [y])[|w|] == y;
  }

  lemma LastScoresAgree<T>(a: seq<T>, b: seq<T>, score: T -> real)
    requires a != [] && b != []
    requires Sorted(a, score) && Sorted(b, score)
    requires forall v :: WithScore(a, score, v) == WithScore(b, score, v)
    ensures score(a[|a| - 1]) == score(b[|b| - 1])
  {
    var x, y := a[|a| - 1], b[|b| - 1];
    ScoreFound(a, b, score, |b| - 1);
    SortedLastIsMax(a, score, y);
    ScoreFound(b, a, score, |a| - 1);
    SortedLastIsMax(b, score, x);
  }

  /** An element of b is an element of any a that has the same filters. */
  lemma ScoreFound<T>(a: seq<T>, b: seq<T>, score: T -> real, j: nat)
    requires j < |b|
    requires forall v :: WithScore(a, score, v) == WithScore(b, score, v)
    ensures b[j] in a
  {
    var r := WithScore(b, score, score(b[j]));
    assert b[j] in r;
    var i :| 0 <= i < |r| && r[i] == b[j];
    assert r == WithScore(a, score, score(b[j]));
  }

  /** Removing the same last element from both sides keeps the filters equal. */
  lemma PrefixFiltersAgree<T>(a: seq<T>, a': seq<T>, b: seq<T>, b': seq<T>, x: T, score: T -> real)
    requires a == a' + [x] && b == b' + [x]
    requires Sorted(a, score) && Sorted(b, score)
    requires forall v :: WithScore(a, score, v) == WithScore(b, score, v)
    ensures Sorted(a', score) && Sorted(b', score)
    ensures forall v :: WithScore(a', score, v) == WithScore(b', score, v)
  {
    WithScoreSnoc(a', x, score);
    WithScoreSnoc(b', x, score);
    forall v ensures WithScore(a', score, v) == WithScore(b', score, v) {
      var u, w := WithScore(a', score, v), WithScore(b', score, v);
      if v == score(x) {
        assert u + [x] == w + [x];
        assert u == (u + [x])[..|u|];
        assert w == (w + [x])[..|w|];
      } else {
        assert u == WithScore(a, score, v);
      }
    }
    assert forall i :: 0 <= i < |a'| ==> a'[i] == a[i];
    assert forall i :: 0 <= i < |b'| ==> b'[i] == b[i];
  }

  /**
   * t is an outcome of a stable sort of s by score: sorted, and at every score
   * listing the elements of s with that score in their order in s.
   */
  ghost predicate StablySorted<T>(t: seq<T>, s: seq<T>, score: T -> real)
  {
    Sorted(t, score) && forall v :: WithScore(t, score, v) == WithScore(s, score, v)
  }

  /** SortBy is exactly the stable sort: t is SortBy(s) if and only if t is a stable sorting of s. */
  lemma StableSortCharacterised<T>(s: seq<T>, t: seq<T>, score: T -> real)
    ensures t == SortBy(s, score) <==> StablySorted(t, s, score)
  {
    SortByCorrect(s, score);
    assert StablySorted(SortBy(s, score), s, score);
    if StablySorted(t, s, score) {
      SortedUnique(t, SortBy(s, score), score);
    }
  }

  // ---------------------------------------------------------------------------
  // Ties in input order
  // ---------------------------------------------------------------------------

  /** No element occurs twice. */
  ghost predicate Distinct<T>(s: seq<T>)
  {
    forall i, j :: 0 <= i < j < |s| ==> s[i] != s[j]
  }

  /** Two elements with the same score keep their relative order in the filter for that score. */
  lemma {:induction false} WithScoreOrder<T>(s: seq<T>, score: T -> real, i: nat, j: nat)
    requires i < j < |s| && score(s[i]) == score(s[j])
    ensures var w := WithScore(s, score, score(s[i]));
      exists p, q :: 0 <= p < q < |w| && w[p] == s[i] && w[q] == s[j]
    decreases |s|
  {
    var n, v := |s| - 1, score(s[i]);
    var s' := s[..n];
    var w' := WithScore(s', score, v);
    assert s'[i] == s[i];
    if j == n {
      assert WithScore(s, score, v) == w' + [s[n]];
      assert s'[i] in w';
      var p :| 0 <= p < |w'| && w'[p] == s[i];
      assert (w' + [s[n]])[p] == s[i] && (w' + [s[n]])[|w'|] == s[j];
    } else {
      assert s'[j] == s[j];
      WithScoreOrder(s', score, i, j);
      var p, q :| 0 <= p < q < |w'| && w'[p] == s[i] && w'[q] == s[j];
      var w := WithScore(s, score, v);
      assert w[p] == w'[p] && w[q] == w'[q];
    }
  }

  /** Filtering keeps the elements distinct. */
  lemma {:induction false} WithScoreDistinct<T>(s: seq<T>, score: T -> real, v: real)
    requires Distinct(s)
    ensures Distinct(WithScore(s, score, v))
    decreases |s|
  {
    if s != [] {
      var n := |s| - 1;
      var s' := s[..n];
      assert Distinct(s');
      WithScoreDistinct(s', score, v);
      var w' := WithScore(s', score, v);
      forall k | 0 <= k < |w'| ensures w'[k] != s[n] {
        var m :| 0 <= m < |s'| && s'[m] == w'[k];
        assert s[m] == s'[m];
      }
    }
  }

  /**
   * Stability in terms of positions: two elements of a distinct input that tie
   * on score come out of SortBy in the order in which they went in.
   */
  lemma SortByKeepsTieOrder<T>(s: seq<T>, score: T -> real)
    requires Distinct(s)
    ensures var r := SortBy(s, score);
      forall i, j, a, b ::
        (0 <= i < j < |r| && 0 <= a < |s| && 0 <= b < |s| &&
         score(r[i]) == score(r[j]) && s[a] == r[i] && s[b] == r[j]) ==> a < b
  {
    var r := SortBy(s, score);
    SortByCorrect(s, score);
    forall i, j, a, b | 0 <= i < j < |r| && 0 <= a < |s| && 0 <= b < |s| &&
      score(r[i]) == score(r[j]) && s[a] == r[i] && s[b] == r[j]
      ensures a < b
    {
      TieOrder(s, r, score, i, j, a, b);
    }
  }

  lemma TieOrder<T>(s: seq<T>, r: seq<T>, score: T -> real, i: nat, j: nat, a: nat, b: nat)
    requires Distinct(s) && forall v :: WithScore(r, score, v) == WithScore(s, score, v)
    requires i < j < |r| && a < |s| && b < |s| && score(r[i]) == score(r[j])
    requires s[a] == r[i] && s[b] == r[j]
    ensures a < b
  {
    var v := score(r[i]);
    var w := WithScore(s, score, v);
    WithScoreDistinct(s, score, v);
    WithScoreOrder(r, score, i, j);
    var p, q :| 0 <= p < q < |w| && w[p] == r[i] && w[q] == r[j];
    if a == b {
      assert false;
    } else if b < a {
      WithScoreOrder(s, score, b, a);
      assert false;
    }
  }

  // ---------------------------------------------------------------------------
  // Top-N
  // ---------------------------------------------------------------------------

  /**
   * Of a sorted sequence, the first n elements are kept: nothing left out
   * scores lower than anything kept.
   */
  lemma TakeOfSorted<T>(s: seq<T>, n: nat, score: T -> real)
    requires Sorted(s, score)
    ensures var r := Take(s, n);
      forall i, j :: 0 <= i < |r| <= j < |s| ==> score(r[i]) <= score(s[j])
  {
  }
}
