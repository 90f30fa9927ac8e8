/** The nested loop `for i in range(n): for j in range(i + 1, n)` that every corpus scan uses. */
module Pairs {

  /** `p` comes before `q` in the order the nested loop visits pairs. */
  predicate LexLess(p: (nat, nat), q: (nat, nat)) {
    p.0 < q.0 || (p.0 == q.0 && p.1 < q.1)
  }

  predicate StrictlyIncreasing(s: seq<(nat, nat)>) {
    forall k, l :: 0 <= k < l < |s| ==> LexLess(s[k], s[l])
  }

  /** The inner loop: `(i, j)` for `j` in `range(j0, n)`. */
  function Row(i: nat, j0: nat, n: nat): (r: seq<(nat, nat)>)
    ensures |r| == if j0 <= n then n - j0 else 0
    ensures forall k :: 0 <= k < |r| ==> r[k] == (i, j0 + k)
    decreases n - j0
  {
    if j0 >= n then [] else [(i, j0)] + Row(i, j0 + 1, n)
  }

  /** The outer loop from `i0` on. */
  function PairsFrom(i0: nat, n: nat): (r: seq<(nat, nat)>)
    ensures forall k :: 0 <= k < |r| ==> i0 <= r[k].0 < r[k].1 < n
    ensures StrictlyIncreasing(r)
    decreases n - i0
  {
    if i0 >= n then []
    else
      var row, rest := Row(i0, i0 + 1, n), PairsFrom(i0 + 1, n);
      assert forall k, l :: 0 <= k < |row| && 0 <= l < |rest| ==> LexLess(row[k], rest[l]);
      row + rest
  }

  /** Every index pair `i < j < n`, in the order the nested loop visits them. */
  function IndexPairs(n: nat): (r: seq<(nat, nat)>)
    ensures forall k :: 0 <= k < |r| ==> r[k].0 < r[k].1 < n
  {
    PairsFrom(0, n)
  }

  lemma {:induction false} PairsFromComplete(i0: nat, n: nat, i: nat, j: nat)
    requires i0 <= i < j < n
    ensures (i, j) in PairsFrom(i0, n)
    decreases n - i0
  {
    var row := Row(i0, i0 + 1, n);
    if i == i0 {
      assert row[j - i0 - 1] == (i, j);
    } else {
      PairsFromComplete(i0 + 1, n, i, j);
    }
  }

  /** The enumeration visits exactly the pairs `i < j < n`, each of them once. */
  lemma IndexPairsExactlyOnce(n: nat)
    ensures forall i: nat, j: nat :: (i, j) in IndexPairs(n) <==> i < j < n
    ensures forall k, l :: 0 <= k < l < |IndexPairs(n)| ==> IndexPairs(n)[k] != IndexPairs(n)[l]
  {
    forall i: nat, j: nat | i < j < n ensures (i, j) in IndexPairs(n) {
      PairsFromComplete(0, n, i, j);
    }
  }

  lemma {:induction false} PairsFromCount(i0: nat, n: nat)
    requires i0 <= n
    ensures 2 * |PairsFrom(i0, n)| == (n - i0) * (n - i0 - 1)
    decreases n - i0
  {
    if i0 < n {
      PairsFromCount(i0 + 1, n);
      var m := n - i0;
      assert 2 * |PairsFrom(i0, n)| == 2 * (m - 1) + (m - 1) * (m - 2);
      assert 2 * (m - 1) + (m - 1) * (m - 2) == m * (m - 1);
    }
  }

  /** `n` documents give `n(n-1)/2` comparisons. */
  lemma IndexPairsCount(n: nat)
    ensures |IndexPairs(n)| == n * (n - 1) / 2
  {
    PairsFromCount(0, n);
  }

  /** The documents of each visited pair, `(docs[i], docs[j])`. */
  function DocPairs<D>(docs: seq<D>): (r: seq<(D, D)>)
    ensures |r| == |IndexPairs(|docs|)|
    ensures forall k :: 0 <= k < |r| ==>
      r[k] == (docs[IndexPairs(|docs|)[k].0], docs[IndexPairs(|docs|)[k].1])
  {
    var ps := IndexPairs(|docs|);
    seq(|ps|, k requires 0 <= k < |ps| => (docs[ps[k].0], docs[ps[k].1]))
  }

  /** A pair of documents is visited iff it sits at two positions `i < j`. */
  lemma DocPairsMembers<D>(docs: seq<D>, a: D, b: D)
    ensures (a, b) in DocPairs(docs) <==>
      exists i, j :: 0 <= i < j < |docs| && docs[i] == a && docs[j] == b
  {
    var ps := IndexPairs(|docs|);
    IndexPairsExactlyOnce(|docs|);
    if exists i, j :: 0 <= i < j < |docs| && docs[i] == a && docs[j] == b {
      var i, j :| 0 <= i < j < |docs| && docs[i] == a && docs[j] == b;
      assert (i, j) in ps;
      var k :| 0 <= k < |ps| && ps[k] == (i, j);
      assert DocPairs(docs)[k] == (a, b);
    }
  }

  /** `f` applied to each visited pair of documents, in visiting order. */
  function PairMap<D, R>(docs: seq<D>, f: (D, D) -> R): (r: seq<R>)
    ensures |r| == |IndexPairs(|docs|)|
  {
    var ps := DocPairs(docs);
    seq(|ps|, k requires 0 <= k < |ps| => f(ps[k].0, ps[k].1))
  }

  /** A value comes out of the pair loop iff `f` produces it from two positions `i < j`. */
  lemma PairMapMembers<D, R(!new)>(docs: seq<D>, f: (D, D) -> R)
    ensures forall x :: x in PairMap(docs, f) <==>
      exists i, j :: 0 <= i < j < |docs| && x == f(docs[i], docs[j])
  {
    var ps := IndexPairs(|docs|);
    var r := PairMap(docs, f);
    IndexPairsExactlyOnce(|docs|);
    forall x ensures x in r <==> exists i, j :: 0 <= i < j < |docs| && x == f(docs[i], docs[j]) {
      if x in r {
        var k :| 0 <= k < |r| && r[k] == x;
        assert x == f(docs[ps[k].0], docs[ps[k].1]);
      }
      if exists i, j :: 0 <= i < j < |docs| && x == f(docs[i], docs[j]) {
        var i, j :| 0 <= i < j < |docs| && x == f(docs[i], docs[j]);
        assert (i, j) in ps;
        var k :| 0 <= k < |ps| && ps[k] == (i, j);
        assert r[k] == x;
      }
    }
  }
}
