/** Python's `list.sort(key=..., reverse=True)` / `sorted(..., reverse=True)` as a stable
    insertion sort: the order is non-increasing in the key and elements with equal keys
    keep their input order. */
module Sorting {

  predicate SortedDesc<T>(s: seq<T>, key: T -> real) {
    forall i, j :: 0 <= i < j < |s| ==> key(s[i]) >= key(s[j])
  }

  /** The elements of `s` whose key is `v`, in order. */
  function WithKey<T>(s: seq<T>, key: T -> real, v: real): seq<T>
  {
    if |s| == 0 then []
    else (if key(s[0]) == v then [s[0]] else []) + WithKey(s[1..], key, v)
  }

  /** Places `x` after every element whose key is at least `key(x)`. */
  function Insert<T(==,!new)>(x: T, s: seq<T>, key: T -> real): (r: seq<T>)
    requires SortedDesc(s, key)
    ensures SortedDesc(r, key)
    ensures |r| == |s| + 1
    ensures forall y :: y in r <==> y == x || y in s
    decreases |s|
  {
    if |s| == 0 || key(s[|s| - 1]) >= key(x) then
      assert forall i :: 0 <= i < |s| ==> key(s[i]) >= key(x) by {
        forall i | 0 <= i < |s| ensures key(s[i]) >= key(x) {
          if i < |s| - 1 { assert key(s[i]) >= key(s[|s| - 1]); }
        }
      }
      s + [x]
    else
      var init, last := s[..|s| - 1], s[|s| - 1];
      assert s == init + [last];
      var r' := Insert(x, init, key);
      assert forall y :: y in r' ==> key(y) >= key(last) by {
        forall y | y in r' ensures key(y) >= key(last) {
          if y != x {
            var i :| 0 <= i < |init| && init[i] == y;
            assert s[i] == y;
          }
        }
      }
      assert forall i :: 0 <= i < |r'| ==> key(r'[i]) >= key(last) by {
        forall i | 0 <= i < |r'| ensures key(r'[i]) >= key(last) {
          assert r'[i] in r';
        }
      }
      r' + [last]
  }

  /** Stable sort into non-increasing key order. */
  function SortDesc<T(==,!new)>(s: seq<T>, key: T -> real): (r: seq<T>)
    ensures SortedDesc(r, key)
    ensures |r| == |s|
    ensures forall y :: y in r <==> y in s
  {
    if |s| == 0 then []
    else
      assert s == s[..|s| - 1] + [s[|s| - 1]];
      Insert(s[|s| - 1], SortDesc(s[..|s| - 1], key), key)
  }

  lemma {:induction false} WithKeyAppend<T>(a: seq<T>, b: seq<T>, key: T -> real, v: real)
    ensures WithKey(a + b, key, v) == WithKey(a, key, v) + WithKey(b, key, v)
    decreases |a|
  {
    if |a| > 0 {
      assert (a + b)[1..] == a[1..] + b;
      WithKeyAppend(a[1..], b, key, v);
    } else {
      assert a + b == b;
    }
  }

  lemma {:induction false} InsertWithKey<T(!new)>(x: T, s: seq<T>, key: T -> real, v: real)
    requires SortedDesc(s, key)
    ensures WithKey(Insert(x, s, key), key, v)
         == WithKey(s, key, v) + (if key(x) == v then [x] else [])
    decreases |s|
  {
    if |s| == 0 || key(s[|s| - 1]) >= key(x) {
      WithKeyAppend(s, [x], key, v);
    } else {
      var init, last := s[..|s| - 1], s[|s| - 1];
      assert s == init + [last];
      InsertWithKey(x, init, key, v);
      WithKeyAppend(Insert(x, init, key), [last], key, v);
      WithKeyAppend(init, [last], key, v);
    }
  }

  /** Elements with equal keys leave the sort in the order they entered it. */
  lemma {:induction false} SortIsStable<T(!new)>(s: seq<T>, key: T -> real, v: real)
    ensures WithKey(SortDesc(s, key), key, v) == WithKey(s, key, v)
    decreases |s|
  {
    if |s| > 0 {
      var init, last := s[..|s| - 1], s[|s| - 1];
      assert s == init + [last];
      SortIsStable(init, key, v);
      InsertWithKey(last, SortDesc(init, key), key, v);
      WithKeyAppend(init, [last], key, v);
    }
  }

  /** Inserting adds exactly the one element. */
  lemma {:induction false} InsertCounts<T(!new)>(x: T, s: seq<T>, key: T -> real)
    requires SortedDesc(s, key)
    ensures multiset(Insert(x, s, key)) == multiset(s) + multiset{x}
    decreases |s|
  {
    if |s| > 0 && key(s[|s| - 1]) < key(x) {
      var init, last := s[..|s| - 1], s[|s| - 1];
      assert s == init + [last];
      InsertCounts(x, init, key);
    }
  }

  /** The sort is a permutation: every element leaves it as often as it entered. */
  lemma {:induction false} SortCounts<T(!new)>(s: seq<T>, key: T -> real)
    ensures multiset(SortDesc(s, key)) == multiset(s)
    decreases |s|
  {
    if |s| > 0 {
      var init, last := s[..|s| - 1], s[|s| - 1];
      assert s == init + [last];
      SortCounts(init, key);
      InsertCounts(last, SortDesc(init, key), key);
    }
  }
}
