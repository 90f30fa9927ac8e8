/** Levenshtein edit distance (unit-cost insert, delete, substitute on characters), the
    quantity `Levenshtein.distance` returns in `levenshtein_similarity`. */
module Levenshtein {

  function Min3(x: nat, y: nat, z: nat): nat {
    if x <= y && x <= z then x else if y <= z then y else z
  }

  /** The edit distance, defined on the last characters of both strings. */
  function Distance(a: string, b: string): nat
    decreases |a| + |b|
  {
    if |a| == 0 then |b|
    else if |b| == 0 then |a|
    else Min3(Distance(a[..|a| - 1], b) + 1,
              Distance(a, b[..|b| - 1]) + 1,
              Distance(a[..|a| - 1], b[..|b| - 1]) + (if a[|a| - 1] == b[|b| - 1] then 0 else 1))
  }

  /** Substituting position by position never costs more than the longer string's length. */
  lemma {:induction false} DistanceBound(a: string, b: string)
    ensures Distance(a, b) <= if |a| >= |b| then |a| else |b|
    decreases |a| + |b|
  {
    if |a| > 0 && |b| > 0 {
      DistanceBound(a[..|a| - 1], b[..|b| - 1]);
    }
  }

  lemma {:induction false} DistanceSelf(a: string)
    ensures Distance(a, a) == 0
    decreases |a|
  {
    if |a| > 0 {
      DistanceSelf(a[..|a| - 1]);
    }
  }

  /** Distance zero only between equal strings. */
  lemma {:induction false} DistanceZeroMeansEqual(a: string, b: string)
    requires Distance(a, b) == 0
    ensures a == b
    decreases |a| + |b|
  {
    if |a| > 0 && |b| > 0 {
      DistanceZeroMeansEqual(a[..|a| - 1], b[..|b| - 1]);
      assert a == a[..|a| - 1] + [a[|a| - 1]];
      assert b == b[..|b| - 1] + [b[|b| - 1]];
    }
  }

  lemma DistanceZeroIff(a: string, b: string)
    ensures Distance(a, b) == 0 <==> a == b
  {
    if a == b { DistanceSelf(a); }
    if Distance(a, b) == 0 { DistanceZeroMeansEqual(a, b); }
  }

  lemma {:induction false} DistanceSymmetric(a: string, b: string)
    ensures Distance(a, b) == Distance(b, a)
    decreases |a| + |b|
  {
    if |a| > 0 && |b| > 0 {
      DistanceSymmetric(a[..|a| - 1], b);
      DistanceSymmetric(a, b[..|b| - 1]);
      DistanceSymmetric(a[..|a| - 1], b[..|b| - 1]);
    }
  }

  /** One cell of the dynamic programme's table, from its three neighbours. */
  lemma DistanceStep(a: string, b: string, i: nat, j: nat)
    requires i < |a| && 0 < j <= |b|
    ensures Distance(a[..i + 1], b[..j])
         == Min3(Distance(a[..i], b[..j]) + 1,
                 Distance(a[..i + 1], b[..j - 1]) + 1,
                 Distance(a[..i], b[..j - 1]) + (if a[i] == b[j - 1] then 0 else 1))
  {
    assert a[..i + 1][..i] == a[..i] && a[..i + 1][i] == a[i];
    assert b[..j][..j - 1] == b[..j - 1] && b[..j][j - 1] == b[j - 1];
  }

  /** Row `i` of the table: the distances from `a[..i]` to every prefix of `b`. */
  predicate IsRow(row: seq<nat>, a: string, b: string, i: nat)
    requires i <= |a|
  {
    |row| == |b| + 1 && forall j :: 0 <= j <= |b| ==> row[j] == Distance(a[..i], b[..j])
  }

  /** Fills row `i + 1` of the table from row `i`. */
  method NextRow(a: string, b: string, i: nat, prev: seq<nat>) returns (row: seq<nat>)
    requires i < |a| && IsRow(prev, a, b, i)
    ensures IsRow(row, a, b, i + 1)
  {
    row := [i + 1];
    assert Distance(a[..i + 1], b[..0]) == i + 1;
    var j := 1;
    while j <= |b|
      invariant 1 <= j <= |b| + 1
      invariant |row| == j
      invariant forall k :: 0 <= k < j ==> row[k] == Distance(a[..i + 1], b[..k])
    {
      DistanceStep(a, b, i, j);
      var cost := if a[i] == b[j - 1] then 0 else 1;
      row := row + [Min3(prev[j] + 1, row[j - 1] + 1, prev[j - 1] + cost)];
      j := j + 1;
    }
  }

  /** The two-row dynamic programme a Levenshtein library runs. */
  method ComputeDistance(a: string, b: string) returns (d: nat)
    ensures d == Distance(a, b)
  {
    var prev: seq<nat> := seq(|b| + 1, j => j);
    assert IsRow(prev, a, b, 0) by {
      forall j | 0 <= j <= |b| ensures prev[j] == Distance(a[..0], b[..j]) {
        assert |a[..0]| == 0;
      }
    }
    var i := 0;
    while i < |a|
      invariant 0 <= i <= |a|
      invariant IsRow(prev, a, b, i)
    {
      prev := NextRow(a, b, i, prev);
      i := i + 1;
    }
    assert a[..|a|] == a && b[..|b|] == b;
    d := prev[|b|];
  }
}
