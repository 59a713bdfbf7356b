/** Generic sequence vocabulary used by the identity model: ordering and
    distinctness predicates, an index filter (the shape of a `findMany` with
    `orderBy id asc`), and first-occurrence deduplication (the shape of
    inserting keys into a JavaScript `Map`, which keeps the position of the
    first insertion of each key). */
module Sequences {

  predicate StrictlyIncreasing(xs: seq<nat>) {
    forall i, j | 0 <= i < j < |xs| :: xs[i] < xs[j]
  }

  predicate Distinct<T(==)>(xs: seq<T>) {
    forall i, j | 0 <= i < j < |xs| :: xs[i] != xs[j]
  }

  /** The positions of `s` whose element satisfies `keep`, in ascending order. */
  function IndicesWhere<T>(s: seq<T>, keep: T -> bool): (r: seq<nat>)
    ensures StrictlyIncreasing(r)
    ensures forall k | 0 <= k < |r| :: r[k] < |s|
    ensures forall i: nat :: i in r <==> i < |s| && keep(s[i])
    decreases |s|
  {
    if |s| == 0 then []
    else
      var front := s[..|s| - 1];
      IndicesWhere(front, keep) + (if keep(s[|s| - 1]) then [|s| - 1] else [])
  }

  /** Keeps the first occurrence of every element, in order of first occurrence. */
  function Dedup<T(==)>(xs: seq<T>): (r: seq<T>)
    ensures Distinct(r)
    ensures forall k | 0 <= k < |r| :: r[k] in xs
    ensures forall k | 0 <= k < |xs| :: xs[k] in r
    ensures |r| <= |xs|
    ensures |xs| > 0 ==> |r| > 0 && r[0] == xs[0]
    decreases |xs|
  {
    if |xs| == 0 then []
    else
      var d := Dedup(xs[..|xs| - 1]);
      if xs[|xs| - 1] in d then d else d + [xs[|xs| - 1]]
  }

  /** Membership is the same before and after deduplication. */
  lemma DedupMembership<T>(xs: seq<T>, x: T)
    ensures x in Dedup(xs) <==> x in xs
  {
    var r := Dedup(xs);
    if x in r {
      var k :| 0 <= k < |r| && r[k] == x;
    }
    if x in xs {
      var k :| 0 <= k < |xs| && xs[k] == x;
    }
  }

  /** One more element is kept exactly when it has not been seen before. */
  lemma DedupSnoc<T>(xs: seq<T>, x: T)
    ensures Dedup(xs + [x]) == if x in Dedup(xs) then Dedup(xs) else Dedup(xs) + [x]
  {
    assert (xs + [x])[..|xs|] == xs;
  }

  /** A sequence holding three distinct values has at least three elements. */
  lemma ThreeMembers(xs: seq<nat>, a: nat, b: nat, c: nat)
    requires a in xs && b in xs && c in xs
    requires a != b && b != c && a != c
    ensures |xs| >= 3
  {
    var ia :| 0 <= ia < |xs| && xs[ia] == a;
    var ib :| 0 <= ib < |xs| && xs[ib] == b;
    var ic :| 0 <= ic < |xs| && xs[ic] == c;
    assert ia != ib && ib != ic && ia != ic;
  }

  /** Dropping the last element of a repetition-free sequence leaves one
      without repetitions that does not contain that element. */
  lemma DistinctFront<T>(xs: seq<T>)
    requires Distinct(xs) && |xs| > 0
    ensures Distinct(xs[..|xs| - 1])
    ensures xs[|xs| - 1] !in xs[..|xs| - 1]
  {
  }

  /** Deduplication leaves a sequence without repetitions as it is. */
  lemma {:induction false} DedupOfDistinct<T>(xs: seq<T>)
    requires Distinct(xs)
    ensures Dedup(xs) == xs
    decreases |xs|
  {
    if |xs| > 0 {
      var front := xs[..|xs| - 1];
      DistinctFront(xs);
      DedupOfDistinct(front);
      assert front + [xs[|xs| - 1]] == xs;
    }
  }


  lemma StrictlyIncreasingIsDistinct(xs: seq<nat>)
    requires StrictlyIncreasing(xs)
    ensures Distinct(xs)
  {
  }

  /** The last element of a strictly increasing sequence is its maximum and
      the only element that dropping it removes. */
  lemma LastIsMaximum(xs: seq<nat>, v: nat)
    requires StrictlyIncreasing(xs) && v in xs
    ensures v <= xs[|xs| - 1]
    ensures v in xs[..|xs| - 1] <==> v != xs[|xs| - 1]
  {
    var i :| 0 <= i < |xs| && xs[i] == v;
    if i < |xs| - 1 {
      assert xs[..|xs| - 1][i] == v;
    }
  }

  /** Dropping the last element keeps a sequence strictly increasing. */
  lemma FrontIncreasing(xs: seq<nat>)
    requires StrictlyIncreasing(xs) && |xs| > 0
    ensures StrictlyIncreasing(xs[..|xs| - 1])
  {
  }

  /** Two strictly increasing sequences with the same elements, one of them
      non-empty, are both non-empty and end alike. */
  lemma LastsAgree(xs: seq<nat>, ys: seq<nat>)
    requires StrictlyIncreasing(xs) && StrictlyIncreasing(ys)
    requires forall v :: v in xs <==> v in ys
    requires |xs| > 0 || |ys| > 0
    ensures |xs| > 0 && |ys| > 0 && xs[|xs| - 1] == ys[|ys| - 1]
  {
    assert |xs| > 0 ==> xs[0] in ys;
    assert |ys| > 0 ==> ys[0] in xs;
    var a, b := xs[|xs| - 1], ys[|ys| - 1];
    LastIsMaximum(xs, b);
    LastIsMaximum(ys, a);
  }

  /** Without their common last element they still have the same elements. */
  lemma FrontsAgree(xs: seq<nat>, ys: seq<nat>, xf: seq<nat>, yf: seq<nat>)
    requires StrictlyIncreasing(xs) && StrictlyIncreasing(ys)
    requires forall v :: v in xs <==> v in ys
    requires |xs| > 0 && |ys| > 0 && xs[|xs| - 1] == ys[|ys| - 1]
    requires xf == xs[..|xs| - 1] && yf == ys[..|ys| - 1]
    ensures forall v :: v in xf <==> v in yf
  {
    assert xs == xf + [xs[|xs| - 1]];
    assert ys == yf + [ys[|ys| - 1]];
    forall v
      ensures v in xf <==> v in yf
    {
      if v in xs {
        LastIsMaximum(xs, v);
        LastIsMaximum(ys, v);
      }
    }
  }

  /** A strictly increasing sequence is determined by its elements. */
  lemma {:induction false} IncreasingUnique(xs: seq<nat>, ys: seq<nat>)
    requires StrictlyIncreasing(xs) && StrictlyIncreasing(ys)
    requires forall v :: v in xs <==> v in ys
    ensures xs == ys
    decreases |xs|
  {
    if |xs| > 0 || |ys| > 0 {
      LastsAgree(xs, ys);
      var xf, yf := xs[..|xs| - 1], ys[..|ys| - 1];
      FrontsAgree(xs, ys, xf, yf);
      FrontIncreasing(xs);
      FrontIncreasing(ys);
      IncreasingUnique(xf, yf);
      assert xs == xf + [xs[|xs| - 1]];
      assert ys == yf + [ys[|ys| - 1]];
    }
  }
}
