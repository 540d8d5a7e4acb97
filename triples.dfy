/** Rooted triples `ab|c` over integer leaf identifiers, and the restriction
    of a triple list to a leaf subset (src/bmgedit/Build.py, the loops that
    build `Ri` and `Fi` in `_aho` and `_mtt`). */
module Triples {

  /** Leaves are opaque identifiers; integers give them equality and an order. */
  type Leaf = int

  /** `Triple(a, b, c)` reads "a and b are closer to each other than to c". */
  datatype Triple = Triple(a: Leaf, b: Leaf, c: Leaf)

  /** All three leaves of `t` lie in `S` (Python's `Li.issuperset(t)`). */
  predicate Within(t: Triple, S: set<Leaf>)
  {
    t.a in S && t.b in S && t.c in S
  }

  /** A proper triple names three different leaves. */
  predicate Distinct(t: Triple)
  {
    t.a != t.b && t.a != t.c && t.b != t.c
  }

  /** Every triple of `R` is over the leaf set `S`. */
  predicate Over(R: seq<Triple>, S: set<Leaf>)
  {
    forall i :: 0 <= i < |R| ==> Within(R[i], S)
  }

  /** The triples of `R` whose three leaves lie in `S`, in their order in `R`. */
  function Restriction(R: seq<Triple>, S: set<Leaf>): (r: seq<Triple>)
    ensures |r| <= |R|
    ensures forall t :: t in r <==> t in R && Within(t, S)
  {
    if R == [] then []
    else
      var front := Restriction(R[..|R| - 1], S);
      assert R == R[..|R| - 1] + [R[|R| - 1]];
      if Within(R[|R| - 1], S) then front + [R[|R| - 1]] else front
  }

  /** The append loop of `_aho`/`_mtt`: keep each triple whose leaves all lie
      in the part. The parent's list is a value and is left as it was. */
  method RestrictTriples(R: seq<Triple>, S: set<Leaf>) returns (Ri: seq<Triple>)
    ensures Ri == Restriction(R, S)
    ensures Over(Ri, S)
  {
    Ri := [];
    for i := 0 to |R|
      invariant Ri == Restriction(R[..i], S)
    {
      assert R[..i + 1][..i] == R[..i];
      if Within(R[i], S) {
        Ri := Ri + [R[i]];
      }
    }
    assert R[..|R|] == R;
  }

  /** Restricting to `S` and then to a smaller `T` is restricting to `T`. */
  lemma {:induction false} RestrictTwice(R: seq<Triple>, S: set<Leaf>, T: set<Leaf>)
    requires T <= S
    ensures Restriction(Restriction(R, S), T) == Restriction(R, T)
  {
    if R != [] {
      var front := R[..|R| - 1];
      RestrictTwice(front, S, T);
      var last := R[|R| - 1];
      if Within(last, S) {
        assert Restriction(R, S) == Restriction(front, S) + [last];
        assert Restriction(R, S)[..|Restriction(R, S)| - 1] == Restriction(front, S);
      } else {
        assert !Within(last, T);
      }
    }
  }

  /** Restriction keeps the order of `R`: it is `R` with some entries dropped,
      so the multiset of kept triples is bounded by that of `R`. */
  lemma {:induction false} RestrictionSubMultiset(R: seq<Triple>, S: set<Leaf>)
    ensures multiset(Restriction(R, S)) <= multiset(R)
  {
    if R != [] {
      var front := R[..|R| - 1];
      RestrictionSubMultiset(front, S);
      assert R == front + [R[|R| - 1]];
    }
  }

  /** Three distinct leaves inside `S` need at least three leaves in `S`. */
  lemma DistinctNeedsThree(t: Triple, S: set<Leaf>)
    requires Distinct(t) && Within(t, S)
    ensures |S| >= 3
  {
    var abc := {t.a, t.b, t.c};
    assert |abc| == 3;
    assert abc <= S;
    SubsetCard(abc, S);
  }

  lemma {:induction false} SubsetCard<X>(A: set<X>, B: set<X>)
    requires A <= B
    ensures |A| <= |B|
  {
    assert B == A + (B - A);
  }
}
