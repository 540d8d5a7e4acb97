/** Small facts about sequence slicing, stated once so that proofs about
    recursive functions over sequences need not re-derive them in a large
    context. */
module SeqFacts {

  lemma Snoc<T>(s: seq<T>, x: T)
    ensures (s + [x])[..|s|] == s && (s + [x])[|s|] == x
  {
  }

  lemma Unsnoc<T>(s: seq<T>)
    requires |s| > 0
    ensures s == s[..|s| - 1] + [s[|s| - 1]]
  {
  }

  lemma SplitAt<T>(s: seq<T>, i: nat)
    requires i < |s|
    ensures s == s[..i] + [s[i]] + s[i + 1..]
  {
  }

  lemma AppendNil<T>(a: seq<T>)
    ensures a + [] == a
  {
  }

  /** Dropping the last element of a + b, for non-empty b. */
  lemma AppendLast<T>(a: seq<T>, b: seq<T>)
    requires |b| > 0
    ensures (a + b)[..|a + b| - 1] == a + b[..|b| - 1]
    ensures (a + b)[|a + b| - 1] == b[|b| - 1]
  {
  }

  lemma PrefixSnoc<T>(s: seq<T>, i: nat)
    requires i < |s|
    ensures s[..i + 1] == s[..i] + [s[i]]
    ensures multiset(s[..i + 1]) == multiset(s[..i]) + multiset{s[i]}
  {
    assert s[..i + 1] == s[..i] + [s[i]];
  }

  /** Removing the element at i leaves one element fewer, all from `s`. */
  lemma RemoveKeeps<T>(s: seq<T>, i: nat)
    requires i < |s|
    ensures |s[..i] + s[i + 1..]| == |s| - 1
    ensures forall m :: m in s[..i] + s[i + 1..] ==> m in s
  {
    forall m | m in s[..i] + s[i + 1..]
      ensures m in s
    {
      var j :| 0 <= j < |s[..i] + s[i + 1..]| && (s[..i] + s[i + 1..])[j] == m;
      if j < i {
        assert m == s[j];
      } else {
        assert m == s[j + 1];
      }
    }
  }
}
