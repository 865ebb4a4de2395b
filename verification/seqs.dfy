/** Generic facts about sequences used by several pages and handlers. */
module Seqs {

  /** The elements of `s` that satisfy `p`, in their original order (Array.prototype.filter). */
  function Filter<T>(p: T -> bool, s: seq<T>): (r: seq<T>)
    ensures |r| <= |s|
    ensures forall k :: 0 <= k < |r| ==> r[k] in s && p(r[k])
    ensures forall k :: 0 <= k < |s| && p(s[k]) ==> s[k] in r
    decreases |s|
  {
    if s == [] then []
    else if p(s[0]) then [s[0]] + Filter(p, s[1..])
    else Filter(p, s[1..])
  }

  /** Filtering keeps every copy of a value that satisfies `p` and no copy of one that does not. */
  lemma {:induction false} FilterCount<T>(p: T -> bool, s: seq<T>, x: T)
    ensures multiset(Filter(p, s))[x] == if p(x) then multiset(s)[x] else 0
    decreases |s|
  {
    if s != [] {
      FilterCount(p, s[1..], x);
      assert s == [s[0]] + s[1..];
    }
  }

  /** Filters with predicates that agree on every element of `s` give the same result. */
  lemma {:induction false} FilterExtensional<T>(p: T -> bool, q: T -> bool, s: seq<T>)
    requires forall k :: 0 <= k < |s| ==> p(s[k]) == q(s[k])
    ensures Filter(p, s) == Filter(q, s)
    decreases |s|
  {
    if s != [] {
      assert p(s[0]) == q(s[0]);
      FilterExtensional(p, q, s[1..]);
    }
  }

  /** `a` can be obtained from `b` by deleting elements. */
  predicate IsSubsequence<T(==)>(a: seq<T>, b: seq<T>)
    decreases |b|
  {
    if b == [] then a == []
    else (a != [] && a[0] == b[0] && IsSubsequence(a[1..], b[1..])) || IsSubsequence(a, b[1..])
  }

  /** A filter keeps the survivors in their original relative order. */
  lemma {:induction false} FilterIsSubsequence<T>(p: T -> bool, s: seq<T>)
    ensures IsSubsequence(Filter(p, s), s)
    decreases |s|
  {
    if s != [] {
      FilterIsSubsequence(p, s[1..]);
    }
  }

  /** Two filters whose predicates are complementary on `s` split it: their lengths add up to |s|. */
  lemma {:induction false} ComplementaryFiltersCover<T>(p: T -> bool, q: T -> bool, s: seq<T>)
    requires forall k :: 0 <= k < |s| ==> (p(s[k]) <==> !q(s[k]))
    ensures |Filter(p, s)| + |Filter(q, s)| == |s|
    decreases |s|
  {
    if s != [] {
      assert p(s[0]) <==> !q(s[0]);
      ComplementaryFiltersCover(p, q, s[1..]);
    }
  }

  /** No element occurs twice. */
  predicate NoDuplicates<T(==)>(s: seq<T>)
  {
    forall i, j :: 0 <= i < j < |s| ==> s[i] != s[j]
  }

  /** The position of the first occurrence of `x` in `s`. */
  function FirstIndex<T(==)>(s: seq<T>, x: T): (i: nat)
    requires x in s
    ensures i < |s| && s[i] == x
    ensures x !in s[..i]
  {
    if s[0] == x then 0
    else
      assert x in s[1..];
      1 + FirstIndex(s[1..], x)
  }

  /** The first occurrence of an element of a prefix is the same in the prefix and in the whole. */
  lemma FirstIndexOfPrefix<T>(s: seq<T>, n: nat, x: T)
    requires n <= |s|
    requires x in s[..n]
    ensures FirstIndex(s, x) == FirstIndex(s[..n], x)
  {
    var i := FirstIndex(s[..n], x);
    var j := FirstIndex(s, x);
    assert s[i] == x by { assert s[..n][i] == s[i]; }
    forall k | 0 <= k < j ensures s[k] != x {
      assert s[..j][k] == s[k];
    }
    forall k | 0 <= k < i ensures s[k] != x {
      assert s[..n][..i][k] == s[k];
    }
  }

  /**
    Duplicates removed, each value kept at its first occurrence, in the order of
    first occurrences (what `Array.from(new Set(s))` yields).
  */
  function Dedup<T(==)>(s: seq<T>): (r: seq<T>)
    ensures |r| <= |s|
    decreases |s|
  {
    if s == [] then []
    else if s[|s| - 1] in s[..|s| - 1] then Dedup(s[..|s| - 1])
    else Dedup(s[..|s| - 1]) + [s[|s| - 1]]
  }

  /** Deduplication keeps exactly the values of `s`. */
  lemma {:induction false} DedupSameElements<T>(s: seq<T>)
    ensures forall k :: 0 <= k < |s| ==> s[k] in Dedup(s)
    ensures forall k :: 0 <= k < |Dedup(s)| ==> Dedup(s)[k] in s
    decreases |s|
  {
    if s != [] {
      var init := s[..|s| - 1];
      DedupSameElements(init);
      forall k | 0 <= k < |s| - 1 ensures s[k] in Dedup(s) {
        assert s[k] == init[k];
      }
    }
  }

  /** Deduplication leaves no value twice. */
  lemma {:induction false} DedupNoDuplicates<T>(s: seq<T>)
    ensures NoDuplicates(Dedup(s))
    decreases |s|
  {
    if s != [] {
      var init := s[..|s| - 1];
      DedupNoDuplicates(init);
      DedupSameElements(init);
    }
  }

  /** The survivors appear in the order of their first occurrences in `s`. */
  lemma {:induction false} DedupKeepsFirstOccurrenceOrder<T>(s: seq<T>)
    ensures forall k :: 0 <= k < |Dedup(s)| ==> Dedup(s)[k] in s
    ensures forall i, j :: 0 <= i < j < |Dedup(s)| ==> FirstIndex(s, Dedup(s)[i]) < FirstIndex(s, Dedup(s)[j])
    decreases |s|
  {
    DedupSameElements(s);
    if s != [] {
      var init := s[..|s| - 1];
      DedupKeepsFirstOccurrenceOrder(init);
      DedupSameElements(init);
      FirstIndicesOfPrefix(s, Dedup(init));
    }
  }

  /** Elements of the prefix without the last element occur first at the same place in `s`, before its end. */
  lemma FirstIndicesOfPrefix<T>(s: seq<T>, r: seq<T>)
    requires |s| > 0
    requires forall k :: 0 <= k < |r| ==> r[k] in s[..|s| - 1]
    ensures forall k :: 0 <= k < |r| ==> FirstIndex(s, r[k]) == FirstIndex(s[..|s| - 1], r[k]) < |s| - 1
  {
    forall k | 0 <= k < |r| ensures FirstIndex(s, r[k]) == FirstIndex(s[..|s| - 1], r[k]) < |s| - 1 {
      FirstIndexOfPrefix(s, |s| - 1, r[k]);
    }
  }
}
