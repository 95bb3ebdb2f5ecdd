/** Merging two duplicate-free lists with a `seen` set. */
module Merging {
  import opened Common

  ghost predicate KeyUnique<T, K>(s: seq<T>, key: T -> K) {
    NoDup(Map(s, key))
  }

  function NotIn<T, K(==)>(a: seq<T>, key: T -> K): T -> bool {
    (x: T) => key(x) !in Map(a, key)
  }

  function AlsoIn<T, K(==)>(a: seq<T>, key: T -> K): T -> bool {
    (x: T) => key(x) in Map(a, key)
  }

  lemma MapAppend<T, K>(a: seq<T>, b: seq<T>, key: T -> K)
    ensures Map(a + b, key) == Map(a, key) + Map(b, key)
  {
  }

  lemma KeyUniqueTake<T, K>(s: seq<T>, key: T -> K, n: nat)
    requires KeyUnique(s, key) && n <= |s|
    ensures KeyUnique(s[..n], key)
  {
    forall i, j | 0 <= i < j < n
      ensures Map(s[..n], key)[i] != Map(s[..n], key)[j]
    {
      assert Map(s, key)[i] != Map(s, key)[j];
    }
  }

  /** In a duplicate-free list the last key is not among the earlier ones. */
  lemma LastIsNew<T, K>(b: seq<T>, key: T -> K)
    requires KeyUnique(b, key) && b != []
    ensures key(b[|b| - 1]) !in Map(b[..|b| - 1], key)
  {
    var n := |b| - 1;
    forall i | 0 <= i < n
      ensures Map(b[..n], key)[i] != key(b[n])
    {
      assert Map(b, key)[i] != Map(b, key)[n];
    }
  }

  lemma DedupStep<T, K>(s: seq<T>, x: T, key: T -> K)
    ensures DedupBy(s + [x], key) == DedupBy(s, key) + (if key(x) in Map(s, key) then [] else [x])
  {
    assert (s + [x])[..|s|] == s;
  }

  lemma {:induction false} DedupUnique<T, K>(a: seq<T>, key: T -> K)
    requires KeyUnique(a, key)
    ensures DedupBy(a, key) == a
    decreases |a|
  {
    if a != [] {
      var front, x := a[..|a| - 1], a[|a| - 1];
      KeyUniqueTake(a, key, |a| - 1);
      DedupUnique(front, key);
      LastIsNew(a, key);
      assert a == front + [x];
      DedupStep(front, x, key);
    }
  }

  lemma MergeStep<T, K>(a: seq<T>, front: seq<T>, x: T, key: T -> K)
    requires DedupBy(a + front, key) == a + Filter(front, NotIn(a, key)) && key(x) !in Map(front, key)
    ensures DedupBy(a + (front + [x]), key) == a + Filter(front + [x], NotIn(a, key))
  {
    MapAppend(a, front, key);
    DedupStep(a + front, x, key);
    AppendAssoc(a, front, [x]);
    FilterAppend(front, [x], NotIn(a, key));
    AppendAssoc(a, Filter(front, NotIn(a, key)), Filter([x], NotIn(a, key)));
    assert key(x) in Map(a + front, key) <==> key(x) in Map(a, key);
  }

  /** A duplicate-free list followed by another keeps all of the first and the new ones of the second. */
  lemma {:induction false} DedupMerge<T, K>(a: seq<T>, b: seq<T>, key: T -> K)
    requires KeyUnique(a, key) && KeyUnique(b, key)
    ensures DedupBy(a + b, key) == a + Filter(b, NotIn(a, key))
    decreases |b|
  {
    if b == [] {
      assert a + b == a;
      DedupUnique(a, key);
    } else {
      var front, x := b[..|b| - 1], b[|b| - 1];
      KeyUniqueTake(b, key, |b| - 1);
      DedupMerge(a, front, key);
      LastIsNew(b, key);
      MergeStep(a, front, x, key);
      assert b == front + [x];
    }
  }

  lemma {:induction false} FilterSplits<T, K>(b: seq<T>, a: seq<T>, key: T -> K)
    ensures |Filter(b, NotIn(a, key))| + |Filter(b, AlsoIn(a, key))| == |b|
    decreases |b|
  {
    if b != [] {
      FilterSplits(b[1..], a, key);
    }
  }

  lemma {:induction false} FilterKeepsUnique<T, K>(b: seq<T>, key: T -> K, p: T -> bool)
    requires KeyUnique(b, key)
    ensures KeyUnique(Filter(b, p), key)
    decreases |b|
  {
    if b != [] {
      var rest := b[1..];
      forall i, j | 0 <= i < j < |rest|
        ensures Map(rest, key)[i] != Map(rest, key)[j]
      {
        assert Map(b, key)[i + 1] != Map(b, key)[j + 1];
      }
      FilterKeepsUnique(rest, key, p);
      var kept := Filter(rest, p);
      forall i | 0 <= i < |kept|
        ensures key(kept[i]) != key(b[0])
      {
        FilterMember(rest, p, kept[i]);
        var j :| 0 <= j < |rest| && rest[j] == kept[i];
        assert Map(b, key)[j + 1] != Map(b, key)[0];
      }
    }
  }

  /** At most `|a|` elements of a duplicate-free list are repeats of `a`. */
  lemma FewRepeats<T, K>(a: seq<T>, b: seq<T>, key: T -> K)
    requires KeyUnique(b, key)
    ensures |Filter(b, AlsoIn(a, key))| <= |a|
  {
    var repeats := Filter(b, AlsoIn(a, key));
    FilterKeepsUnique(b, key, AlsoIn(a, key));
    NoDupCardinality(Map(repeats, key));
    forall k | k in Map(repeats, key)
      ensures k in Map(a, key)
    {
      var i :| 0 <= i < |repeats| && Map(repeats, key)[i] == k;
      FilterMember(b, AlsoIn(a, key), repeats[i]);
    }
    SubsetSize(SetOf(Map(repeats, key)), SetOf(Map(a, key)));
    SetOfSize(Map(a, key));
  }

  lemma SubsetSize<T>(x: set<T>, y: set<T>)
    requires x <= y
    ensures |x| <= |y|
  {
    assert y == x + (y - x);
  }

  lemma {:induction false} SetOfSize<T>(s: seq<T>)
    ensures |SetOf(s)| <= |s|
    decreases |s|
  {
    if s != [] {
      SetOfSize(s[1..]);
      assert s == [s[0]] + s[1..];
      assert SetOf(s) == {s[0]} + SetOf(s[1..]);
    }
  }

  /** The lists agree on their first `n` elements, and entirely when there are no more than `n`. */
  predicate SameTo<T(==)>(part: seq<T>, full: seq<T>, n: nat) {
    Take(part, n) == Take(full, n) && (|full| <= n ==> part == full)
  }

  /** With all of `a` fetched, the new elements among the first `n` of `b` fill the page. */
  lemma ShortFirst<T, K>(a: seq<T>, b: seq<T>, key: T -> K, n: nat)
    requires KeyUnique(b, key) && |a| <= n
    ensures SameTo(a + Filter(Take(b, n), NotIn(a, key)), a + Filter(b, NotIn(a, key)), n)
  {
    var b' := Take(b, n);
    var rest := b[|b'|..];
    assert b == b' + rest;
    FilterAppend(b', rest, NotIn(a, key));
    KeyUniqueTake(b, key, |b'|);
    assert b' == b[..|b'|];
    FilterSplits(b', a, key);
    FewRepeats(a, b', key);
  }

  /** Fetching `n` elements of each list gets the first `n` of the merged list right. */
  lemma MergePrefix<T, K>(a: seq<T>, b: seq<T>, key: T -> K, n: nat)
    requires KeyUnique(a, key) && KeyUnique(b, key)
    ensures SameTo(DedupBy(Take(a, n) + Take(b, n), key), DedupBy(a + b, key), n)
  {
    var a', b' := Take(a, n), Take(b, n);
    assert a' == a[..|a'|] && b' == b[..|b'|];
    KeyUniqueTake(a, key, |a'|);
    KeyUniqueTake(b, key, |b'|);
    DedupMerge(a, b, key);
    DedupMerge(a', b', key);
    if |a| <= n {
      ShortFirst(a, b, key, n);
    }
  }

  lemma NewOnes<T, K>(a: seq<T>, b: seq<T>, key: T -> K, x: T)
    ensures x in Filter(b, NotIn(a, key)) <==> x in b && key(x) !in Map(a, key)
  {
    FilterMember(b, NotIn(a, key), x);
  }

  lemma MapMember<T, K>(s: seq<T>, key: T -> K, k: K)
    ensures k in Map(s, key) <==> exists i :: 0 <= i < |s| && key(s[i]) == k
  {
    if k in Map(s, key) {
      var i :| 0 <= i < |Map(s, key)| && Map(s, key)[i] == k;
    }
  }

  /** The new ones of `b` bring exactly the keys `a` lacks. */
  lemma NewKeys<T, K>(a: seq<T>, b: seq<T>, key: T -> K, k: K)
    ensures k in Map(Filter(b, NotIn(a, key)), key) <==> k in Map(b, key) && k !in Map(a, key)
  {
    var more := Filter(b, NotIn(a, key));
    MapMember(b, key, k);
    MapMember(more, key, k);
    if k in Map(more, key) {
      var i :| 0 <= i < |more| && key(more[i]) == k;
      NewOnes(a, b, key, more[i]);
      var j :| 0 <= j < |b| && b[j] == more[i];
    }
    if k in Map(b, key) && k !in Map(a, key) {
      var i :| 0 <= i < |b| && key(b[i]) == k;
      NewOnes(a, b, key, b[i]);
      var j :| 0 <= j < |more| && more[j] == b[i];
    }
  }

  lemma NewKeySet<T, K>(a: seq<T>, b: seq<T>, key: T -> K)
    ensures SetOf(Map(Filter(b, NotIn(a, key)), key)) == SetOf(Map(b, key)) - SetOf(Map(a, key))
  {
    var keys, wanted := SetOf(Map(Filter(b, NotIn(a, key)), key)), SetOf(Map(b, key)) - SetOf(Map(a, key));
    forall k | k in keys
      ensures k in wanted
    {
      NewKeys(a, b, key, k);
    }
    forall k | k in wanted
      ensures k in keys
    {
      NewKeys(a, b, key, k);
    }
  }

  lemma SetOfAppend<T>(a: seq<T>, b: seq<T>)
    ensures SetOf(a + b) == SetOf(a) + SetOf(b)
  {
  }

  lemma JoinUnique<T, K>(a: seq<T>, b: seq<T>, key: T -> K)
    requires KeyUnique(a, key) && KeyUnique(b, key) && SetOf(Map(a, key)) !! SetOf(Map(b, key))
    ensures KeyUnique(a + b, key)
  {
    MapAppend(a, b, key);
    forall i, j | 0 <= i < |a| && 0 <= j < |b|
      ensures Map(a, key)[i] != Map(b, key)[j]
    {
      assert Map(a, key)[i] in SetOf(Map(a, key)) && Map(b, key)[j] in SetOf(Map(b, key));
    }
  }

  lemma MergedKeys<T, K>(a: seq<T>, b: seq<T>, key: T -> K)
    requires KeyUnique(a, key) && KeyUnique(b, key)
    ensures var merged := DedupBy(a + b, key);
            && KeyUnique(merged, key)
            && SetOf(Map(merged, key)) == SetOf(Map(a, key)) + SetOf(Map(b, key))
            && (forall x :: x in merged ==> x in a || x in b)
  {
    var more := Filter(b, NotIn(a, key));
    DedupMerge(a, b, key);
    FilterKeepsUnique(b, key, NotIn(a, key));
    NewKeySet(a, b, key);
    JoinUnique(a, more, key);
    MapAppend(a, more, key);
    SetOfAppend(Map(a, key), Map(more, key));
    forall x | x in more
      ensures x in b
    {
      NewOnes(a, b, key, x);
    }
  }
}
