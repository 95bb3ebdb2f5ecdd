/** Byte strings in the key-value store's lexicographic order. */
module ByteOrder {
  import opened Common

  type Byte = b: int | 0 <= b < 256

  type Bytes = seq<Byte>

  predicate Less(a: Bytes, b: Bytes) {
    b != [] && (a == [] || a[0] < b[0] || (a[0] == b[0] && Less(a[1..], b[1..])))
  }

  predicate AtMost(a: Bytes, b: Bytes) {
    a == b || Less(a, b)
  }

  /** Membership in the half-open key range `[lo, hi)` of a range read. */
  predicate InRange(k: Bytes, lo: Bytes, hi: Bytes) {
    AtMost(lo, k) && Less(k, hi)
  }

  lemma {:induction false} LessIrreflexive(a: Bytes)
    ensures !Less(a, a)
    decreases |a|
  {
    if a != [] {
      LessIrreflexive(a[1..]);
    }
  }

  lemma {:induction false} LessTransitive(a: Bytes, b: Bytes, c: Bytes)
    requires Less(a, b) && Less(b, c)
    ensures Less(a, c)
    decreases |a|
  {
    if a != [] && a[0] == b[0] == c[0] {
      LessTransitive(a[1..], b[1..], c[1..]);
    }
  }

  /** Exactly one of `a < b`, `a == b`, `b < a` holds. */
  lemma {:induction false} LessTrichotomy(a: Bytes, b: Bytes)
    ensures Less(a, b) || a == b || Less(b, a)
    ensures !(Less(a, b) && Less(b, a))
    ensures a == b ==> !Less(a, b)
    decreases |a|
  {
    if a != [] && b != [] {
      LessTrichotomy(a[1..], b[1..]);
      if a[0] == b[0] && a[1..] == b[1..] {
        assert a == [a[0]] + a[1..];
        assert b == [b[0]] + b[1..];
      }
    }
    if a == b {
      LessIrreflexive(a);
    }
  }

  lemma AtMostLess(a: Bytes, b: Bytes, c: Bytes)
    requires (AtMost(a, b) && Less(b, c)) || (Less(a, b) && AtMost(b, c))
    ensures Less(a, c)
  {
    if a != b && b != c {
      LessTransitive(a, b, c);
    }
  }

  lemma NotLess(a: Bytes, b: Bytes)
    ensures !Less(a, b) <==> AtMost(b, a)
  {
    LessTrichotomy(a, b);
  }

  /** A common prefix does not affect the order. */
  lemma {:induction false} LessCommonPrefix(p: Bytes, a: Bytes, b: Bytes)
    ensures Less(p + a, p + b) <==> Less(a, b)
    ensures p + a == p + b <==> a == b
    decreases |p|
  {
    if p == [] {
      assert p + a == a && p + b == b;
    } else {
      LessCommonPrefix(p[1..], a, b);
      assert (p + a)[1..] == p[1..] + a && (p + b)[1..] == p[1..] + b;
      if p + a == p + b {
        assert a == (p + a)[|p|..] == (p + b)[|p|..] == b;
      }
    }
  }

  /** Strings of equal length decide the order whatever follows them. */
  lemma {:induction false} LessEqualWidth(a: Bytes, b: Bytes, x: Bytes, y: Bytes)
    requires |a| == |b|
    ensures Less(a + x, b + y) <==> Less(a, b) || (a == b && Less(x, y))
    decreases |a|
  {
    if a == [] {
      assert a + x == x && b + y == y;
    } else {
      LessEqualWidth(a[1..], b[1..], x, y);
      assert (a + x)[1..] == a[1..] + x && (b + y)[1..] == b[1..] + y;
      assert a == [a[0]] + a[1..] && b == [b[0]] + b[1..];
    }
  }

  /**
   * The range `[e, e ++ 0xFF)` that every prefix scan reads holds exactly the keys
   * that extend `e` and do not continue with the byte 0xFF.
   */
  lemma {:induction false} PrefixRange(e: Bytes, k: Bytes)
    ensures InRange(k, e, e + [0xFF]) <==> e <= k && (|e| < |k| ==> k[|e|] < 0xFF)
    decreases |e|
  {
    if e == [] {
      assert e + [0xFF] == [0xFF];
      if k != [] {
        assert !Less(k[1..], []);
      }
    } else if k != [] {
      PrefixRange(e[1..], k[1..]);
      assert (e + [0xFF])[1..] == e[1..] + [0xFF];
      assert e == [e[0]] + e[1..] && k == [k[0]] + k[1..];
      if e[0] == k[0] {
        assert e <= k <==> e[1..] <= k[1..];
      }
    }
  }

  /** `k ++ 0x00` is the least key above `k`, the start of every "after this key" scan. */
  lemma {:induction false} ExclusiveStart(k: Bytes, x: Bytes)
    ensures AtMost(k + [0x00], x) <==> Less(k, x)
    decreases |k|
  {
    if k == [] {
      if x != [] {
        assert k + [0x00] == [0x00];
        assert [0x00][1..] == [];
        assert x == [x[0]] || Less([], x[1..]);
        assert Less([0x00], x) <==> 0 < x[0] || (x[0] == 0 && Less([], x[1..]));
      }
    } else if x != [] {
      ExclusiveStart(k[1..], x[1..]);
      assert (k + [0x00])[1..] == k[1..] + [0x00];
      assert x == [x[0]] + x[1..];
      assert k + [0x00] == [k[0]] + (k[1..] + [0x00]);
    }
  }

  // ---- sorted key sequences and range reads ----

  ghost predicate Ascending(s: seq<Bytes>) {
    forall i, j :: 0 <= i < j < |s| ==> Less(s[i], s[j])
  }

  lemma AscendingNoDup(s: seq<Bytes>)
    requires Ascending(s)
    ensures NoDup(s)
  {
    forall i, j | 0 <= i < j < |s|
      ensures s[i] != s[j]
    {
      LessIrreflexive(s[i]);
    }
  }

  /** Two ascending sequences over the same keys are the same sequence. */
  lemma {:induction false} AscendingUnique(s: seq<Bytes>, t: seq<Bytes>)
    requires Ascending(s) && Ascending(t)
    requires forall k :: k in s <==> k in t
    ensures s == t
    decreases |s|
  {
    if s == [] {
      HasMember(t);
    } else {
      assert s[0] in t;
      assert t[0] in s;
      LeastFirst(s, t[0]);
      LeastFirst(t, s[0]);
      LessTrichotomy(s[0], t[0]);
      var s', t' := s[1..], t[1..];
      forall k
        ensures k in s' <==> k in t'
      {
        AscendingNoDup(s);
        AscendingNoDup(t);
        assert s == [s[0]] + s' && t == [t[0]] + t';
        assert k in s' <==> k in s && k != s[0];
        assert k in t' <==> k in t && k != t[0];
      }
      AscendingUnique(s', t');
    }
  }

  lemma LeastFirst(s: seq<Bytes>, k: Bytes)
    requires Ascending(s) && k in s
    ensures AtMost(s[0], k)
  {
    var i :| 0 <= i < |s| && s[i] == k;
  }
}
