/**
 * The stored layout of one namespace: rows filed under an entity type, and the forward, meta
 * and reverse keys of an edge (crates/pelago-storage/src/subspace.rs, edge.rs).
 */
module EdgeKeys {
  import opened Common
  import opened ByteOrder
  import opened Encoding

  datatype Space = Space(db: Bytes, ns: Bytes)

  /** The sections a type drop clears, by their subspace names. */
  datatype Section = Schema | Data | Index | Edges

  function Name(s: Section): Bytes {
    match s
    case Schema => [0x5F, 0x73, 0x63, 0x68, 0x65, 0x6D, 0x61]
    case Data => [0x64, 0x61, 0x74, 0x61]
    case Index => [0x69, 0x64, 0x78]
    case Edges => [0x65, 0x64, 0x67, 0x65]
  }

  datatype Edge = Edge(sourceType: Bytes, sourceId: Bytes, edgeLabel: Bytes, sortKey: Bytes,
                       targetType: Bytes, targetId: Bytes)

  const FORWARD: Byte := 0x66
  const META: Byte := 0x6D
  const REVERSE: Byte := 0x72

  function Key(sp: Space, s: Section, rest: Bytes): Bytes {
    EncodeString(sp.db) + (EncodeString(sp.ns) + (EncodeString(Name(s)) + rest))
  }

  function ForwardTail(sp: Space, e: Edge): Bytes {
    EncodeString(e.sourceType) + (EncodeString(e.sourceId) + (EncodeString(e.edgeLabel) + (e.sortKey
      + (EncodeString(sp.db) + (EncodeString(sp.ns) + (EncodeString(e.targetType) + EncodeString(e.targetId)))))))
  }

  function ReverseTail(sp: Space, e: Edge): Bytes {
    EncodeString(sp.db) + (EncodeString(sp.ns) + (EncodeString(e.targetType) + (EncodeString(e.targetId)
      + (EncodeString(e.edgeLabel) + (EncodeString(e.sourceType) + EncodeString(e.sourceId))))))
  }

  function ForwardKey(sp: Space, e: Edge): Bytes {
    Key(sp, Edges, [FORWARD] + ForwardTail(sp, e))
  }

  function MetaKey(sp: Space, e: Edge): Bytes {
    Key(sp, Edges, [META] + ForwardTail(sp, e))
  }

  function ReverseKey(sp: Space, e: Edge): Bytes {
    Key(sp, Edges, [REVERSE] + ReverseTail(sp, e))
  }

  /** The same edge read from its target, as stored for bidirectional edges. */
  function Swapped(e: Edge): Edge {
    e.(sourceType := e.targetType, sourceId := e.targetId, targetType := e.sourceType, targetId := e.sourceId)
  }

  function TypePrefix(sp: Space, s: Section, t: Bytes): Bytes {
    Key(sp, s, EncodeString(t))
  }

  function ForwardPrefix(sp: Space, t: Bytes): Bytes {
    Key(sp, Edges, [FORWARD] + EncodeString(t))
  }

  function MetaPrefix(sp: Space, t: Bytes): Bytes {
    Key(sp, Edges, [META] + EncodeString(t))
  }

  function AllMetaPrefix(sp: Space): Bytes {
    Key(sp, Edges, [META])
  }

  function ReversePrefix(sp: Space, t: Bytes): Bytes {
    Key(sp, Edges, [REVERSE] + (EncodeString(sp.db) + (EncodeString(sp.ns) + EncodeString(t))))
  }

  /** `k` is read by a scan of `prefix`. */
  predicate InScan(k: Bytes, prefix: Bytes) {
    InRange(k, prefix, prefix + [0xFF])
  }

  lemma ScanExtends(k: Bytes, prefix: Bytes)
    ensures InScan(k, prefix) <==> Extends(prefix, k)
  {
    PrefixRange(prefix, k);
  }

  // ---- what a key determines ----

  lemma StringStarts(s: Bytes, r: Bytes)
    ensures (EncodeString(s) + r)[0] == 0x02
    ensures SafeTail(EncodeString(s) + r)
    ensures EncodeString(s) + [] == EncodeString(s)
  {
    EncodedString(s, r);
  }

  lemma EqualsExtend(a: Bytes, b: Bytes)
    ensures a == b <==> Extends(a, b) && Extends(b, a)
  {
  }

  lemma NameInjective(a: Section, b: Section)
    ensures Name(a) == Name(b) <==> a == b
  {
    assert |Name(Data)| == |Name(Edges)| && Name(Data)[0] != Name(Edges)[0];
  }

  lemma KeyExtends(sp: Space, s: Section, q: Bytes, t: Section, r: Bytes)
    requires SafeTail(q) && SafeTail(r)
    ensures Extends(Key(sp, s, q), Key(sp, t, r)) <==> s == t && Extends(q, r)
  {
    var x, y := EncodeString(Name(s)) + q, EncodeString(Name(t)) + r;
    StringStarts(Name(s), q);
    StringStarts(Name(t), r);
    EncodedStringExtends(Name(s), Name(t), q, r);
    NameInjective(s, t);
    StringStarts(sp.ns, x);
    StringStarts(sp.ns, y);
    EncodedStringExtends(sp.ns, sp.ns, x, y);
    EncodedStringExtends(sp.db, sp.db, EncodeString(sp.ns) + x, EncodeString(sp.ns) + y);
  }

  lemma KeyScan(sp: Space, s: Section, q: Bytes, t: Section, r: Bytes)
    requires SafeTail(q) && SafeTail(r)
    ensures InScan(Key(sp, t, r), Key(sp, s, q)) <==> s == t && Extends(q, r)
    ensures Key(sp, t, r) == Key(sp, s, q) <==> s == t && q == r
  {
    ScanExtends(Key(sp, t, r), Key(sp, s, q));
    KeyExtends(sp, s, q, t, r);
    KeyExtends(sp, t, r, s, q);
    EqualsExtend(q, r);
    EqualsExtend(Key(sp, s, q), Key(sp, t, r));
  }

  lemma MarkerScan(sp: Space, m: Byte, q: Bytes, n: Byte, r: Bytes)
    requires m < 0xFF && n < 0xFF
    ensures InScan(Key(sp, Edges, [n] + r), Key(sp, Edges, [m] + q)) <==> m == n && Extends(q, r)
    ensures Key(sp, Edges, [n] + r) == Key(sp, Edges, [m] + q) <==> m == n && q == r
  {
    KeyScan(sp, Edges, [m] + q, Edges, [n] + r);
    if m == n {
      ExtendsPrefix([m], q, r);
      LessCommonPrefix([m], q, r);
    } else {
      assert ([m] + q)[0] != ([n] + r)[0];
    }
  }

  predicate ZeroFree(s: Bytes) {
    0x00 !in s
  }

  /** Without zero bytes a terminated name is continued by no other name, whatever follows that one. */
  lemma {:induction false} PlainNameApart(u: Bytes, t: Bytes, rest: Bytes)
    requires ZeroFree(u) && t != u
    ensures !Extends(Terminated(u, []), Terminated(t, rest))
    decreases |u|
  {
    if u == [] {
      var e, k := Terminated(u, []), Terminated(t, rest);
      assert |e| == 1 && e[0] == 0x00;
      assert k[0] == t[0] && (t[0] == 0x00 ==> |k| > 1 && k[1] == 0xFF);
    } else if t != [] && t[0] == u[0] {
      SameHead(u, t);
      PlainNameApart(u[1..], t[1..], rest);
      ExtendsPrefix(EscapedByte(u[0]), Terminated(u[1..], []), Terminated(t[1..], rest));
    } else {
      assert Terminated(u, [])[0] == u[0] && u[0] in u;
    }
  }

  /** A row filed under type `t` is scanned for `u` exactly when the types agree. */
  lemma TypeScan(sp: Space, s: Section, t: Bytes, rest: Bytes, u: Bytes)
    requires t == u || SafeTail(rest) || ZeroFree(u)
    ensures InScan(Key(sp, s, EncodeString(t) + rest), TypePrefix(sp, s, u)) <==> t == u && SafeTail(rest)
  {
    StringStarts(t, rest);
    StringStarts(u, []);
    KeyScan(sp, s, EncodeString(u), s, EncodeString(t) + rest);
    if SafeTail(rest) {
      EncodedStringExtends(u, t, [], rest);
    } else if t == u {
      assert (EncodeString(t) + rest)[|EncodeString(u)|] == rest[0];
    } else {
      PlainNameApart(u, t, rest);
      EncodedString(u, []);
      EncodedString(t, rest);
      ExtendsPrefix([0x02], Terminated(u, []), Terminated(t, rest));
    }
  }

  lemma SectionScan(sp: Space, s: Section, q: Bytes, t: Section, r: Bytes)
    requires SafeTail(q) && SafeTail(r) && s != t
    ensures !InScan(Key(sp, t, r), Key(sp, s, q)) && Key(sp, t, r) != Key(sp, s, q)
  {
    KeyScan(sp, s, q, t, r);
  }

  lemma TailsSafe(sp: Space, e: Edge)
    ensures SafeTail(ForwardTail(sp, e)) && SafeTail(ReverseTail(sp, e))
    ensures ForwardTail(sp, e)[0] < 0xFF
  {
    var r := EncodeString(e.edgeLabel) + (e.sortKey
      + (EncodeString(sp.db) + (EncodeString(sp.ns) + (EncodeString(e.targetType) + EncodeString(e.targetId)))));
    StringStarts(e.sourceType, EncodeString(e.sourceId) + r);
    StringStarts(sp.db, EncodeString(sp.ns) + (EncodeString(e.targetType) + (EncodeString(e.targetId)
      + (EncodeString(e.edgeLabel) + (EncodeString(e.sourceType) + EncodeString(e.sourceId))))));
  }

  lemma SourceScan(sp: Space, e: Edge, t: Bytes)
    ensures Extends(EncodeString(t), ForwardTail(sp, e)) <==> e.sourceType == t
  {
    var r := EncodeString(e.edgeLabel) + (e.sortKey
      + (EncodeString(sp.db) + (EncodeString(sp.ns) + (EncodeString(e.targetType) + EncodeString(e.targetId)))));
    StringStarts(e.sourceId, r);
    StringStarts(t, []);
    EncodedStringExtends(t, e.sourceType, [], EncodeString(e.sourceId) + r);
  }

  lemma TargetScan(sp: Space, e: Edge, t: Bytes)
    ensures Extends(EncodeString(sp.db) + (EncodeString(sp.ns) + EncodeString(t)), ReverseTail(sp, e)) <==> e.targetType == t
  {
    var r := EncodeString(e.targetId) + (EncodeString(e.edgeLabel) + (EncodeString(e.sourceType) + EncodeString(e.sourceId)));
    StringStarts(e.targetId, EncodeString(e.edgeLabel) + (EncodeString(e.sourceType) + EncodeString(e.sourceId)));
    StringStarts(t, []);
    EncodedStringExtends(t, e.targetType, [], r);
    StringStarts(e.targetType, r);
    EncodedStringExtends(sp.ns, sp.ns, EncodeString(t), EncodeString(e.targetType) + r);
    StringStarts(sp.ns, EncodeString(t));
    StringStarts(sp.ns, EncodeString(e.targetType) + r);
    EncodedStringExtends(sp.db, sp.db, EncodeString(sp.ns) + EncodeString(t), EncodeString(sp.ns) + (EncodeString(e.targetType) + r));
  }

  /** What the four edge scans of a drop of `t` read. */
  lemma EdgeScans(sp: Space, e: Edge, t: Bytes)
    ensures InScan(ForwardKey(sp, e), ForwardPrefix(sp, t)) <==> e.sourceType == t
    ensures InScan(MetaKey(sp, e), MetaPrefix(sp, t)) <==> e.sourceType == t
    ensures InScan(ReverseKey(sp, e), ReversePrefix(sp, t)) <==> e.targetType == t
    ensures InScan(MetaKey(sp, e), AllMetaPrefix(sp))
  {
    SourceScan(sp, e, t);
    TargetScan(sp, e, t);
    TailsSafe(sp, e);
    MarkerScan(sp, FORWARD, EncodeString(t), FORWARD, ForwardTail(sp, e));
    MarkerScan(sp, META, EncodeString(t), META, ForwardTail(sp, e));
    MarkerScan(sp, REVERSE, EncodeString(sp.db) + (EncodeString(sp.ns) + EncodeString(t)), REVERSE, ReverseTail(sp, e));
    MarkerScan(sp, META, [], META, ForwardTail(sp, e));
    assert [META] + [] == [META];
  }

  lemma ReverseTailInjective(sp: Space, a: Edge, b: Edge)
    requires ReverseTail(sp, a) == ReverseTail(sp, b)
    ensures a.targetType == b.targetType && a.targetId == b.targetId && a.edgeLabel == b.edgeLabel
    ensures a.sourceType == b.sourceType && a.sourceId == b.sourceId
  {
    ReverseTuple(sp, a);
    ReverseTuple(sp, b);
    TupleInjective(Elements(sp, a), Elements(sp, b));
    assert Elements(sp, a)[2] == Elements(sp, b)[2] && Elements(sp, a)[3] == Elements(sp, b)[3];
    assert Elements(sp, a)[4] == Elements(sp, b)[4] && Elements(sp, a)[5] == Elements(sp, b)[5];
    assert Elements(sp, a)[6] == Elements(sp, b)[6];
  }

  function Elements(sp: Space, e: Edge): seq<Element> {
    [StringElement(sp.db), StringElement(sp.ns), StringElement(e.targetType), StringElement(e.targetId),
     StringElement(e.edgeLabel), StringElement(e.sourceType), StringElement(e.sourceId)]
  }

  lemma ReverseTuple(sp: Space, e: Edge)
    ensures ReverseTail(sp, e) == EncodeTuple(Elements(sp, e))
  {
    var t := Elements(sp, e);
    EncodeCons(t[6], []);
    EncodeCons(t[5], t[6..]);
    EncodeCons(t[4], t[5..]);
    EncodeCons(t[3], t[4..]);
    EncodeCons(t[2], t[3..]);
    EncodeCons(t[1], t[2..]);
    EncodeCons(t[0], t[1..]);
    assert [t[6]] + [] == t[6..] && [t[5]] + t[6..] == t[5..] && [t[4]] + t[5..] == t[4..];
    assert [t[3]] + t[4..] == t[3..] && [t[2]] + t[3..] == t[2..] && [t[1]] + t[2..] == t[1..];
    assert [t[0]] + t[1..] == t;
    StringStarts(e.sourceId, []);
  }

  lemma EncodeCons(x: Element, t: seq<Element>)
    ensures EncodeTuple([x] + t) == EncodeElement(x) + EncodeTuple(t)
  {
    assert ([x] + t)[1..] == t;
  }

  /** A reverse key determines its edge up to the sort key. */
  lemma ReverseKeyInjective(sp: Space, a: Edge, b: Edge)
    requires ReverseKey(sp, a) == ReverseKey(sp, b)
    ensures a.(sortKey := []) == b.(sortKey := [])
  {
    MarkerScan(sp, REVERSE, ReverseTail(sp, a), REVERSE, ReverseTail(sp, b));
    ReverseTailInjective(sp, a, b);
  }

  lemma StringEqual(s: Bytes, t: Bytes, q: Bytes, r: Bytes)
    requires SafeTail(q) && SafeTail(r)
    ensures EncodeString(s) + q == EncodeString(t) + r <==> s == t && q == r
  {
    EncodedStringExtends(s, t, q, r);
    EncodedStringExtends(t, s, r, q);
    EqualsExtend(q, r);
    EqualsExtend(EncodeString(s) + q, EncodeString(t) + r);
  }

  function TargetTail(sp: Space, e: Edge): Bytes {
    EncodeString(sp.db) + (EncodeString(sp.ns) + (EncodeString(e.targetType) + EncodeString(e.targetId)))
  }

  lemma TargetTailInjective(sp: Space, a: Edge, b: Edge)
    ensures TargetTail(sp, a) == TargetTail(sp, b) <==> a.targetType == b.targetType && a.targetId == b.targetId
    ensures SafeTail(TargetTail(sp, a))
  {
    var p, q := EncodeString(a.targetId), EncodeString(b.targetId);
    StringStarts(a.targetId, []);
    StringStarts(b.targetId, []);
    StringEqual(a.targetId, b.targetId, [], []);
    StringEqual(a.targetType, b.targetType, p, q);
    StringStarts(a.targetType, p);
    StringStarts(b.targetType, q);
    StringEqual(sp.ns, sp.ns, EncodeString(a.targetType) + p, EncodeString(b.targetType) + q);
    StringStarts(sp.ns, EncodeString(a.targetType) + p);
    StringStarts(sp.ns, EncodeString(b.targetType) + q);
    StringEqual(sp.db, sp.db, EncodeString(sp.ns) + (EncodeString(a.targetType) + p),
                EncodeString(sp.ns) + (EncodeString(b.targetType) + q));
    StringStarts(sp.db, EncodeString(sp.ns) + (EncodeString(a.targetType) + p));
  }

  /** A sort key that does not start with 0xFF does not blur the label in front of it. */
  predicate PlainSortKey(e: Edge) {
    e.sortKey == [] || e.sortKey[0] != 0xFF
  }

  lemma SortTail(sp: Space, a: Edge, b: Edge)
    requires PlainSortKey(a) && PlainSortKey(b) && |a.sortKey| == |b.sortKey|
    ensures SafeTail(a.sortKey + TargetTail(sp, a)) && SafeTail(b.sortKey + TargetTail(sp, b))
    ensures a.sortKey + TargetTail(sp, a) == b.sortKey + TargetTail(sp, b) <==>
            a.sortKey == b.sortKey && a.targetType == b.targetType && a.targetId == b.targetId
  {
    var s, t := a.sortKey + TargetTail(sp, a), b.sortKey + TargetTail(sp, b);
    TargetTailInjective(sp, a, b);
    TargetTailInjective(sp, b, a);
    assert s[..|a.sortKey|] == a.sortKey && s[|a.sortKey|..] == TargetTail(sp, a);
    assert t[..|b.sortKey|] == b.sortKey && t[|b.sortKey|..] == TargetTail(sp, b);
  }

  lemma ForwardTailIs(sp: Space, e: Edge)
    ensures ForwardTail(sp, e) == EncodeString(e.sourceType) + (EncodeString(e.sourceId)
                                  + (EncodeString(e.edgeLabel) + (e.sortKey + TargetTail(sp, e))))
  {
  }

  lemma ForwardTailInjective(sp: Space, a: Edge, b: Edge)
    requires PlainSortKey(a) && PlainSortKey(b) && |a.sortKey| == |b.sortKey|
    ensures ForwardTail(sp, a) == ForwardTail(sp, b) <==> a == b
  {
    var p, q := a.sortKey + TargetTail(sp, a), b.sortKey + TargetTail(sp, b);
    var p1, q1 := EncodeString(a.edgeLabel) + p, EncodeString(b.edgeLabel) + q;
    SortTail(sp, a, b);
    ForwardTailIs(sp, a);
    ForwardTailIs(sp, b);
    StringEqual(a.edgeLabel, b.edgeLabel, p, q);
    StringStarts(a.edgeLabel, p);
    StringStarts(b.edgeLabel, q);
    StringEqual(a.sourceId, b.sourceId, p1, q1);
    StringStarts(a.sourceId, p1);
    StringStarts(b.sourceId, q1);
    StringEqual(a.sourceType, b.sourceType, EncodeString(a.sourceId) + p1, EncodeString(b.sourceId) + q1);
  }

  lemma KeyRest(sp: Space, s: Section, q: Bytes, r: Bytes)
    ensures Key(sp, s, q) == Key(sp, s, r) <==> q == r
  {
    KeySplits(sp, s, q);
    KeySplits(sp, s, r);
    var p := Key(sp, s, []);
    assert (p + q)[|p|..] == q && (p + r)[|p|..] == r;
  }

  /** For sort keys of one width that do not start with 0xFF, a forward and a meta key each determine their edge. */
  lemma ForwardKeyInjective(sp: Space, a: Edge, b: Edge)
    requires PlainSortKey(a) && PlainSortKey(b) && |a.sortKey| == |b.sortKey|
    ensures ForwardKey(sp, a) == ForwardKey(sp, b) <==> a == b
    ensures MetaKey(sp, a) == MetaKey(sp, b) <==> a == b
  {
    var p, q := ForwardTail(sp, a), ForwardTail(sp, b);
    ForwardTailInjective(sp, a, b);
    KeyRest(sp, Edges, [FORWARD] + p, [FORWARD] + q);
    KeyRest(sp, Edges, [META] + p, [META] + q);
    assert ([FORWARD] + p)[1..] == p && ([FORWARD] + q)[1..] == q;
    assert ([META] + p)[1..] == p && ([META] + q)[1..] == q;
  }

  lemma ForwardMetaAgree(sp: Space, a: Edge, b: Edge)
    ensures ForwardKey(sp, a) == ForwardKey(sp, b) <==> MetaKey(sp, a) == MetaKey(sp, b)
  {
    MarkerScan(sp, FORWARD, ForwardTail(sp, a), FORWARD, ForwardTail(sp, b));
    MarkerScan(sp, META, ForwardTail(sp, a), META, ForwardTail(sp, b));
  }

  /** The three kinds of edge key never coincide, nor does one kind's scan read another's keys. */
  lemma KindsApart(sp: Space, a: Edge, b: Edge, t: Bytes)
    ensures ForwardKey(sp, a) != MetaKey(sp, b) && ForwardKey(sp, a) != ReverseKey(sp, b) && MetaKey(sp, a) != ReverseKey(sp, b)
    ensures !InScan(MetaKey(sp, a), ForwardPrefix(sp, t)) && !InScan(ReverseKey(sp, a), ForwardPrefix(sp, t))
    ensures !InScan(ForwardKey(sp, a), MetaPrefix(sp, t)) && !InScan(ReverseKey(sp, a), MetaPrefix(sp, t))
    ensures !InScan(ForwardKey(sp, a), AllMetaPrefix(sp)) && !InScan(ReverseKey(sp, a), AllMetaPrefix(sp))
    ensures !InScan(ForwardKey(sp, a), ReversePrefix(sp, t)) && !InScan(MetaKey(sp, a), ReversePrefix(sp, t))
  {
    var target := EncodeString(sp.db) + (EncodeString(sp.ns) + EncodeString(t));
    MarkerScan(sp, FORWARD, ForwardTail(sp, a), META, ForwardTail(sp, b));
    MarkerScan(sp, FORWARD, ForwardTail(sp, a), REVERSE, ReverseTail(sp, b));
    MarkerScan(sp, META, ForwardTail(sp, a), REVERSE, ReverseTail(sp, b));
    MarkerScan(sp, FORWARD, EncodeString(t), META, ForwardTail(sp, a));
    MarkerScan(sp, FORWARD, EncodeString(t), REVERSE, ReverseTail(sp, a));
    MarkerScan(sp, META, EncodeString(t), FORWARD, ForwardTail(sp, a));
    MarkerScan(sp, META, EncodeString(t), REVERSE, ReverseTail(sp, a));
    assert [META] + [] == [META];
    MarkerScan(sp, META, [], FORWARD, ForwardTail(sp, a));
    MarkerScan(sp, META, [], REVERSE, ReverseTail(sp, a));
    MarkerScan(sp, REVERSE, target, FORWARD, ForwardTail(sp, a));
    MarkerScan(sp, REVERSE, target, META, ForwardTail(sp, a));
  }

  lemma MetaApart(sp: Space, a: Edge, b: Edge)
    ensures MetaKey(sp, a) != ForwardKey(sp, b) && MetaKey(sp, a) != ReverseKey(sp, b)
  {
    MarkerScan(sp, FORWARD, ForwardTail(sp, b), META, ForwardTail(sp, a));
    MarkerScan(sp, META, ForwardTail(sp, a), REVERSE, ReverseTail(sp, b));
  }

  // ---- forward_key_from_meta_key ----

  function EdgePrefix(sp: Space): Bytes {
    Key(sp, Edges, [])
  }

  /** Patch the marker byte behind the edge prefix. */
  function ForwardFromMeta(sp: Space, key: Bytes): Option<Bytes> {
    var pos := |EdgePrefix(sp)|;
    if |key| <= pos || key[pos] != META then None else Some(key[pos := FORWARD])
  }

  lemma TailLast(a: Bytes, b: Bytes, c: Bytes, rest: Bytes)
    ensures a + (b + (c + rest)) == a + (b + (c + [])) + rest
  {
  }

  lemma KeySplits(sp: Space, s: Section, rest: Bytes)
    ensures Key(sp, s, rest) == Key(sp, s, []) + rest
  {
    TailLast(EncodeString(sp.db), EncodeString(sp.ns), EncodeString(Name(s)), rest);
  }

  lemma PatchAt(p: Bytes, a: Byte, b: Byte, tail: Bytes)
    ensures (p + ([a] + tail))[|p|] == a && (p + ([a] + tail))[|p| := b] == p + ([b] + tail)
  {
  }

  lemma PatchedMetaIsForward(sp: Space, e: Edge)
    ensures ForwardFromMeta(sp, MetaKey(sp, e)) == Some(ForwardKey(sp, e))
  {
    KeySplits(sp, Edges, [META] + ForwardTail(sp, e));
    KeySplits(sp, Edges, [FORWARD] + ForwardTail(sp, e));
    PatchAt(EdgePrefix(sp), META, FORWARD, ForwardTail(sp, e));
  }
}
