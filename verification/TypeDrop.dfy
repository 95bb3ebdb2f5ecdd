/**
 * Dropping an entity type: eight passes of committed batches, each of which may fail, and
 * what any attempt leaves behind (crates/pelago-api/src/admin_service.rs).
 */
module TypeDrop {
  import opened Common
  import opened ByteOrder
  import opened Encoding
  import opened Store
  import opened EdgeKeys

  /** A row; the value of a meta row decodes to its edge. */
  type EdgeRow = Row<Option<Edge>>

  // ---- the stored layout ----

  datatype Item =
    | Filed(section: Section, entityType: Bytes, rest: Bytes)
    | Forward(edge: Edge)
    | Meta(edge: Edge)
    | Reverse(edge: Edge)
    | Elsewhere

  /** One namespace: its rows before the drop of `dropped`, and its edges. */
  datatype Layout = Layout(sp: Space, dropped: Bytes, all: seq<EdgeRow>, edges: set<Edge>)

  /** A name with a zero byte may read as another name followed by 0xFF; no other row is excluded. */
  predicate Tellable(l: Layout, t: Bytes, rest: Bytes) {
    t == l.dropped || ZeroFree(l.dropped) || SafeTail(rest)
  }

  ghost predicate Holds(l: Layout, r: EdgeRow, it: Item) {
    match it
    case Filed(s, t, rest) => !s.Edges? && r.key == Key(l.sp, s, EncodeString(t) + rest) && Tellable(l, t, rest)
    case Forward(e) => e in l.edges && r.key == ForwardKey(l.sp, e)
    case Meta(e) => e in l.edges && r == Row(MetaKey(l.sp, e), Some(e))
    case Reverse(e) => e in l.edges && r.key == ReverseKey(l.sp, e)
    case Elsewhere => forall s: Section :: !InScan(r.key, Key(l.sp, s, []))
  }

  ghost predicate Fits(l: Layout, r: EdgeRow) {
    exists it :: Holds(l, r, it)
  }

  /** Each edge has its meta row, and a forward and a reverse key. */
  ghost predicate EdgeStored(l: Layout, e: Edge) {
    && Row(MetaKey(l.sp, e), Some(e)) in l.all
    && ForwardKey(l.sp, e) in Store.Keys(l.all)
    && ReverseKey(l.sp, e) in Store.Keys(l.all)
  }

  ghost predicate Laid(l: Layout) {
    && KeysAscending(l.all)
    && (forall r :: r in l.all ==> Fits(l, r))
    && (forall e :: e in l.edges ==> EdgeStored(l, e))
  }

  // ---- what the drop clears ----

  predicate Touches(e: Edge, t: Bytes) {
    e.sourceType == t || e.targetType == t
  }

  function EdgeKeysOf(sp: Space, e: Edge): set<Bytes> {
    {ForwardKey(sp, e), MetaKey(sp, e), ReverseKey(sp, e)}
  }

  /** An edge without a label is only reached by the prefix passes. */
  predicate ForwardGoes(e: Edge, t: Bytes) {
    e.sourceType == t || (e.targetType == t && e.edgeLabel != [])
  }

  predicate ReverseGoes(e: Edge, t: Bytes) {
    e.targetType == t || (e.sourceType == t && e.edgeLabel != [])
  }

  predicate DoomedBy(sp: Space, e: Edge, t: Bytes, k: Bytes) {
    || (ForwardGoes(e, t) && (k == ForwardKey(sp, e) || k == MetaKey(sp, e)))
    || (ReverseGoes(e, t) && k == ReverseKey(sp, e))
  }

  predicate DoomedFiled(l: Layout, k: Bytes) {
    || InScan(k, TypePrefix(l.sp, Schema, l.dropped))
    || InScan(k, TypePrefix(l.sp, Data, l.dropped))
    || InScan(k, TypePrefix(l.sp, Index, l.dropped))
  }

  ghost predicate DoomedEdge(l: Layout, k: Bytes) {
    exists e :: e in l.edges && DoomedBy(l.sp, e, l.dropped, k)
  }

  ghost predicate Doomed(l: Layout, k: Bytes) {
    DoomedFiled(l, k) || DoomedEdge(l, k)
  }

  // ---- states between batches ----

  ghost predicate Stored(l: Layout, rows: seq<EdgeRow>, live: set<Bytes>) {
    live <= Store.Keys(l.all) && rows == Restrict(l.all, live)
  }

  predicate Labelled(l: Layout, e: Edge) {
    Touches(e, l.dropped) && e.edgeLabel != []
  }

  predicate Findable(l: Layout, live: set<Bytes>, e: Edge) {
    ForwardKey(l.sp, e) in live || ReverseKey(l.sp, e) in live ==> MetaKey(l.sp, e) in live
  }

  /** A labelled edge still to be cleared can be found again from its meta row. */
  ghost predicate Linked(l: Layout, live: set<Bytes>) {
    forall e :: e in l.edges && Labelled(l, e) ==> Findable(l, live, e)
  }

  ghost predicate Partial(l: Layout, live: set<Bytes>) {
    && live <= Store.Keys(l.all)
    && (forall k :: k in Store.Keys(l.all) && !Doomed(l, k) ==> k in live)
    && Linked(l, live)
  }

  ghost predicate Finished(l: Layout, live: set<Bytes>) {
    forall k :: k in live <==> k in Store.Keys(l.all) && !Doomed(l, k)
  }

  // ---- reading the layout ----

  lemma ElsewhereUnscanned(sp: Space, k: Bytes, s: Section, q: Bytes)
    requires !InScan(k, Key(sp, s, [])) && SafeTail(q)
    ensures !InScan(k, Key(sp, s, q)) && k != Key(sp, s, q)
  {
    KeySplits(sp, s, q);
    ScanExtends(k, Key(sp, s, []));
    ScanExtends(k, Key(sp, s, q));
  }

  /** An edge scan with marker `m` reads no row filed under a type, nor one from elsewhere. */
  lemma OnlyEdgesScanned(l: Layout, r: EdgeRow, it: Item, q: Bytes)
    requires Holds(l, r, it) && (it.Filed? || it.Elsewhere?) && SafeTail(q)
    ensures !InScan(r.key, Key(l.sp, Edges, q)) && r.key != Key(l.sp, Edges, q)
  {
    match it
    case Filed(s, t, rest) =>
      StringStarts(t, rest);
      SectionScan(l.sp, Edges, q, s, EncodeString(t) + rest);
    case Elsewhere => ElsewhereUnscanned(l.sp, r.key, Edges, q);
  }

  lemma EdgeScansRead(l: Layout, r: EdgeRow, it: Item)
    requires Laid(l) && r in l.all && Holds(l, r, it)
    ensures InScan(r.key, ForwardPrefix(l.sp, l.dropped)) <==> it.Forward? && it.edge.sourceType == l.dropped
    ensures InScan(r.key, MetaPrefix(l.sp, l.dropped)) <==> it.Meta? && it.edge.sourceType == l.dropped
    ensures InScan(r.key, ReversePrefix(l.sp, l.dropped)) <==> it.Reverse? && it.edge.targetType == l.dropped
    ensures InScan(r.key, AllMetaPrefix(l.sp)) <==> it.Meta?
  {
    if it.Filed? || it.Elsewhere? {
      OnlyEdgesScanned(l, r, it, [FORWARD] + EncodeString(l.dropped));
      OnlyEdgesScanned(l, r, it, [META] + EncodeString(l.dropped));
      OnlyEdgesScanned(l, r, it, [META]);
      OnlyEdgesScanned(l, r, it, [REVERSE] + (EncodeString(l.sp.db) + (EncodeString(l.sp.ns) + EncodeString(l.dropped))));
    } else {
      EdgeScans(l.sp, it.edge, l.dropped);
      KindsApart(l.sp, it.edge, it.edge, l.dropped);
    }
  }

  /** Edge keys lie outside the sections of rows filed by type. */
  lemma EdgeKeysUnfiled(l: Layout, e: Edge)
    ensures forall k :: k in EdgeKeysOf(l.sp, e) ==> !DoomedFiled(l, k)
  {
    forall s: Section, m: Byte, tail: Bytes | s != Edges && m < 0xFF
      ensures !InScan(Key(l.sp, Edges, [m] + tail), TypePrefix(l.sp, s, l.dropped))
    {
      StringStarts(l.dropped, []);
      SectionScan(l.sp, s, EncodeString(l.dropped), Edges, [m] + tail);
    }
  }

  lemma MetaRowKnown(l: Layout, r: EdgeRow)
    requires Laid(l) && r in l.all && InScan(r.key, AllMetaPrefix(l.sp))
    ensures r.value.Some? && r.value.value in l.edges && r.key == MetaKey(l.sp, r.value.value)
  {
    var it :| Holds(l, r, it);
    EdgeScansRead(l, r, it);
  }

  /** Edges sharing a meta key are one edge. */
  lemma MetaKeyUnique(l: Layout, a: Edge, b: Edge)
    requires Laid(l) && a in l.edges && b in l.edges && MetaKey(l.sp, a) == MetaKey(l.sp, b)
    ensures a == b
  {
    SameRow(l.all, Row(MetaKey(l.sp, a), Some(a)), Row(MetaKey(l.sp, b), Some(b)));
  }

  // ---- the passes ----

  const BATCH: nat := 1000

  function RowKey(): EdgeRow -> set<Bytes> {
    (r: EdgeRow) => {r.key}
  }

  /** Clear every key of a scan, batch by batch from the start. */
  method ClearPrefix(db: Db<Option<Edge>>, prefix: Bytes, ghost l: Layout, ghost before: set<Bytes>)
    returns (ok: bool, ghost live: set<Bytes>)
    requires KeysAscending(l.all) && Stored(l, db.rows, before)
    modifies db
    ensures Stored(l, db.rows, live) && live <= before
    ensures forall k :: k in before && k !in live ==> InScan(k, prefix)
    ensures ok ==> forall k :: k in live ==> !InScan(k, prefix)
  {
    live := before;
    while true
      invariant Stored(l, db.rows, live) && live <= before
      invariant forall k :: k in before && k !in live ==> InScan(k, prefix)
      decreases live
    {
      ok := *;
      if !ok {
        return;
      }
      var batch := GetRange(db.rows, prefix, prefix + [0xFF], BATCH);
      BatchOf(l.all, live, prefix, prefix + [0xFF], BATCH);
      if batch == [] {
        NoneLeft(l, live, prefix);
        return;
      }
      var dead := Collect(batch, RowKey());
      ok := db.Commit(dead);
      if !ok {
        return;
      }
      assert batch[0] in batch && batch[0].key in RowKey()(batch[0]);
      ClearRestricted(l.all, live, dead);
      live := live - dead;
    }
  }

  lemma NoneLeft(l: Layout, live: set<Bytes>, prefix: Bytes)
    requires live <= Store.Keys(l.all)
    requires IsBatch(l.all, live, prefix, prefix + [0xFF], BATCH, [])
    ensures forall k :: k in live ==> !InScan(k, prefix)
  {
  }

  function ReverseOf(sp: Space): EdgeRow -> set<Bytes> {
    (r: EdgeRow) => if r.value.None? || r.value.value.edgeLabel == [] then {} else {ReverseKey(sp, r.value.value)}
  }

  /** Labelled edges out of the dropped type whose meta key is below `start` have lost their reverse key. */
  ghost predicate Swept(l: Layout, live: set<Bytes>, start: Bytes) {
    forall e :: e in l.edges && e.sourceType == l.dropped && e.edgeLabel != [] ==> SweptEdge(l, live, start, e)
  }

  predicate SweptEdge(l: Layout, live: set<Bytes>, start: Bytes, e: Edge) {
    MetaKey(l.sp, e) in live && Less(MetaKey(l.sp, e), start) ==> ReverseKey(l.sp, e) !in live
  }

  ghost predicate SourceReverse(l: Layout, k: Bytes) {
    exists e :: e in l.edges && e.sourceType == l.dropped && e.edgeLabel != [] && k == ReverseKey(l.sp, e)
  }

  /** One batch of the reverse-key pass, read from `start`. */
  lemma SweepBatch(l: Layout, live: set<Bytes>, start: Bytes, limit: nat, batch: seq<EdgeRow>, dead: set<Bytes>,
                   e: Edge, next: Bytes)
    requires Laid(l) && Swept(l, live, start) && Gathers(batch, ReverseOf(l.sp), dead)
    requires IsBatch(l.all, live, start, MetaPrefix(l.sp, l.dropped) + [0xFF], limit, batch)
    requires |batch| < limit || (batch != [] && next == batch[|batch| - 1].key + [0x00])
    requires e in l.edges && e.sourceType == l.dropped && e.edgeLabel != []
    ensures SweptEdge(l, live - dead, next, e)
  {
    var r := Row(MetaKey(l.sp, e), Some(e));
    EdgeScans(l.sp, e, l.dropped);
    NotLess(r.key, start);
    assert SweptEdge(l, live, start, e);
    if r.key in live && Less(r.key, next) && !Less(r.key, start) {
      BatchCovers(l.all, live, start, MetaPrefix(l.sp, l.dropped) + [0xFF], limit, batch, r);
      assert ReverseKey(l.sp, e) in ReverseOf(l.sp)(r);
    }
  }

  lemma SweptKeys(l: Layout, live: set<Bytes>, start: Bytes, limit: nat, batch: seq<EdgeRow>, dead: set<Bytes>,
                  k: Bytes)
    requires Laid(l) && AtMost(MetaPrefix(l.sp, l.dropped), start) && Gathers(batch, ReverseOf(l.sp), dead)
    requires IsBatch(l.all, live, start, MetaPrefix(l.sp, l.dropped) + [0xFF], limit, batch)
    requires k in dead
    ensures SourceReverse(l, k)
  {
    var r :| r in batch && k in ReverseOf(l.sp)(r);
    var it :| Holds(l, r, it);
    EdgeScansRead(l, r, it);
    if start != MetaPrefix(l.sp, l.dropped) && start != r.key {
      LessTransitive(MetaPrefix(l.sp, l.dropped), start, r.key);
    }
  }

  /** Clear the reverse keys of edges out of the dropped type, found from their meta rows. */
  method ClearReverseOfSource(db: Db<Option<Edge>>, sp: Space, t: Bytes, batchSize: nat, ghost l: Layout,
                              ghost before: set<Bytes>)
    returns (ok: bool, ghost live: set<Bytes>)
    requires Laid(l) && Stored(l, db.rows, before) && sp == l.sp && t == l.dropped
    modifies db
    ensures Stored(l, db.rows, live) && live <= before
    ensures forall k :: k in before && k !in live ==> SourceReverse(l, k)
    ensures ok ==> Swept(l, live, MetaPrefix(l.sp, t) + [0xFF])
  {
    live := before;
    var start := MetaPrefix(sp, t);
    var end := start + [0xFF];
    var limit := Max(batchSize, 1);
    NothingBelow(l);
    while true
      invariant Stored(l, db.rows, live) && live <= before
      invariant forall k :: k in before && k !in live ==> SourceReverse(l, k)
      invariant AtMost(MetaPrefix(sp, t), start) && Swept(l, live, start)
      decreases RangeKeys(l.all, start, end)
    {
      ok := *;
      if !ok {
        return;
      }
      var batch := GetRange(db.rows, start, end, limit);
      BatchOf(l.all, live, start, end, limit);
      var dead := Collect(batch, ReverseOf(sp));
      if dead != {} {
        ok := db.Commit(dead);
        if !ok {
          return;
        }
      } else {
        ClearNothing(l.all, live);
      }
      ClearRestricted(l.all, live, dead);
      forall k | k in dead
        ensures SourceReverse(l, k)
      {
        SweptKeys(l, live, start, limit, batch, dead, k);
      }
      var next := if |batch| < limit then end else batch[|batch| - 1].key + [0x00];
      forall e | e in l.edges && e.sourceType == t && e.edgeLabel != []
        ensures SweptEdge(l, live - dead, next, e)
      {
        SweepBatch(l, live, start, limit, batch, dead, e, next);
      }
      live := live - dead;
      if |batch| < limit {
        return;
      }
      NextStart(l.all, start, end, batch[|batch| - 1]);
      AtMostLess(MetaPrefix(sp, t), start, next);
      start := next;
    }
  }

  lemma ClearNothing(all: seq<EdgeRow>, live: set<Bytes>)
    ensures Cleared(Restrict(all, live), {}) == Restrict(all, live)
  {
    ClearRestricted(all, live, {});
    assert live - {} == live;
  }

  /** No meta key of an edge out of the dropped type lies below the scan. */
  lemma NothingBelow(l: Layout)
    ensures forall live :: Swept(l, live, MetaPrefix(l.sp, l.dropped))
  {
    forall e | e in l.edges && e.sourceType == l.dropped
      ensures !Less(MetaKey(l.sp, e), MetaPrefix(l.sp, l.dropped))
    {
      EdgeScans(l.sp, e, l.dropped);
      NotLess(MetaKey(l.sp, e), MetaPrefix(l.sp, l.dropped));
    }
  }

  // ---- the pass over edges into the dropped type ----

  function TargetKeys(sp: Space, t: Bytes): EdgeRow -> set<Bytes> {
    (r: EdgeRow) =>
      if r.value.None? || r.value.value.edgeLabel == [] || r.value.value.targetType != t then {}
      else
        var forward := ForwardFromMeta(sp, r.key);
        {r.key} + (if forward.Some? then {forward.value} else {})
          + {ReverseKey(sp, r.value.value), ReverseKey(sp, Swapped(r.value.value))}
  }

  /** Labelled edges into the dropped type whose meta key is below `start` have lost it. */
  ghost predicate TargetSwept(l: Layout, live: set<Bytes>, start: Bytes) {
    forall e :: e in l.edges && e.targetType == l.dropped && e.edgeLabel != [] ==> TargetSweptEdge(l, live, start, e)
  }

  predicate TargetSweptEdge(l: Layout, live: set<Bytes>, start: Bytes, e: Edge) {
    Less(MetaKey(l.sp, e), start) ==> MetaKey(l.sp, e) !in live
  }

  lemma TargetSweepBatch(l: Layout, live: set<Bytes>, start: Bytes, limit: nat, batch: seq<EdgeRow>,
                         dead: set<Bytes>, e: Edge, next: Bytes)
    requires Laid(l) && TargetSwept(l, live, start) && Gathers(batch, TargetKeys(l.sp, l.dropped), dead)
    requires IsBatch(l.all, live, start, AllMetaPrefix(l.sp) + [0xFF], limit, batch)
    requires |batch| < limit || (batch != [] && next == batch[|batch| - 1].key + [0x00])
    requires e in l.edges && e.targetType == l.dropped && e.edgeLabel != []
    ensures TargetSweptEdge(l, live - dead, next, e)
  {
    var r := Row(MetaKey(l.sp, e), Some(e));
    EdgeScans(l.sp, e, l.dropped);
    NotLess(r.key, start);
    assert TargetSweptEdge(l, live, start, e);
    if r.key in live && Less(r.key, next) && !Less(r.key, start) {
      BatchCovers(l.all, live, start, AllMetaPrefix(l.sp) + [0xFF], limit, batch, r);
      assert r.key in TargetKeys(l.sp, l.dropped)(r);
    }
  }

  /** The keys cleared for one meta row: those of its edge, and a reverse key of the swapped one. */
  lemma TargetKeysOf(l: Layout, r: EdgeRow)
    requires Laid(l) && r in l.all && InScan(r.key, AllMetaPrefix(l.sp))
    ensures r.value.Some? && r.value.value in l.edges
    ensures var e := r.value.value;
            TargetKeys(l.sp, l.dropped)(r) == if e.targetType == l.dropped && e.edgeLabel != []
                                              then EdgeKeysOf(l.sp, e) + {ReverseKey(l.sp, Swapped(e))}
                                              else {}
  {
    MetaRowKnown(l, r);
    PatchedMetaIsForward(l.sp, r.value.value);
  }

  lemma InAllMeta(l: Layout, start: Bytes, k: Bytes)
    requires AtMost(AllMetaPrefix(l.sp), start) && InRange(k, start, AllMetaPrefix(l.sp) + [0xFF])
    ensures InScan(k, AllMetaPrefix(l.sp))
  {
    if start != AllMetaPrefix(l.sp) && start != k {
      LessTransitive(AllMetaPrefix(l.sp), start, k);
    }
  }

  /** If the swapped reverse key is stored, it belongs to an edge out of the dropped type. */
  lemma SwappedIsDoomed(l: Layout, e: Edge)
    requires Laid(l) && e.targetType == l.dropped && e.edgeLabel != []
    requires ReverseKey(l.sp, Swapped(e)) in Store.Keys(l.all)
    ensures DoomedEdge(l, ReverseKey(l.sp, Swapped(e)))
  {
    var k := ReverseKey(l.sp, Swapped(e));
    var r :| r in l.all && r.key == k;
    var it :| Holds(l, r, it);
    if it.Filed? || it.Elsewhere? {
      OnlyEdgesScanned(l, r, it, [REVERSE] + ReverseTail(l.sp, Swapped(e)));
    } else {
      KindsApart(l.sp, it.edge, Swapped(e), l.dropped);
      assert it.Reverse?;
      ReverseKeyInjective(l.sp, it.edge, Swapped(e));
      assert DoomedBy(l.sp, it.edge, l.dropped, k);
    }
  }

  /** All keys of a labelled edge into the type are doomed. */
  lemma LabelledDoomed(l: Layout, e: Edge, k: Bytes)
    requires e in l.edges && Labelled(l, e) && k in EdgeKeysOf(l.sp, e)
    ensures DoomedEdge(l, k)
  {
    assert DoomedBy(l.sp, e, l.dropped, k);
  }

  lemma TargetDeadDoomed(l: Layout, batch: seq<EdgeRow>, dead: set<Bytes>, k: Bytes)
    requires Laid(l) && Gathers(batch, TargetKeys(l.sp, l.dropped), dead)
    requires forall r :: r in batch ==> r in l.all && InScan(r.key, AllMetaPrefix(l.sp))
    requires k in dead && k in Store.Keys(l.all)
    ensures DoomedEdge(l, k)
  {
    var r :| r in batch && k in TargetKeys(l.sp, l.dropped)(r);
    TargetKeysOf(l, r);
    var e := r.value.value;
    if k in EdgeKeysOf(l.sp, e) {
      LabelledDoomed(l, e, k);
    } else {
      SwappedIsDoomed(l, e);
    }
  }

  lemma OneOfFour(k: Bytes, a: Bytes, b: Bytes, c: Bytes, d: Bytes)
    requires k in {a, b, c} + {d} && k != a && k != c && k != d
    ensures k == b
  {
  }

  lemma MetaDeterminesEdge(l: Layout, e: Edge, f: Edge)
    requires Laid(l) && e in l.edges && f in l.edges
    requires MetaKey(l.sp, e) in EdgeKeysOf(l.sp, f) + {ReverseKey(l.sp, Swapped(f))}
    ensures e == f
  {
    MetaApart(l.sp, e, f);
    MetaApart(l.sp, e, Swapped(f));
    OneOfFour(MetaKey(l.sp, e), ForwardKey(l.sp, f), MetaKey(l.sp, f), ReverseKey(l.sp, f), ReverseKey(l.sp, Swapped(f)));
    MetaKeyUnique(l, e, f);
  }

  /** The pass clears an edge's three keys together. */
  lemma ClearedWhole(l: Layout, batch: seq<EdgeRow>, dead: set<Bytes>, e: Edge)
    requires Laid(l) && Gathers(batch, TargetKeys(l.sp, l.dropped), dead)
    requires forall r :: r in batch ==> r in l.all && InScan(r.key, AllMetaPrefix(l.sp))
    requires e in l.edges && MetaKey(l.sp, e) in dead
    ensures EdgeKeysOf(l.sp, e) <= dead
  {
    var r :| r in batch && MetaKey(l.sp, e) in TargetKeys(l.sp, l.dropped)(r);
    TargetKeysOf(l, r);
    MetaDeterminesEdge(l, e, r.value.value);
    assert EdgeKeysOf(l.sp, e) <= TargetKeys(l.sp, l.dropped)(r);
  }

  lemma TargetKeepsLinked(l: Layout, live: set<Bytes>, batch: seq<EdgeRow>, dead: set<Bytes>)
    requires Laid(l) && Linked(l, live) && Gathers(batch, TargetKeys(l.sp, l.dropped), dead)
    requires forall r :: r in batch ==> r in l.all && InScan(r.key, AllMetaPrefix(l.sp))
    ensures Linked(l, live - dead)
  {
    forall e | e in l.edges && Labelled(l, e)
      ensures Findable(l, live - dead, e)
    {
      assert Findable(l, live, e);
      if MetaKey(l.sp, e) in dead {
        ClearedWhole(l, batch, dead, e);
        assert ForwardKey(l.sp, e) in EdgeKeysOf(l.sp, e) && ReverseKey(l.sp, e) in EdgeKeysOf(l.sp, e);
      }
    }
  }

  /** Clear forward, meta and reverse keys of edges into the dropped type. */
  method ClearForwardMetaOfTarget(db: Db<Option<Edge>>, sp: Space, t: Bytes, batchSize: nat, ghost l: Layout,
                                  ghost before: set<Bytes>)
    returns (ok: bool, ghost live: set<Bytes>)
    requires Laid(l) && Stored(l, db.rows, before) && Linked(l, before) && sp == l.sp && t == l.dropped
    modifies db
    ensures Stored(l, db.rows, live) && live <= before && Linked(l, live)
    ensures forall k :: k in before && k !in live ==> DoomedEdge(l, k)
    ensures ok ==> TargetSwept(l, live, AllMetaPrefix(l.sp) + [0xFF])
  {
    live := before;
    var start := AllMetaPrefix(sp);
    var end := start + [0xFF];
    var limit := Max(batchSize, 1);
    NoMetaBelow(l);
    while true
      invariant Stored(l, db.rows, live) && live <= before && Linked(l, live)
      invariant forall k :: k in before && k !in live ==> DoomedEdge(l, k)
      invariant AtMost(AllMetaPrefix(sp), start) && TargetSwept(l, live, start)
      decreases RangeKeys(l.all, start, end)
    {
      ok := *;
      if !ok {
        return;
      }
      var batch := GetRange(db.rows, start, end, limit);
      BatchOf(l.all, live, start, end, limit);
      var dead := Collect(batch, TargetKeys(sp, t));
      if dead != {} {
        ok := db.Commit(dead);
        if !ok {
          return;
        }
      } else {
        ClearNothing(l.all, live);
      }
      ClearRestricted(l.all, live, dead);
      forall r | r in batch
        ensures r in l.all && InScan(r.key, AllMetaPrefix(sp))
      {
        InAllMeta(l, start, r.key);
      }
      forall k | k in dead && k in live
        ensures DoomedEdge(l, k)
      {
        TargetDeadDoomed(l, batch, dead, k);
      }
      TargetKeepsLinked(l, live, batch, dead);
      var next := if |batch| < limit then end else batch[|batch| - 1].key + [0x00];
      forall e | e in l.edges && e.targetType == t && e.edgeLabel != []
        ensures TargetSweptEdge(l, live - dead, next, e)
      {
        TargetSweepBatch(l, live, start, limit, batch, dead, e, next);
      }
      live := live - dead;
      if |batch| < limit {
        return;
      }
      NextStart(l.all, start, end, batch[|batch| - 1]);
      AtMostLess(AllMetaPrefix(sp), start, next);
      start := next;
    }
  }

  lemma NoMetaBelow(l: Layout)
    ensures forall live :: TargetSwept(l, live, AllMetaPrefix(l.sp))
  {
    forall e: Edge
      ensures !Less(MetaKey(l.sp, e), AllMetaPrefix(l.sp))
    {
      EdgeScans(l.sp, e, l.dropped);
      NotLess(MetaKey(l.sp, e), AllMetaPrefix(l.sp));
    }
  }

  // ---- the whole drop ----

  /** A pass over rows filed by type touches no edge key. */
  lemma FiledPassKeeps(l: Layout, s: Section, before: set<Bytes>, live: set<Bytes>)
    requires s != Edges && Partial(l, before) && live <= before
    requires forall k :: k in before && k !in live ==> InScan(k, TypePrefix(l.sp, s, l.dropped))
    ensures Partial(l, live)
  {
    forall e | e in l.edges && Labelled(l, e)
      ensures Findable(l, live, e)
    {
      assert Findable(l, before, e);
      EdgeKeysUnfiled(l, e);
      assert MetaKey(l.sp, e) in EdgeKeysOf(l.sp, e);
    }
  }

  ghost predicate NoForward(l: Layout, live: set<Bytes>) {
    forall e :: e in l.edges && e.sourceType == l.dropped ==> ForwardKey(l.sp, e) !in live
  }

  ghost predicate NoReverse(l: Layout, live: set<Bytes>) {
    forall e :: e in l.edges && e.sourceType == l.dropped && e.edgeLabel != [] ==> ReverseKey(l.sp, e) !in live
  }

  ghost predicate NoTargetMeta(l: Layout, live: set<Bytes>) {
    forall e :: e in l.edges && e.targetType == l.dropped && e.edgeLabel != [] ==> MetaKey(l.sp, e) !in live
  }

  lemma ForwardPassKeeps(l: Layout, before: set<Bytes>, live: set<Bytes>)
    requires Laid(l) && Partial(l, before) && live <= before
    requires forall k :: k in before && k !in live ==> InScan(k, ForwardPrefix(l.sp, l.dropped))
    ensures Partial(l, live)
  {
    forall k | k in before && k !in live
      ensures Doomed(l, k)
    {
      var r :| r in l.all && r.key == k;
      var it :| Holds(l, r, it);
      EdgeScansRead(l, r, it);
      assert DoomedBy(l.sp, it.edge, l.dropped, k);
    }
    forall e | e in l.edges && Labelled(l, e)
      ensures Findable(l, live, e)
    {
      assert Findable(l, before, e);
      KindsApart(l.sp, e, e, l.dropped);
    }
  }

  lemma ForwardPassDone(l: Layout, live: set<Bytes>)
    requires forall k :: k in live ==> !InScan(k, ForwardPrefix(l.sp, l.dropped))
    ensures NoForward(l, live)
  {
    forall e | e in l.edges && e.sourceType == l.dropped
      ensures ForwardKey(l.sp, e) !in live
    {
      EdgeScans(l.sp, e, l.dropped);
    }
  }

  lemma ReversePassKeeps(l: Layout, before: set<Bytes>, live: set<Bytes>)
    requires Laid(l) && Partial(l, before) && live <= before
    requires forall k :: k in before && k !in live ==> SourceReverse(l, k)
    ensures Partial(l, live)
  {
    forall k | k in before && k !in live
      ensures Doomed(l, k)
    {
      var e :| e in l.edges && e.sourceType == l.dropped && e.edgeLabel != [] && k == ReverseKey(l.sp, e);
      assert DoomedBy(l.sp, e, l.dropped, k);
    }
    forall e | e in l.edges && Labelled(l, e)
      ensures Findable(l, live, e)
    {
      assert Findable(l, before, e);
      forall f
        ensures MetaKey(l.sp, e) != ReverseKey(l.sp, f)
      {
        MetaApart(l.sp, e, f);
      }
    }
  }

  /** A reverse key whose meta row is gone was cleared before it. */
  lemma ReversePassDone(l: Layout, live: set<Bytes>)
    requires Linked(l, live) && Swept(l, live, MetaPrefix(l.sp, l.dropped) + [0xFF])
    ensures NoReverse(l, live)
  {
    forall e | e in l.edges && e.sourceType == l.dropped && e.edgeLabel != []
      ensures ReverseKey(l.sp, e) !in live
    {
      assert SweptEdge(l, live, MetaPrefix(l.sp, l.dropped) + [0xFF], e);
      assert Labelled(l, e) && Findable(l, live, e);
      EdgeScans(l.sp, e, l.dropped);
    }
  }

  lemma TargetPassDone(l: Layout, live: set<Bytes>)
    requires TargetSwept(l, live, AllMetaPrefix(l.sp) + [0xFF])
    ensures NoTargetMeta(l, live)
  {
    forall e | e in l.edges && e.targetType == l.dropped && e.edgeLabel != []
      ensures MetaKey(l.sp, e) !in live
    {
      assert TargetSweptEdge(l, live, AllMetaPrefix(l.sp) + [0xFF], e);
      EdgeScans(l.sp, e, l.dropped);
    }
  }

  /** Meta rows go last: by then nothing has to be found through them. */
  lemma MetaPassKeeps(l: Layout, before: set<Bytes>, live: set<Bytes>)
    requires Laid(l) && Partial(l, before) && live <= before && NoForward(l, before) && NoReverse(l, before)
    requires forall k :: k in before && k !in live ==> InScan(k, MetaPrefix(l.sp, l.dropped))
    ensures Partial(l, live)
  {
    forall k | k in before && k !in live
      ensures Doomed(l, k)
    {
      var r :| r in l.all && r.key == k;
      var it :| Holds(l, r, it);
      EdgeScansRead(l, r, it);
      assert DoomedBy(l.sp, it.edge, l.dropped, k);
    }
    forall e | e in l.edges && Labelled(l, e)
      ensures Findable(l, live, e)
    {
      assert Findable(l, before, e);
      EdgeScans(l.sp, e, l.dropped);
    }
  }

  lemma TargetReversePassKeeps(l: Layout, before: set<Bytes>, live: set<Bytes>)
    requires Laid(l) && Partial(l, before) && live <= before
    requires forall k :: k in before && k !in live ==> InScan(k, ReversePrefix(l.sp, l.dropped))
    ensures Partial(l, live)
  {
    forall k | k in before && k !in live
      ensures Doomed(l, k)
    {
      var r :| r in l.all && r.key == k;
      var it :| Holds(l, r, it);
      EdgeScansRead(l, r, it);
      assert DoomedBy(l.sp, it.edge, l.dropped, k);
    }
    forall e | e in l.edges && Labelled(l, e)
      ensures Findable(l, live, e)
    {
      assert Findable(l, before, e);
      KindsApart(l.sp, e, e, l.dropped);
    }
  }

  ghost predicate AllPassed(l: Layout, live: set<Bytes>) {
    && NoForward(l, live) && NoReverse(l, live) && NoTargetMeta(l, live)
    && forall k :: k in live ==> !DoomedFiled(l, k) && !InScan(k, MetaPrefix(l.sp, l.dropped)) && !InScan(k, ReversePrefix(l.sp, l.dropped))
  }

  lemma NoDoomedEdgeLeft(l: Layout, live: set<Bytes>, e: Edge)
    requires Linked(l, live) && AllPassed(l, live) && e in l.edges
    ensures forall k :: k in live ==> !DoomedBy(l.sp, e, l.dropped, k)
  {
    EdgeScans(l.sp, e, l.dropped);
    if Labelled(l, e) {
      assert Findable(l, live, e);
    }
  }

  lemma AllPassedFinishes(l: Layout, live: set<Bytes>)
    requires Partial(l, live) && AllPassed(l, live)
    ensures Finished(l, live)
  {
    forall k | k in live
      ensures !DoomedEdge(l, k)
    {
      forall e | e in l.edges
        ensures !DoomedBy(l.sp, e, l.dropped, k)
      {
        NoDoomedEdgeLeft(l, live, e);
      }
    }
  }

  /**
   * One attempt at the drop. From any partial state it leaves a partial state, whichever of its
   * reads and commits fail; if none does, exactly the doomed keys are gone.
   */
  method DropEntityType(db: Db<Option<Edge>>, sp: Space, t: Bytes, ghost l: Layout, ghost before: set<Bytes>)
    returns (ok: bool, ghost live: set<Bytes>)
    requires Laid(l) && Stored(l, db.rows, before) && Partial(l, before) && sp == l.sp && t == l.dropped
    modifies db
    ensures Stored(l, db.rows, live) && Partial(l, live)
    ensures ok ==> Finished(l, live)
  {
    ghost var was := before;
    ok, live := ClearPrefix(db, TypePrefix(sp, Schema, t), l, was);
    FiledPassKeeps(l, Schema, was, live);
    if !ok {
      return;
    }
    was := live;
    ok, live := ClearPrefix(db, TypePrefix(sp, Data, t), l, was);
    FiledPassKeeps(l, Data, was, live);
    if !ok {
      return;
    }
    was := live;
    ok, live := ClearPrefix(db, TypePrefix(sp, Index, t), l, was);
    FiledPassKeeps(l, Index, was, live);
    if !ok {
      return;
    }
    assert forall k :: k in live ==> !DoomedFiled(l, k);
    ok, live := DropEdges(db, sp, t, l, live);
  }

  /** The five edge passes. */
  method DropEdges(db: Db<Option<Edge>>, sp: Space, t: Bytes, ghost l: Layout, ghost before: set<Bytes>)
    returns (ok: bool, ghost live: set<Bytes>)
    requires Laid(l) && Stored(l, db.rows, before) && Partial(l, before) && sp == l.sp && t == l.dropped
    requires forall k :: k in before ==> !DoomedFiled(l, k)
    modifies db
    ensures Stored(l, db.rows, live) && Partial(l, live)
    ensures ok ==> Finished(l, live)
  {
    ghost var was := before;
    ok, live := ClearPrefix(db, ForwardPrefix(sp, t), l, was);
    ForwardPassKeeps(l, was, live);
    if !ok {
      return;
    }
    ForwardPassDone(l, live);
    was := live;
    ok, live := ClearReverseOfSource(db, sp, t, BATCH, l, was);
    ReversePassKeeps(l, was, live);
    if !ok {
      return;
    }
    ReversePassDone(l, live);
    was := live;
    ok, live := ClearForwardMetaOfTarget(db, sp, t, BATCH, l, was);
    if !ok {
      return;
    }
    TargetPassDone(l, live);
    was := live;
    ok, live := ClearPrefix(db, MetaPrefix(sp, t), l, was);
    MetaPassKeeps(l, was, live);
    if !ok {
      return;
    }
    was := live;
    ok, live := ClearPrefix(db, ReversePrefix(sp, t), l, was);
    TargetReversePassKeeps(l, was, live);
    if ok {
      AllPassedFinishes(l, live);
    }
  }
}
