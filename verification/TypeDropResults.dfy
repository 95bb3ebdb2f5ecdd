/** What a completed type drop leaves, whatever interrupted it on the way. */
module TypeDropResults {
  import opened Common
  import opened ByteOrder
  import opened Encoding
  import opened Store
  import opened EdgeKeys
  import opened TypeDrop

  ghost function Survives(l: Layout): EdgeRow -> bool {
    (r: EdgeRow) => !Doomed(l, r.key)
  }

  lemma StartIsPartial(l: Layout)
    requires Laid(l)
    ensures Stored(l, l.all, Store.Keys(l.all)) && Partial(l, Store.Keys(l.all))
  {
    RestrictAll(l.all);
    forall e | e in l.edges
      ensures MetaKey(l.sp, e) in Store.Keys(l.all)
    {
      assert EdgeStored(l, e);
    }
  }

  lemma FinishedRows(l: Layout, rows: seq<EdgeRow>, live: set<Bytes>)
    requires Stored(l, rows, live) && Finished(l, live)
    ensures rows == Filter(l.all, Survives(l))
  {
    FilterCong(l.all, KeyIn(live), Survives(l));
  }

  /**
   * Any number of attempts, each broken off anywhere: once one succeeds the rows are exactly
   * the surviving ones, so re-running after an interruption reaches the uninterrupted result.
   */
  method DropUntilDone(db: Db<Option<Edge>>, sp: Space, t: Bytes, attempts: nat, ghost l: Layout) returns (ok: bool)
    requires Laid(l) && db.rows == l.all && sp == l.sp && t == l.dropped
    modifies db
    ensures ok ==> db.rows == Filter(l.all, Survives(l))
    ensures exists live :: Stored(l, db.rows, live) && Partial(l, live)
  {
    ok := false;
    ghost var live := Store.Keys(l.all);
    StartIsPartial(l);
    var i := 0;
    while i < attempts && !ok
      invariant Stored(l, db.rows, live) && Partial(l, live)
      invariant ok ==> Finished(l, live)
    {
      ok, live := DropEntityType(db, sp, t, l, live);
      i := i + 1;
    }
    if ok {
      FinishedRows(l, db.rows, live);
    }
  }

  // ---- which keys of an edge are doomed ----

  lemma SameForward(l: Layout, e: Edge, f: Edge)
    requires Laid(l) && e in l.edges && f in l.edges && ForwardKey(l.sp, e) == ForwardKey(l.sp, f)
    ensures e == f
  {
    ForwardMetaAgree(l.sp, e, f);
    MetaKeyUnique(l, e, f);
  }

  /** Which of `f`'s doomed keys a forward key can be. */
  lemma ForwardAmong(l: Layout, e: Edge, f: Edge)
    requires Laid(l) && e in l.edges && f in l.edges
    ensures DoomedBy(l.sp, f, l.dropped, ForwardKey(l.sp, e)) <==> e == f && ForwardGoes(e, l.dropped)
    ensures DoomedBy(l.sp, f, l.dropped, MetaKey(l.sp, e)) <==> e == f && ForwardGoes(e, l.dropped)
  {
    ForwardMetaAgree(l.sp, e, f);
    ForwardMetaAgree(l.sp, f, e);
    MetaApart(l.sp, e, f);
    MetaApart(l.sp, f, e);
    ForwardApart(l.sp, e, f);
    if ForwardKey(l.sp, e) == ForwardKey(l.sp, f) {
      SameForward(l, e, f);
    }
  }

  lemma ForwardApart(sp: Space, a: Edge, b: Edge)
    ensures ForwardKey(sp, a) != ReverseKey(sp, b)
  {
    MarkerScan(sp, FORWARD, ForwardTail(sp, a), REVERSE, ReverseTail(sp, b));
  }

  lemma ReverseAmong(l: Layout, e: Edge, f: Edge)
    ensures DoomedBy(l.sp, f, l.dropped, ReverseKey(l.sp, e)) <==>
            ReverseKey(l.sp, e) == ReverseKey(l.sp, f) && ReverseGoes(e, l.dropped)
  {
    MetaApart(l.sp, f, e);
    ForwardApart(l.sp, f, e);
    if ReverseKey(l.sp, e) == ReverseKey(l.sp, f) {
      ReverseKeyInjective(l.sp, e, f);
    }
  }

  lemma EdgeFate(l: Layout, e: Edge)
    requires Laid(l) && e in l.edges
    ensures Doomed(l, ForwardKey(l.sp, e)) <==> ForwardGoes(e, l.dropped)
    ensures Doomed(l, MetaKey(l.sp, e)) <==> ForwardGoes(e, l.dropped)
    ensures Doomed(l, ReverseKey(l.sp, e)) <==> ReverseGoes(e, l.dropped)
  {
    EdgeKeysUnfiled(l, e);
    assert ForwardKey(l.sp, e) in EdgeKeysOf(l.sp, e) && MetaKey(l.sp, e) in EdgeKeysOf(l.sp, e);
    assert ReverseKey(l.sp, e) in EdgeKeysOf(l.sp, e);
    ForwardAmong(l, e, e);
    ReverseAmong(l, e, e);
    forall f | f in l.edges
      ensures DoomedBy(l.sp, f, l.dropped, ForwardKey(l.sp, e)) ==> ForwardGoes(e, l.dropped)
      ensures DoomedBy(l.sp, f, l.dropped, MetaKey(l.sp, e)) ==> ForwardGoes(e, l.dropped)
      ensures DoomedBy(l.sp, f, l.dropped, ReverseKey(l.sp, e)) ==> ReverseGoes(e, l.dropped)
    {
      ForwardAmong(l, e, f);
      ReverseAmong(l, e, f);
    }
  }

  // ---- rows filed by type, and the rest of the store ----

  lemma RowFate(l: Layout, r: EdgeRow, it: Item)
    requires Laid(l) && r in l.all && Holds(l, r, it) && (it.Filed? || it.Elsewhere?)
    ensures Doomed(l, r.key) <==> it.Filed? && it.entityType == l.dropped && SafeTail(it.rest)
  {
    forall e | e in l.edges
      ensures !DoomedBy(l.sp, e, l.dropped, r.key)
    {
      TailsSafe(l.sp, e);
      OnlyEdgesScanned(l, r, it, [FORWARD] + ForwardTail(l.sp, e));
      OnlyEdgesScanned(l, r, it, [META] + ForwardTail(l.sp, e));
      OnlyEdgesScanned(l, r, it, [REVERSE] + ReverseTail(l.sp, e));
    }
    FiledFate(l, r, it);
  }

  lemma FiledFate(l: Layout, r: EdgeRow, it: Item)
    requires Holds(l, r, it) && (it.Filed? || it.Elsewhere?)
    ensures DoomedFiled(l, r.key) <==> it.Filed? && it.entityType == l.dropped && SafeTail(it.rest)
  {
    StringStarts(l.dropped, []);
    match it
    case Filed(s, t, rest) =>
      TypeScan(l.sp, s, t, rest, l.dropped);
      StringStarts(t, rest);
      forall u: Section | u != s
        ensures !InScan(r.key, TypePrefix(l.sp, u, l.dropped))
      {
        SectionScan(l.sp, u, EncodeString(l.dropped), s, EncodeString(t) + rest);
      }
    case Elsewhere =>
      ElsewhereUnscanned(l.sp, r.key, Schema, EncodeString(l.dropped));
      ElsewhereUnscanned(l.sp, r.key, Data, EncodeString(l.dropped));
      ElsewhereUnscanned(l.sp, r.key, Index, EncodeString(l.dropped));
  }

  // ---- the property ----

  /** Forward, meta and reverse keys agree on which edges there are. */
  ghost predicate ThreeWay(l: Layout, live: set<Bytes>) {
    forall e :: e in l.edges ==> Agrees(l, live, e)
  }

  predicate Agrees(l: Layout, live: set<Bytes>, e: Edge) {
    && (ForwardKey(l.sp, e) in live <==> MetaKey(l.sp, e) in live)
    && (ReverseKey(l.sp, e) in live <==> MetaKey(l.sp, e) in live)
  }

  predicate Mentions(it: Item, t: Bytes) {
    match it
    case Filed(_, u, _) => u == t
    case Elsewhere => false
    case _ => Touches(it.edge, t)
  }

  ghost predicate Unmentioned(l: Layout, live: set<Bytes>) {
    forall r, it :: r in l.all && r.key in live && Holds(l, r, it) ==> !Mentions(it, l.dropped)
  }

  /** Every edge between the type and another one has a label. */
  ghost predicate EdgesClearable(l: Layout) {
    forall e :: e in l.edges && (e.sourceType == l.dropped) != (e.targetType == l.dropped) ==> e.edgeLabel != []
  }

  /** No row filed under the type continues with 0xFF, as a node row of site 255 does. */
  ghost predicate RowsClearable(l: Layout) {
    forall r, s, rest :: r in l.all && Holds(l, r, Filed(s, l.dropped, rest)) ==> SafeTail(rest)
  }

  lemma EdgeKeysKnown(l: Layout, live: set<Bytes>, e: Edge)
    requires Laid(l) && Finished(l, live) && e in l.edges
    ensures ForwardKey(l.sp, e) in live <==> !ForwardGoes(e, l.dropped)
    ensures MetaKey(l.sp, e) in live <==> !ForwardGoes(e, l.dropped)
    ensures ReverseKey(l.sp, e) in live <==> !ReverseGoes(e, l.dropped)
  {
    EdgeFate(l, e);
    assert EdgeStored(l, e);
  }

  /** The three kinds of key still agree exactly when every edge concerned has a label. */
  lemma AgreementIffLabelled(l: Layout, live: set<Bytes>)
    requires Laid(l) && Finished(l, live)
    ensures ThreeWay(l, live) <==> EdgesClearable(l)
  {
    forall e | e in l.edges
      ensures Agrees(l, live, e) <==> ((e.sourceType == l.dropped) != (e.targetType == l.dropped) ==> e.edgeLabel != [])
    {
      EdgeKeysKnown(l, live, e);
    }
  }

  lemma ItemFate(l: Layout, live: set<Bytes>, r: EdgeRow, it: Item)
    requires Laid(l) && Finished(l, live) && r in l.all && Holds(l, r, it)
    ensures r.key in live <==>
            match it
            case Filed(_, t, rest) => !(t == l.dropped && SafeTail(rest))
            case Elsewhere => true
            case Reverse(e) => !ReverseGoes(e, l.dropped)
            case _ => !ForwardGoes(it.edge, l.dropped)
  {
    assert r.key in Store.Keys(l.all);
    if it.Filed? || it.Elsewhere? {
      RowFate(l, r, it);
    } else {
      EdgeKeysKnown(l, live, it.edge);
    }
  }

  /** No surviving row mentions the type exactly when labels and row keys allow it. */
  lemma UnmentionedIff(l: Layout, live: set<Bytes>)
    requires Laid(l) && Finished(l, live)
    ensures Unmentioned(l, live) <==> EdgesClearable(l) && RowsClearable(l)
  {
    if EdgesClearable(l) && RowsClearable(l) {
      forall r, it | r in l.all && r.key in live && Holds(l, r, it)
        ensures !Mentions(it, l.dropped)
      {
        ItemFate(l, live, r, it);
      }
    }
    if Unmentioned(l, live) {
      forall r, s, rest | r in l.all && Holds(l, r, Filed(s, l.dropped, rest))
        ensures SafeTail(rest)
      {
        ItemFate(l, live, r, Filed(s, l.dropped, rest));
      }
      forall e | e in l.edges && (e.sourceType == l.dropped) != (e.targetType == l.dropped)
        ensures e.edgeLabel != []
      {
        HalfDropped(l, live, e);
      }
    }
  }

  /** An unlabelled edge into or out of the type leaves one of its keys behind. */
  lemma HalfDropped(l: Layout, live: set<Bytes>, e: Edge)
    requires Laid(l) && Finished(l, live) && e in l.edges && (e.sourceType == l.dropped) != (e.targetType == l.dropped)
    ensures e.edgeLabel == [] ==> !Unmentioned(l, live)
  {
    EdgeKeysKnown(l, live, e);
    assert EdgeStored(l, e);
    if e.edgeLabel == [] {
      if e.sourceType == l.dropped {
        var r :| r in l.all && r.key == ReverseKey(l.sp, e);
        assert Holds(l, r, Reverse(e)) && Mentions(Reverse(e), l.dropped);
      } else {
        var r := Row(MetaKey(l.sp, e), Some(e));
        assert Holds(l, r, Meta(e)) && Mentions(Meta(e), l.dropped);
      }
    }
  }

  /** Everything else survives: other types' rows, edges between other types, the rest of the store. */
  lemma OthersSurvive(l: Layout, live: set<Bytes>, r: EdgeRow, it: Item)
    requires Laid(l) && Finished(l, live) && r in l.all && Holds(l, r, it) && !Mentions(it, l.dropped)
    ensures r in Restrict(l.all, live)
  {
    ItemFate(l, live, r, it);
    FilterMember(l.all, KeyIn(live), r);
  }
}
