/**
 * Listing the edges of a node page by page with offset cursors
 * (crates/pelago-api/src/edge_service.rs).
 */
module EdgePaging {
  import opened Common
  import opened ByteOrder
  import opened Encoding
  import opened NodeKeys
  import opened Merging

  datatype Direction = Outgoing | Incoming | Both

  datatype EdgeResult = EdgeResult(edge: Edge, nextCursor: Bytes)

  const USIZE_MAX: nat := 0xFFFF_FFFF_FFFF_FFFF

  const DEFAULT_PAGE: nat := 1000

  function KeyOf(): Edge -> string {
    (e: Edge) => EdgeKey(e)
  }

  // ---- offset cursors ----

  function EncodeOffset(offset: nat): Bytes
    requires offset <= USIZE_MAX
  {
    BigEndian(offset, 8)
  }

  function DecodeOffset(cursor: Bytes): Option<nat> {
    if cursor == [] then Some(0)
    else if |cursor| != 8 then None
    else Some(Value(cursor))
  }

  lemma OffsetRoundTrip(offset: nat)
    requires offset <= USIZE_MAX
    ensures DecodeOffset(EncodeOffset(offset)) == Some(offset)
  {
    assert Bound(8) == 0x1_0000_0000_0000_0000 by {
      assert Bound(4) == 0x1_0000_0000;
    }
    BigEndianValue(offset, 8);
  }

  // ---- one page ----

  /** `start..end` of the whole list, the last edge carrying the cursor when more follow. */
  function Results(full: seq<Edge>, offset: nat, pageSize: nat): seq<EdgeResult>
    requires |full| <= USIZE_MAX
  {
    var start := Min(offset, |full|);
    var end := Min(start + pageSize, |full|);
    var cursor := if |full| > end then EncodeOffset(end) else [];
    seq(end - start, i requires 0 <= i < end - start =>
      EdgeResult(full[start + i], if i == end - start - 1 then cursor else []))
  }

  function Matches(dir: Direction, node: NodeRef): Edge -> bool {
    (e: Edge) => match dir
                       case Outgoing => e.source == node
                       case Incoming => e.target == node
                       case Both => true
  }

  /** The listing without any limit. */
  function Full(dir: Direction, outgoing: seq<Edge>, incoming: seq<Edge>): seq<Edge> {
    match dir
    case Outgoing => outgoing
    case Incoming => incoming
    case Both => DedupBy(outgoing + incoming, KeyOf())
  }

  /** What the edge store lists for `node`. */
  ghost predicate Listing(node: NodeRef, outgoing: seq<Edge>, incoming: seq<Edge>) {
    && KeyUnique(outgoing, KeyOf()) && KeyUnique(incoming, KeyOf()) && |outgoing| + |incoming| <= USIZE_MAX
    && (forall e :: e in outgoing ==> e.source == node)
    && (forall e :: e in incoming ==> e.target == node)
  }

  lemma FetchedEnough(dir: Direction, a: seq<Edge>, b: seq<Edge>, n: nat)
    requires KeyUnique(a, KeyOf()) && KeyUnique(b, KeyOf())
    ensures SameTo(Full(dir, if dir == Incoming then [] else Take(a, n), if dir == Outgoing then [] else Take(b, n)), Full(dir, a, b), n)
  {
    if dir == Both {
      MergePrefix(a, b, KeyOf(), n);
    }
  }

  /** Agreement one past the page fixes the page and whether more follow. */
  lemma SamePage(part: seq<Edge>, full: seq<Edge>, offset: nat, pageSize: nat, n: nat)
    requires |part| <= USIZE_MAX && |full| <= USIZE_MAX && SameTo(part, full, n)
    requires n == Min(offset + pageSize + 1, USIZE_MAX)
    ensures Results(part, offset, pageSize) == Results(full, offset, pageSize)
  {
    if |full| > n {
      assert |part| >= n && part[..n] == full[..n];
      forall i | 0 <= i < n
        ensures part[i] == full[i]
      {
        assert part[..n][i] == full[..n][i];
      }
    }
  }

  /** Read each direction up to the fetch limit, merge, and keep the edges of this node. */
  method FetchEdges(node: NodeRef, outgoing: seq<Edge>, incoming: seq<Edge>, dir: Direction, fetch: nat)
    returns (edges: seq<Edge>)
    requires Listing(node, outgoing, incoming)
    ensures SameTo(edges, Full(dir, outgoing, incoming), fetch) && |edges| <= |outgoing| + |incoming|
  {
    var out, inc := [], [];
    if dir != Incoming {
      out := Take(outgoing, fetch);
    }
    if dir != Outgoing {
      inc := Take(incoming, fetch);
    }
    if dir == Both {
      edges := Dedup(out + inc, KeyOf());
    } else if dir == Outgoing {
      edges := out;
    } else {
      edges := inc;
    }
    FetchedEnough(dir, outgoing, incoming, fetch);
    if dir != Both {
      FilterAll(edges, Matches(dir, node));
      edges := Filter(edges, Matches(dir, node));
    }
  }

  method CutPage(edges: seq<Edge>, offset: nat, pageSize: nat) returns (page: seq<EdgeResult>)
    requires |edges| <= USIZE_MAX
    ensures page == Results(edges, offset, pageSize)
  {
    var total := |edges|;
    var start := Min(offset, total);
    var end := Min(start + pageSize, total);
    var next := if total > end then EncodeOffset(end) else [];
    page := [];
    var i := start;
    while i < end
      invariant start <= i <= end
      invariant page == Results(edges, offset, pageSize)[..i - start]
    {
      page := page + [EdgeResult(edges[i], if i == end - 1 then next else [])];
      i := i + 1;
    }
  }

  /** One page of the limited reads is the page of the whole listing. */
  method ListEdges(node: NodeRef, outgoing: seq<Edge>, incoming: seq<Edge>, dir: Direction,
                   cursor: Bytes, limit: nat)
    returns (r: Option<seq<EdgeResult>>)
    requires Listing(node, outgoing, incoming)
    ensures |Full(dir, outgoing, incoming)| <= USIZE_MAX
    ensures var offset := DecodeOffset(cursor);
            r == if offset.None? then None
                 else Some(Results(Full(dir, outgoing, incoming), offset.value, if limit > 0 then limit else 1000))
  {
    var pageSize := if limit > 0 then limit else DEFAULT_PAGE;
    var offset := DecodeOffset(cursor);
    if offset.None? {
      return None;
    }
    var fetch := Min(offset.value + pageSize + 1, USIZE_MAX);
    var edges := FetchEdges(node, outgoing, incoming, dir, fetch);
    var page := CutPage(edges, offset.value, pageSize);
    SamePage(edges, Full(dir, outgoing, incoming), offset.value, pageSize, fetch);
    r := Some(page);
  }

  // ---- following the cursors ----

  /** Where the client goes after a page: the cursor of its last edge, if any. */
  function NextCursor(page: seq<EdgeResult>): Bytes {
    if page == [] then [] else page[|page| - 1].nextCursor
  }

  function EdgesOf(page: seq<EdgeResult>): seq<Edge> {
    Map(page, (r: EdgeResult) => r.edge)
  }

  /** The edges at an offset and the offset the returned cursor leads to. */
  type Pager = nat -> (seq<Edge>, Option<nat>)

  function PagerOf(full: seq<Edge>, pageSize: nat): Pager
    requires |full| <= USIZE_MAX
  {
    (offset: nat) =>
      var page := Results(full, offset, pageSize);
      (EdgesOf(page), if NextCursor(page) == [] then None else DecodeOffset(NextCursor(page)))
  }

  ghost predicate Cuts(pager: Pager, full: seq<Edge>, pageSize: nat) {
    forall offset: nat :: offset <= |full| ==>
      pager(offset) == if offset + pageSize < |full| then (full[offset..offset + pageSize], Some(offset + pageSize))
                       else (full[offset..], None)
  }

  /** The edges of a page, and the cursor it ends with. */
  lemma ResultsAre(full: seq<Edge>, offset: nat, pageSize: nat)
    requires |full| <= USIZE_MAX && pageSize > 0 && offset <= |full|
    ensures var page, end := Results(full, offset, pageSize), Min(offset + pageSize, |full|);
            && EdgesOf(page) == full[offset..end]
            && NextCursor(page) == if |full| > end then EncodeOffset(end) else []
  {
    var page, end := Results(full, offset, pageSize), Min(offset + pageSize, |full|);
    assert |page| == end - offset;
    forall i | 0 <= i < |page|
      ensures EdgesOf(page)[i] == full[offset..end][i]
    {
    }
  }

  lemma OffsetIsSomething(offset: nat)
    requires offset <= USIZE_MAX
    ensures EncodeOffset(offset) != []
  {
    OffsetRoundTrip(offset);
    assert |BigEndian(offset, 8)| == 8;
  }

  /** The cursors handed out lead from each page to the one right behind it. */
  lemma PagerCuts(full: seq<Edge>, pageSize: nat)
    requires |full| <= USIZE_MAX && pageSize > 0
    ensures Cuts(PagerOf(full, pageSize), full, pageSize)
  {
    forall offset: nat | offset <= |full|
      ensures PagerOf(full, pageSize)(offset) ==
              if offset + pageSize < |full| then (full[offset..offset + pageSize], Some(offset + pageSize))
              else (full[offset..], None)
    {
      ResultsAre(full, offset, pageSize);
      if offset + pageSize < |full| {
        OffsetRoundTrip(offset + pageSize);
        OffsetIsSomething(offset + pageSize);
      } else {
        assert full[offset..|full|] == full[offset..];
      }
    }
  }

  /** Every edge a client collects that follows each cursor it gets. */
  ghost function Follow(pager: Pager, full: seq<Edge>, pageSize: nat, offset: nat): seq<Edge>
    requires Cuts(pager, full, pageSize) && offset <= |full| && pageSize > 0
    decreases |full| - offset
  {
    var (edges, next) := pager(offset);
    if next.None? then edges else edges + Follow(pager, full, pageSize, next.value)
  }

  /** The pages are the whole listing, cut up in order. */
  lemma {:induction false} FollowIsAll(pager: Pager, full: seq<Edge>, pageSize: nat, offset: nat)
    requires Cuts(pager, full, pageSize) && offset <= |full| && pageSize > 0
    ensures Follow(pager, full, pageSize, offset) == full[offset..]
    decreases |full| - offset
  {
    if offset + pageSize < |full| {
      FollowIsAll(pager, full, pageSize, offset + pageSize);
      assert full[offset..] == full[offset..offset + pageSize] + full[offset + pageSize..];
    }
  }

  /** One edge for each key of either direction, and nothing else. */
  ghost predicate EachOnce(seen: seq<Edge>, outgoing: seq<Edge>, incoming: seq<Edge>) {
    && KeyUnique(seen, KeyOf())
    && SetOf(Map(seen, KeyOf())) == SetOf(Map(outgoing, KeyOf())) + SetOf(Map(incoming, KeyOf()))
    && (forall e :: e in seen ==> e in outgoing || e in incoming)
  }

  /** Followed from no cursor to the end, a listing returns each edge of either direction exactly once. */
  lemma EachEdgeOnce(outgoing: seq<Edge>, incoming: seq<Edge>, full: seq<Edge>, pager: Pager,
                     pageSize: nat)
    requires KeyUnique(outgoing, KeyOf()) && KeyUnique(incoming, KeyOf()) && full == Full(Both, outgoing, incoming)
    requires pageSize > 0 && Cuts(pager, full, pageSize)
    ensures EachOnce(Follow(pager, full, pageSize, 0), outgoing, incoming)
  {
    FollowIsAll(pager, full, pageSize, 0);
    assert full[0..] == full;
    MergedKeys(outgoing, incoming, KeyOf());
  }

  /** So does following the cursors the service hands out. */
  lemma ServedOnce(outgoing: seq<Edge>, incoming: seq<Edge>, pageSize: nat)
    requires KeyUnique(outgoing, KeyOf()) && KeyUnique(incoming, KeyOf()) && pageSize > 0
    requires |Full(Both, outgoing, incoming)| <= USIZE_MAX
    ensures var full := Full(Both, outgoing, incoming);
            && Cuts(PagerOf(full, pageSize), full, pageSize)
            && EachOnce(Follow(PagerOf(full, pageSize), full, pageSize, 0), outgoing, incoming)
  {
    var full := Full(Both, outgoing, incoming);
    PagerCuts(full, pageSize);
    EachEdgeOnce(outgoing, incoming, full, PagerOf(full, pageSize), pageSize);
  }

  /** In one direction the listing is exactly the edges the node has in it, whatever the page size. */
  lemma OneWayListing(node: NodeRef, outgoing: seq<Edge>, incoming: seq<Edge>, dir: Direction, pageSize: nat)
    requires Listing(node, outgoing, incoming) && dir != Both && pageSize > 0
    ensures var full := Full(dir, outgoing, incoming);
            && |full| <= USIZE_MAX && Cuts(PagerOf(full, pageSize), full, pageSize)
            && var seen := Follow(PagerOf(full, pageSize), full, pageSize, 0);
               && seen == (if dir == Outgoing then outgoing else incoming)
               && (forall e :: e in seen ==> if dir == Outgoing then e.source == node else e.target == node)
  {
    var full := Full(dir, outgoing, incoming);
    PagerCuts(full, pageSize);
    FollowIsAll(PagerOf(full, pageSize), full, pageSize, 0);
    assert full[0..] == full;
  }
}
