/** Which stored edges a traversal hop considers at a node (`get_edges_for_hop` in crates/pelago-query/src/traversal.rs). */
module HopEdges {
  import opened Common
  import opened NodeKeys
  import opened Traversal

  predicate LabelAllowed(hop: Hop, e: Edge) {
    hop.labels == [] || e.edgeLabel in hop.labels
  }

  /** Stored at the node in the hop's direction. */
  predicate StoredFor(g: Graph, r: NodeRef, hop: Hop, e: Edge) {
    match hop.direction
    case Outbound => e in Stored(g.outgoing, r)
    case Inbound => e in Stored(g.incoming, r)
    case Both => e in Stored(g.outgoing, r) || e in Stored(g.incoming, r)
  }

  /** What the store lists before the limit is applied. */
  function Unlimited(edges: seq<Edge>, only: Option<string>): seq<Edge> {
    if only.Some? then Filter(edges, (e: Edge) => e.edgeLabel == only.value) else edges
  }

  predicate WithinLimit(g: Graph, r: NodeRef, hop: Hop) {
    && (hop.direction != Inbound ==> |Unlimited(Stored(g.outgoing, r), LabelFilter(hop))| <= 1000)
    && (hop.direction != Outbound ==> |Unlimited(Stored(g.incoming, r), LabelFilter(hop))| <= 1000)
  }

  /** Edges of the node that share a merge key are one edge. */
  ghost predicate KeysTellApart(edges: seq<Edge>) {
    forall a, b :: a in edges && b in edges && EdgeKey(a) == EdgeKey(b) ==> a == b
  }

  lemma UnlimitedMember(edges: seq<Edge>, only: Option<string>, e: Edge)
    ensures e in Unlimited(edges, only) <==> e in edges && (only.Some? ==> e.edgeLabel == only.value)
  {
    if only.Some? {
      FilterMember(edges, (e: Edge) => e.edgeLabel == only.value, e);
    }
  }

  /** Removing duplicates by a key that tells elements apart removes no element. */
  lemma {:induction false} DedupMember(edges: seq<Edge>, e: Edge)
    requires KeysTellApart(edges)
    ensures e in DedupBy(edges, EdgeKey) <==> e in edges
    decreases |edges|
  {
    if edges != [] {
      var front, last := edges[..|edges| - 1], edges[|edges| - 1];
      assert edges == front + [last];
      DedupMember(front, e);
      if EdgeKey(last) in Map(front, EdgeKey) {
        var i :| 0 <= i < |front| && Map(front, EdgeKey)[i] == EdgeKey(last);
        assert front[i] in edges && front[i] == last;
      }
    }
  }

  /** The listings of one hop, merged when both directions are read. */
  function Merged(hop: Hop, outgoing: seq<Edge>, incoming: seq<Edge>): seq<Edge> {
    match hop.direction
    case Outbound => outgoing
    case Inbound => incoming
    case Both => DedupBy(outgoing + incoming, EdgeKey)
  }

  lemma MergedMember(hop: Hop, outgoing: seq<Edge>, incoming: seq<Edge>, e: Edge)
    requires hop.direction == Both ==> KeysTellApart(outgoing + incoming)
    ensures e in Merged(hop, outgoing, incoming) <==>
            (hop.direction != Inbound && e in outgoing) || (hop.direction != Outbound && e in incoming)
  {
    if hop.direction == Both {
      DedupMember(outgoing + incoming, e);
    }
  }

  function MergedFor(g: Graph, r: NodeRef, hop: Hop): seq<Edge> {
    var only := LabelFilter(hop);
    Merged(hop, Listing(Stored(g.outgoing, r), only), Listing(Stored(g.incoming, r), only))
  }

  lemma EdgesForHopIs(g: Graph, r: NodeRef, hop: Hop, e: Edge)
    ensures e in EdgesForHop(g, r, hop) <==>
            e in MergedFor(g, r, hop) && (|hop.labels| > 1 ==> e.edgeLabel in hop.labels)
  {
    if |hop.labels| > 1 {
      FilterMember(MergedFor(g, r, hop), (e: Edge) => e.edgeLabel in hop.labels, e);
    }
  }

  lemma LabelsMean(hop: Hop, e: Edge)
    ensures LabelAllowed(hop, e) <==>
            && (LabelFilter(hop).Some? ==> e.edgeLabel == LabelFilter(hop).value)
            && (|hop.labels| > 1 ==> e.edgeLabel in hop.labels)
  {
    if |hop.labels| == 1 {
      assert hop.labels == [hop.labels[0]];
    }
  }

  lemma KeysTellApartWithin(a: seq<Edge>, b: seq<Edge>)
    requires KeysTellApart(b) && forall e :: e in a ==> e in b
    ensures KeysTellApart(a)
  {
  }

  predicate ReadsOutgoing(hop: Hop) {
    hop.direction != Inbound
  }

  predicate ReadsIncoming(hop: Hop) {
    hop.direction != Outbound
  }

  /** The edge comes within the limit in a listing the hop reads. */
  predicate WithinSome(g: Graph, r: NodeRef, hop: Hop, e: Edge) {
    || (ReadsOutgoing(hop) && e in Listing(Stored(g.outgoing, r), LabelFilter(hop)))
    || (ReadsIncoming(hop) && e in Listing(Stored(g.incoming, r), LabelFilter(hop)))
  }

  /** The edges of a listing that lie past its limit. */
  function PastLimit(edges: seq<Edge>, only: Option<string>): seq<Edge> {
    var all := Unlimited(edges, only);
    if |all| <= FETCH_LIMIT then [] else all[FETCH_LIMIT..]
  }

  /** The edge comes past the limit in a listing the hop reads. */
  predicate PastSome(g: Graph, r: NodeRef, hop: Hop, e: Edge) {
    || (ReadsOutgoing(hop) && e in PastLimit(Stored(g.outgoing, r), LabelFilter(hop)))
    || (ReadsIncoming(hop) && e in PastLimit(Stored(g.incoming, r), LabelFilter(hop)))
  }

  ghost predicate KeysApartFor(g: Graph, r: NodeRef, hop: Hop) {
    hop.direction == Both ==> KeysTellApart(Stored(g.outgoing, r) + Stored(g.incoming, r))
  }

  lemma ListingMember(edges: seq<Edge>, only: Option<string>, e: Edge)
    ensures e in Listing(edges, only) || e in PastLimit(edges, only) <==>
            e in edges && (only.Some? ==> e.edgeLabel == only.value)
  {
    UnlimitedMember(edges, only, e);
    var all := Unlimited(edges, only);
    if |all| > FETCH_LIMIT {
      assert all == all[..FETCH_LIMIT] + all[FETCH_LIMIT..];
    }
  }

  lemma ListingWithin(g: Graph, r: NodeRef, hop: Hop)
    requires KeysApartFor(g, r, hop)
    ensures var only := LabelFilter(hop);
            hop.direction == Both ==>
              KeysTellApart(Listing(Stored(g.outgoing, r), only) + Listing(Stored(g.incoming, r), only))
  {
    var only := LabelFilter(hop);
    var outgoing, incoming := Listing(Stored(g.outgoing, r), only), Listing(Stored(g.incoming, r), only);
    forall x
      ensures x in outgoing ==> x in Stored(g.outgoing, r)
      ensures x in incoming ==> x in Stored(g.incoming, r)
    {
      ListingMember(Stored(g.outgoing, r), only, x);
      ListingMember(Stored(g.incoming, r), only, x);
    }
    if hop.direction == Both {
      KeysTellApartWithin(outgoing + incoming, Stored(g.outgoing, r) + Stored(g.incoming, r));
    }
  }

  /** What a hop considers, and which stored and allowed edges there are, by place in the listings. */
  lemma HopEdgeMember(g: Graph, r: NodeRef, hop: Hop, e: Edge)
    requires KeysApartFor(g, r, hop)
    ensures e in EdgesForHop(g, r, hop) <==> WithinSome(g, r, hop, e) && LabelAllowed(hop, e)
    ensures StoredFor(g, r, hop, e) && LabelAllowed(hop, e) <==>
            (WithinSome(g, r, hop, e) || PastSome(g, r, hop, e)) && LabelAllowed(hop, e)
  {
    var only := LabelFilter(hop);
    ListingWithin(g, r, hop);
    MergedMember(hop, Listing(Stored(g.outgoing, r), only), Listing(Stored(g.incoming, r), only), e);
    EdgesForHopIs(g, r, hop, e);
    LabelsMean(hop, e);
    ListingMember(Stored(g.outgoing, r), only, e);
    ListingMember(Stored(g.incoming, r), only, e);
  }

  /** The hop considers exactly the stored edges of its direction and labels. */
  ghost predicate SeesAll(g: Graph, r: NodeRef, hop: Hop) {
    forall e: Edge :: e in EdgesForHop(g, r, hop) <==> StoredFor(g, r, hop, e) && LabelAllowed(hop, e)
  }

  /** Every allowed edge past the limit of a listing comes within the limit of the other one read. */
  ghost predicate NothingCut(g: Graph, r: NodeRef, hop: Hop) {
    forall e: Edge :: PastSome(g, r, hop, e) && LabelAllowed(hop, e) ==> WithinSome(g, r, hop, e)
  }

  /** For every direction and any labels: a hop sees all it should exactly when the limit cuts nothing off. */
  lemma SeesAllIff(g: Graph, r: NodeRef, hop: Hop)
    requires KeysApartFor(g, r, hop)
    ensures SeesAll(g, r, hop) <==> NothingCut(g, r, hop)
  {
    forall e: Edge
      ensures (e in EdgesForHop(g, r, hop) <==> StoredFor(g, r, hop, e) && LabelAllowed(hop, e)) <==>
              (PastSome(g, r, hop, e) && LabelAllowed(hop, e) ==> WithinSome(g, r, hop, e))
    {
      HopEdgeMember(g, r, hop, e);
    }
  }

  /** In one direction, whose listing has no duplicates, that means no allowed edge past the limit. */
  lemma OneWaySeesAllIff(g: Graph, r: NodeRef, hop: Hop)
    requires hop.direction != Both && NoDup(Stored(if hop.direction == Outbound then g.outgoing else g.incoming, r))
    ensures SeesAll(g, r, hop) <==> forall e: Edge :: PastSome(g, r, hop, e) ==> !LabelAllowed(hop, e)
  {
    var stored := Stored(if hop.direction == Outbound then g.outgoing else g.incoming, r);
    SeesAllIff(g, r, hop);
    UnlimitedNoDup(stored, LabelFilter(hop));
    forall e: Edge | PastSome(g, r, hop, e)
      ensures !WithinSome(g, r, hop, e)
    {
      PastIsNotWithin(Unlimited(stored, LabelFilter(hop)), e);
    }
  }

  lemma PastIsNotWithin(all: seq<Edge>, e: Edge)
    requires NoDup(all) && |all| > FETCH_LIMIT && e in all[FETCH_LIMIT..]
    ensures e !in all[..FETCH_LIMIT]
  {
    var i :| 0 <= i < |all| - FETCH_LIMIT && all[FETCH_LIMIT..][i] == e;
    assert all[FETCH_LIMIT + i] == e;
  }

  /** For instance any outbound hop without labels at a node with more than 1000 outgoing edges. */
  lemma LimitMisses(g: Graph, r: NodeRef, hop: Hop)
    requires hop.direction == Outbound && hop.labels == []
    requires NoDup(Stored(g.outgoing, r)) && |Stored(g.outgoing, r)| > 1000
    ensures !SeesAll(g, r, hop)
  {
    OneWaySeesAllIff(g, r, hop);
    var e := Stored(g.outgoing, r)[FETCH_LIMIT];
    assert PastLimit(Stored(g.outgoing, r), LabelFilter(hop))[0] == e;
    assert PastSome(g, r, hop, e) && LabelAllowed(hop, e);
  }

  /** In particular a hop sees all it should where no listing is longer than the limit. */
  lemma HopEdgesExact(g: Graph, r: NodeRef, hop: Hop)
    requires WithinLimit(g, r, hop) && KeysApartFor(g, r, hop)
    ensures SeesAll(g, r, hop)
  {
    SeesAllIff(g, r, hop);
  }

  lemma UnlimitedNoDup(edges: seq<Edge>, only: Option<string>)
    requires NoDup(edges)
    ensures NoDup(Unlimited(edges, only))
  {
    if only.Some? {
      FilterNoDup(edges, (e: Edge) => e.edgeLabel == only.value);
    }
  }

  lemma {:induction false} FilterNoDup(edges: seq<Edge>, p: Edge -> bool)
    requires NoDup(edges)
    ensures NoDup(Filter(edges, p))
    decreases |edges|
  {
    if edges != [] {
      var rest := edges[1..];
      assert forall i :: 0 <= i < |rest| ==> rest[i] == edges[i + 1];
      FilterNoDup(rest, p);
      FilterMember(rest, p, edges[0]);
    }
  }
}
