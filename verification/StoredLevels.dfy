/** The levels of a traversal over the edges stored in the graph, rather than those a limited listing returns. */
module StoredLevels {
  import opened Common
  import opened NodeKeys
  import opened Traversal
  import opened HopEdges
  import opened TraversalLevels

  predicate EdgeAccepted(hop: Hop, e: Edge) {
    hop.edgeFilter.Some? ==> hop.edgeFilter.value.accepts(e)
  }

  predicate NodeAccepted(hop: Hop, n: Node) {
    hop.nodeFilter.None? || hop.nodeFilter.value.accepts(n)
  }

  lemma NodeAcceptedIs(hop: Hop, n: Node)
    ensures AcceptsNode(hop, n) <==> NodeAccepted(hop, n)
  {
  }

  predicate EdgeAllowed(hop: Hop, e: Edge) {
    LabelAllowed(hop, e) && EdgeAccepted(hop, e)
  }

  /** The nodes the stored edges of `r` lead to in the direction, read from the two stored lists. */
  function Neighbours(g: Graph, r: NodeRef, hop: Hop): set<NodeRef> {
    var forwards := set e | e in Stored(g.outgoing, r) && EdgeAllowed(hop, e) :: e.target;
    var backwards := set e | e in Stored(g.incoming, r) && EdgeAllowed(hop, e) :: e.source;
    match hop.direction
    case Outbound => forwards
    case Inbound => backwards
    case Both => forwards + backwards
  }

  /** Where hop `k` leads from node `r` by a stored edge of its direction and labels, filters applied. */
  function StoredTargets(q: Query, k: nat, r: NodeRef): set<NodeRef>
    requires k < |q.hops|
  {
    set t | t in Neighbours(q.graph, r, q.hops[k]) && t in q.graph.nodes && NodeAccepted(q.hops[k], q.graph.nodes[t])
  }

  /** Edges are listed at the ends they have: outgoing ones at their source, incoming ones at their target. */
  ghost predicate Filed(g: Graph, r: NodeRef) {
    && (forall e :: e in Stored(g.outgoing, r) ==> e.source == r)
    && (forall e :: e in Stored(g.incoming, r) ==> e.target == r)
  }

  function StoredReached(q: Query, k: nat, from: set<NodeRef>): set<NodeRef>
    requires k < |q.hops|
  {
    set r, t | r in from && t in StoredTargets(q, k, r) :: t
  }

  function StoredLevelsAt(q: Query, start: NodeRef, k: nat): Levels
    requires k <= |q.hops|
  {
    if k == 0 then Levels({start}, {start})
    else
      var before := StoredLevelsAt(q, start, k - 1);
      var next := StoredReached(q, k - 1, before.level) - before.seen;
      Levels(next, before.seen + next)
  }

  /** At no node does the listing limit cut off an edge a hop should consider. */
  ghost predicate NothingCutAnywhere(q: Query) {
    forall r, k :: r in q.graph.nodes && 0 <= k < |q.hops| ==>
      KeysApartFor(q.graph, r, q.hops[k]) && NothingCut(q.graph, r, q.hops[k])
  }

  /** Where both directions are read, edges are listed at the ends they have. */
  ghost predicate FiledAnywhere(q: Query) {
    forall r, k :: r in q.graph.nodes && 0 <= k < |q.hops| && q.hops[k].direction == Both ==> Filed(q.graph, r)
  }

  lemma AcceptedMember(g: Graph, r: NodeRef, hop: Hop, e: Edge)
    ensures e in AcceptedEdges(g, r, hop) <==> e in EdgesForHop(g, r, hop) && EdgeAccepted(hop, e)
  {
    if hop.edgeFilter.Some? {
      FilterMember(EdgesForHop(g, r, hop), hop.edgeFilter.value.accepts, e);
    }
  }

  /** A node is a neighbour exactly if a stored edge moves there. */
  lemma NeighbourIff(g: Graph, r: NodeRef, hop: Hop, t: NodeRef)
    requires hop.direction == Both ==> Filed(g, r)
    ensures t in Neighbours(g, r, hop) <==>
            exists e :: StoredFor(g, r, hop, e) && EdgeAllowed(hop, e) && Moves(hop.direction, r, e, t)
  {
    if t in Neighbours(g, r, hop) {
      if e :| e in Stored(g.outgoing, r) && EdgeAllowed(hop, e) && e.target == t && hop.direction != Inbound {
        assert StoredFor(g, r, hop, e) && Moves(hop.direction, r, e, t);
      } else {
        var e :| e in Stored(g.incoming, r) && EdgeAllowed(hop, e) && e.source == t;
        assert StoredFor(g, r, hop, e) && Moves(hop.direction, r, e, t);
      }
    }
  }

  lemma TargetsAgree(q: Query, k: nat, r: NodeRef)
    requires k < |q.hops| && SeesAll(q.graph, r, q.hops[k])
    requires q.hops[k].direction == Both ==> Filed(q.graph, r)
    ensures HopTargets(q, k, r) == StoredTargets(q, k, r)
  {
    var hop := q.hops[k];
    forall e: Edge
      ensures e in AcceptedEdges(q.graph, r, hop) <==> StoredFor(q.graph, r, hop, e) && EdgeAllowed(hop, e)
    {
      AcceptedMember(q.graph, r, hop, e);
    }
    forall t
      ensures t in HopTargets(q, k, r) <==> t in StoredTargets(q, k, r)
    {
      NeighbourIff(q.graph, r, hop, t);
      if t in q.graph.nodes {
        NodeAcceptedIs(hop, q.graph.nodes[t]);
      }
    }
  }

  lemma TargetsAgreeAt(q: Query, k: nat, r: NodeRef)
    requires NothingCutAnywhere(q) && FiledAnywhere(q) && r in q.graph.nodes && k < |q.hops|
    ensures HopTargets(q, k, r) == StoredTargets(q, k, r)
  {
    SeesAllIff(q.graph, r, q.hops[k]);
    TargetsAgree(q, k, r);
  }

  lemma ReachedAgree(q: Query, k: nat, from: set<NodeRef>)
    requires k < |q.hops| && forall r :: r in from ==> HopTargets(q, k, r) == StoredTargets(q, k, r)
    ensures Reached(q, k, from) == StoredReached(q, k, from)
  {
  }

  lemma ReachedStored(q: Query, k: nat, from: set<NodeRef>)
    requires NothingCutAnywhere(q) && FiledAnywhere(q) && k < |q.hops| && from <= q.graph.nodes.Keys
    ensures Reached(q, k, from) == StoredReached(q, k, from) && Reached(q, k, from) <= q.graph.nodes.Keys
  {
    forall r | r in from
      ensures HopTargets(q, k, r) == StoredTargets(q, k, r)
    {
      TargetsAgreeAt(q, k, r);
    }
    ReachedAgree(q, k, from);
  }

  lemma LevelAgrees(q: Query, start: NodeRef, k: nat)
    requires k < |q.hops| && LevelsAt(q, start, k) == StoredLevelsAt(q, start, k)
    requires var level := LevelsAt(q, start, k).level;
             Reached(q, k, level) == StoredReached(q, k, level) && Reached(q, k, level) <= q.graph.nodes.Keys
    ensures LevelsAt(q, start, k + 1) == StoredLevelsAt(q, start, k + 1)
    ensures LevelsAt(q, start, k + 1).level <= q.graph.nodes.Keys
  {
  }

  /** Where the limit cuts nothing off, the levels are those over the stored edges. */
  lemma {:induction false} LevelsAgree(q: Query, start: NodeRef, k: nat)
    requires NothingCutAnywhere(q) && FiledAnywhere(q) && start in q.graph.nodes && k <= |q.hops|
    ensures LevelsAt(q, start, k) == StoredLevelsAt(q, start, k)
    ensures LevelsAt(q, start, k).level <= q.graph.nodes.Keys
    decreases k
  {
    if k > 0 {
      LevelsAgree(q, start, k - 1);
      ReachedStored(q, k - 1, LevelsAt(q, start, k - 1).level);
      LevelAgrees(q, start, k - 1);
    }
  }

  /** So an untruncated run ends at exactly the nodes of that level of the stored graph, each once. */
  lemma UntruncatedRunStored(q: Query, start: Node)
    requires WellFormed(q.graph) && Drain(q, Fresh(start)).Ok? && NothingCutAnywhere(q) && FiledAnywhere(q)
    requires RefOf(start) in q.graph.nodes
    requires forall r :: r in q.graph.nodes ==> ColonFree(r.id)
    ensures NoDup(Ends(Drain(q, Fresh(start)).value))
    ensures SetOf(Ends(Drain(q, Fresh(start)).value)) == StoredLevelsAt(q, RefOf(start), Depth(q)).level
  {
    UntruncatedRun(q, start);
    LevelsAgree(q, RefOf(start), Depth(q));
  }
}
