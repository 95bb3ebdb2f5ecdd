/**
 * The paths of every page, whether or not the run is cut short or ends in an error: each starts at
 * the start node and follows, hop by hop, stored edges that join the nodes it names.
 */
module TraversalPaths {
  import opened Common
  import opened NodeKeys
  import opened Traversal
  import opened TraversalEngine
  import opened TraversalLevels
  import opened HopEdges
  import opened StoredLevels

  // ---- every queued and returned path is trodden ----

  /** Hop by hop, a path from `start`. */
  ghost predicate Trodden(q: Query, start: Node, p: Path) {
    && p.start == start && |p.hops| <= |q.hops|
    && forall i :: 0 <= i < |p.hops| ==> ValidHop(q, p, i)
  }

  ghost predicate TroddenEntry(q: Query, start: Node, e: Entry) {
    Trodden(q, start, e.path) && e.hopIdx == |e.path.hops|
  }

  ghost predicate TroddenQueue(q: Query, start: Node, queue: seq<Entry>) {
    forall i :: 0 <= i < |queue| ==> TroddenEntry(q, start, queue[i])
  }

  ghost predicate TroddenPaths(q: Query, start: Node, paths: seq<Path>) {
    forall i :: 0 <= i < |paths| ==> Trodden(q, start, paths[i])
  }

  lemma ExtendTrodden(q: Query, start: Node, path: Path, e: Edge, t: NodeRef)
    requires WellFormed(q.graph) && Trodden(q, start, path) && |path.hops| < |q.hops|
    requires e in AcceptedEdges(q.graph, EndRef(path), q.hops[|path.hops|])
    requires t == FarEnd(q.hops[|path.hops|], EndRef(path), e)
    requires t in q.graph.nodes && AcceptsNode(q.hops[|path.hops|], q.graph.nodes[t])
    ensures Trodden(q, start, Extend(path, e, q.graph.nodes[t]))
  {
    var k := |path.hops|;
    var p := Extend(path, e, q.graph.nodes[t]);
    FarEndMoves(q.hops[k], EndRef(path), e, t);
    assert forall i :: 0 <= i <= k ==> RefAt(p, i) == RefAt(path, i);
    assert RefAt(p, k) == EndRef(path) && RefAt(p, k + 1) == t;
    forall i | 0 <= i < k + 1
      ensures ValidHop(q, p, i)
    {
      if i < k {
        assert ValidHop(q, path, i);
      }
    }
  }

  ghost predicate AllAccepted(q: Query, path: Path, edges: seq<Edge>)
    requires |path.hops| < |q.hops|
  {
    forall e :: e in edges ==> e in AcceptedEdges(q.graph, EndRef(path), q.hops[|path.hops|])
  }

  /** Trodden paths of `k` hops. */
  ghost predicate TroddenAt(q: Query, start: Node, k: nat, paths: seq<Path>) {
    forall i :: 0 <= i < |paths| ==> Trodden(q, start, paths[i]) && |paths[i].hops| == k
  }

  lemma TroddenCons(q: Query, start: Node, k: nat, p: Path, rest: seq<Path>)
    requires Trodden(q, start, p) && |p.hops| == k && TroddenAt(q, start, k, rest)
    ensures TroddenAt(q, start, k, [p] + rest)
  {
  }

  lemma TroddenEntries(q: Query, start: Node, k: nat, paths: seq<Path>)
    requires TroddenAt(q, start, k, paths)
    ensures TroddenQueue(q, start, NewEntries(paths, k))
  {
    forall i | 0 <= i < |paths|
      ensures TroddenEntry(q, start, NewEntries(paths, k)[i])
    {
      assert NewEntries(paths, k)[i] == Entry(paths[i], k);
    }
  }

  /** Admission extends a trodden path by one accepted edge each time. */
  lemma {:induction false} AdmitTrodden(q: Query, start: Node, path: Path, pending: seq<Edge>, visited: set<string>)
    requires WellFormed(q.graph) && Trodden(q, start, path) && |path.hops| < |q.hops| && AllAccepted(q, path, pending)
    ensures TroddenAt(q, start, |path.hops| + 1, Admit(q.graph, q.hops[|path.hops|], path, pending, visited).paths)
    decreases |pending|
  {
    if pending != [] {
      var hop := q.hops[|path.hops|];
      var t := FarEnd(hop, EndRef(path), pending[0]);
      var node := GetNode(q.graph, t);
      if node.None? || !AcceptsNode(hop, node.value) || VisitKey(t) in visited {
        AdmitTrodden(q, start, path, pending[1..], visited);
      } else {
        AdmitTrodden(q, start, path, pending[1..], visited + {VisitKey(t)});
        ExtendTrodden(q, start, path, pending[0], t);
        TroddenCons(q, start, |path.hops| + 1, Extend(path, pending[0], node.value),
                    Admit(q.graph, hop, path, pending[1..], visited + {VisitKey(t)}).paths);
      }
    }
  }

  lemma SuccessorsTrodden(q: Query, start: Node, e: Entry, visited: set<string>)
    requires WellFormed(q.graph) && TroddenEntry(q, start, e) && e.hopIdx < |q.hops|
    ensures TroddenQueue(q, start, NewEntries(Successors(q, e, visited).paths, e.hopIdx + 1))
  {
    var hop, here := q.hops[e.hopIdx], EndRef(e.path);
    var edges := AcceptedEdges(q.graph, here, hop);
    var keep := (edge: Edge) => VisitKey(FarEnd(hop, here, edge)) !in visited;
    forall edge | edge in Pending(hop, here, edges, visited)
      ensures edge in edges
    {
      FilterMember(edges, keep, edge);
    }
    AdmitTrodden(q, start, e.path, Pending(hop, here, edges, visited), visited);
    TroddenEntries(q, start, e.hopIdx + 1, Successors(q, e, visited).paths);
  }

  lemma NextTrodden(q: Query, start: Node, s: State)
    requires WellFormed(q.graph) && TroddenQueue(q, start, s.queue) && s.queue != []
    ensures TroddenQueue(q, start, Next(q, s).queue)
  {
    var e := s.queue[0];
    assert TroddenEntry(q, start, e);
    if !IsResult(q, e) {
      SuccessorsTrodden(q, start, e, s.visited);
    }
  }

  /** A page from trodden entries returns and leaves over trodden paths only. */
  lemma {:induction false} PageTrodden(q: Query, start: Node, s: State, max: nat, results: seq<Path>)
    requires WellFormed(q.graph) && TroddenQueue(q, start, s.queue) && TroddenPaths(q, start, results)
    ensures var page := RunPage(q, s, max, results);
            page.Ok? ==> TroddenPaths(q, start, page.value.0) && TroddenQueue(q, start, page.value.1.queue)
    decreases Measure(q, s)
  {
    if s.queue != [] && |results| < max {
      NextTrodden(q, start, s);
      assert TroddenEntry(q, start, s.queue[0]);
      if IsResult(q, s.queue[0]) {
        PageTrodden(q, start, Next(q, s), max, results + [s.queue[0].path]);
      } else if !Faults(q, s.queue[0], s.visited) {
        PageTrodden(q, start, Next(q, s), max, results);
      }
    }
  }

  ghost predicate TroddenToken(q: Query, start: Node, token: Option<ContinuationState>) {
    token.Some? ==> TroddenQueue(q, start, token.value.frontier)
  }

  lemma CallTrodden(q: Query, start: NodeRef, token: Option<ContinuationState>, cap: nat,
                    r: Result<TraversalResults, Error>)
    requires WellFormed(q.graph) && Called(q, start, token, cap, r) && r.Ok?
    requires start in q.graph.nodes ==> TroddenToken(q, q.graph.nodes[start], token)
    ensures start in q.graph.nodes
    ensures TroddenPaths(q, q.graph.nodes[start], r.value.paths) && TroddenToken(q, q.graph.nodes[start], r.value.token)
  {
    var node := q.graph.nodes[start];
    PageTrodden(q, node, InitialState(node, token), cap, []);
  }

  lemma {:induction false} ChainTrodden(q: Query, start: NodeRef, caps: seq<nat>,
                                        rs: seq<Result<TraversalResults, Error>>, i: nat)
    requires WellFormed(q.graph) && Chained(q, start, caps, rs) && i <= |rs| && start in q.graph.nodes
    ensures TroddenToken(q, q.graph.nodes[start], TokenFor(rs, i))
    ensures i < |rs| && rs[i].Ok? ==> TroddenPaths(q, q.graph.nodes[start], rs[i].value.paths)
    decreases i
  {
    if i > 0 {
      ChainTrodden(q, start, caps, rs, i - 1);
      assert Called(q, start, TokenFor(rs, i - 1), caps[i - 1], rs[i - 1]);
      if rs[i - 1].Ok? {
        CallTrodden(q, start, TokenFor(rs, i - 1), caps[i - 1], rs[i - 1]);
      }
    }
    if i < |rs| && rs[i].Ok? {
      assert Called(q, start, TokenFor(rs, i), caps[i], rs[i]);
      CallTrodden(q, start, TokenFor(rs, i), caps[i], rs[i]);
    }
  }

  // ---- edges join the nodes of a path ----

  /** The edge joins the two nodes, in the hop's direction. */
  predicate Joins(direction: Direction, e: Edge, a: NodeRef, b: NodeRef) {
    match direction
    case Outbound => e.source == a && e.target == b
    case Inbound => e.target == a && e.source == b
    case Both => (e.source == a && e.target == b) || (e.target == a && e.source == b)
  }

  /** A stored edge of the hop's direction and labels, accepted by its filter. */
  predicate Usable(g: Graph, r: NodeRef, hop: Hop, e: Edge) {
    StoredFor(g, r, hop, e) && EdgeAllowed(hop, e)
  }

  /** Whatever the limit: a hop considers stored edges of its direction and labels only. */
  lemma ConsideredIsStored(g: Graph, r: NodeRef, hop: Hop, e: Edge)
    requires e in EdgesForHop(g, r, hop)
    ensures StoredFor(g, r, hop, e) && LabelAllowed(hop, e)
  {
    var only := LabelFilter(hop);
    var outgoing, incoming := Listing(Stored(g.outgoing, r), only), Listing(Stored(g.incoming, r), only);
    EdgesForHopIs(g, r, hop, e);
    if hop.direction == Both {
      DedupWithin(outgoing + incoming, e);
    }
    ListingMember(Stored(g.outgoing, r), only, e);
    ListingMember(Stored(g.incoming, r), only, e);
    LabelsMean(hop, e);
  }

  lemma {:induction false} DedupWithin(edges: seq<Edge>, e: Edge)
    requires e in DedupBy(edges, EdgeKey)
    ensures e in edges
    decreases |edges|
  {
    if edges != [] {
      var front, last := edges[..|edges| - 1], edges[|edges| - 1];
      assert edges == front + [last];
      if e != last {
        DedupWithin(front, e);
      }
    }
  }

  lemma HopJoins(q: Query, p: Path, i: nat)
    requires i < |p.hops| <= |q.hops| && ValidHop(q, p, i) && Filed(q.graph, RefAt(p, i))
    ensures Usable(q.graph, RefAt(p, i), q.hops[i], p.hops[i].edge)
    ensures Joins(q.hops[i].direction, p.hops[i].edge, RefAt(p, i), RefAt(p, i + 1))
  {
    AcceptedMember(q.graph, RefAt(p, i), q.hops[i], p.hops[i].edge);
    ConsideredIsStored(q.graph, RefAt(p, i), q.hops[i], p.hops[i].edge);
  }

  /** Every hop of the path joins its nodes by a usable stored edge, and every node but the first is stored and accepted. */
  ghost predicate Walk(q: Query, start: Node, p: Path) {
    && p.start == start && |p.hops| <= |q.hops|
    && forall i :: 0 <= i < |p.hops| ==>
         && Joins(q.hops[i].direction, p.hops[i].edge, RefAt(p, i), RefAt(p, i + 1))
         && Usable(q.graph, RefAt(p, i), q.hops[i], p.hops[i].edge)
         && GetNode(q.graph, RefAt(p, i + 1)) == Some(p.hops[i].node)
         && NodeAccepted(q.hops[i], p.hops[i].node)
  }

  lemma TroddenWalks(q: Query, start: Node, p: Path)
    requires Trodden(q, start, p) && forall r :: Filed(q.graph, r)
    ensures Walk(q, start, p)
  {
    forall i | 0 <= i < |p.hops|
      ensures Joins(q.hops[i].direction, p.hops[i].edge, RefAt(p, i), RefAt(p, i + 1))
      ensures Usable(q.graph, RefAt(p, i), q.hops[i], p.hops[i].edge)
      ensures GetNode(q.graph, RefAt(p, i + 1)) == Some(p.hops[i].node) && NodeAccepted(q.hops[i], p.hops[i].node)
    {
      assert ValidHop(q, p, i);
      HopJoins(q, p, i);
      NodeAcceptedIs(q.hops[i], p.hops[i].node);
    }
  }

  /**
   * Whatever the caps, limits and later errors: every path a call of a chain returns is a walk
   * along stored edges from the start node.
   */
  lemma EveryPathWalks(q: Query, start: NodeRef, caps: seq<nat>, rs: seq<Result<TraversalResults, Error>>, i: nat,
                       j: nat)
    requires WellFormed(q.graph) && Chained(q, start, caps, rs) && i < |rs| && rs[i].Ok? && j < |rs[i].value.paths|
    requires forall r :: Filed(q.graph, r)
    ensures start in q.graph.nodes && Walk(q, q.graph.nodes[start], rs[i].value.paths[j])
  {
    assert Called(q, start, TokenFor(rs, i), caps[i], rs[i]);
    ChainTrodden(q, start, caps, rs, i);
    TroddenWalks(q, q.graph.nodes[start], rs[i].value.paths[j]);
  }

  // ---- what a token says ----

  /** The frontier handed out beside a token names where its paths end, in order. */
  lemma FrontierEnds(q: Query, start: NodeRef, token: Option<ContinuationState>, cap: nat,
                     r: Result<TraversalResults, Error>)
    requires Called(q, start, token, cap, r) && r.Ok?
    ensures r.value.token.None? ==> r.value.frontier == []
    ensures r.value.token.Some? ==>
              && |r.value.frontier| == |r.value.token.value.frontier|
              && forall i :: 0 <= i < |r.value.frontier| ==>
                   var p := r.value.token.value.frontier[i].path;
                   r.value.frontier[i] == RefAt(p, |p.hops|)
  {
  }

  // ---- filters that do not compile ----

  /** A stored node the hop would have to filter: not visited yet, behind an accepted edge. */
  ghost predicate MeetsNode(q: Query, k: nat, here: NodeRef, visited: set<string>)
    requires k < |q.hops|
  {
    exists e, t :: e in AcceptedEdges(q.graph, here, q.hops[k]) && Moves(q.hops[k].direction, here, e, t)
                   && t in q.graph.nodes && VisitKey(t) !in visited
  }

  /** An expansion fails exactly if a filter that does not compile meets an edge, or a node to be fetched. */
  lemma FaultsIff(q: Query, e: Entry, visited: set<string>)
    requires e.hopIdx < Depth(q)
    ensures !IsResult(q, e)
    ensures var hop, here := q.hops[e.hopIdx], EndRef(e.path);
            Faults(q, e, visited) <==>
            || (hop.edgeFilter.Some? && !hop.edgeFilter.value.compiles && EdgesForHop(q.graph, here, hop) != [])
            || (hop.nodeFilter.Some? && !hop.nodeFilter.value.compiles && MeetsNode(q, e.hopIdx, here, visited))
  {
    var hop, here := q.hops[e.hopIdx], EndRef(e.path);
    var edges := AcceptedEdges(q.graph, here, hop);
    var keep := (edge: Edge) => VisitKey(FarEnd(hop, here, edge)) !in visited;
    forall edge
      ensures edge in Pending(hop, here, edges, visited) <==> edge in edges && VisitKey(FarEnd(hop, here, edge)) !in visited
    {
      FilterMember(edges, keep, edge);
    }
    if edge :| edge in Pending(hop, here, edges, visited) && FarEnd(hop, here, edge) in q.graph.nodes {
      FarEndMoves(hop, here, edge, FarEnd(hop, here, edge));
    }
    if MeetsNode(q, e.hopIdx, here, visited) {
      var edge, t :| edge in edges && Moves(hop.direction, here, edge, t) && t in q.graph.nodes && VisitKey(t) !in visited;
      FarEndMoves(hop, here, edge, t);
      assert edge in Pending(hop, here, edges, visited);
    }
  }

  lemma NothingToExpand(q: Query, s: State)
    requires |s.queue| == 1 && s.queue[0].hopIdx < Depth(q)
    requires AcceptedEdges(q.graph, EndRef(s.queue[0].path), q.hops[s.queue[0].hopIdx]) == []
    ensures Next(q, s).queue == []
  {
    assert Successors(q, s.queue[0], s.visited).paths == [];
  }

  /** So a first hop whose edge filter does not compile fails every call that finds an edge there. */
  lemma BadFilterFails(q: Query, start: NodeRef, cap: nat, r: Result<TraversalResults, Error>)
    requires WellFormed(q.graph) && Called(q, start, None, cap, r) && cap > 0 && start in q.graph.nodes && Depth(q) > 0
    requires q.hops[0].edgeFilter.Some? && !q.hops[0].edgeFilter.value.compiles
    ensures r == Err(CelSyntax) <==> EdgesForHop(q.graph, start, q.hops[0]) != []
  {
    var node := q.graph.nodes[start];
    var e := Fresh(node).queue[0];
    FaultsIff(q, e, Fresh(node).visited);
    if EdgesForHop(q.graph, start, q.hops[0]) == [] {
      assert AcceptedEdges(q.graph, start, q.hops[0]) == [];
      NothingToExpand(q, Fresh(node));
      assert !MeetsNode(q, 0, start, Fresh(node).visited);
      var s := Next(q, Fresh(node));
      assert RunPage(q, s, cap, []) == Ok(([], s));
    }
  }
}
