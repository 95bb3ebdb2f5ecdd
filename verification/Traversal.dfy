/**
 * Breadth-first multi-hop traversal with per-hop filters, a result cap and continuation
 * tokens (crates/pelago-query/src/traversal.rs).
 */
module Traversal {
  import opened Common
  import opened NodeKeys

  // ---- the graph and the query ----

  datatype Node = Node(entityType: string, id: string, properties: map<string, string>)

  /** What the node and edge stores answer at one read version. */
  datatype Graph = Graph(nodes: map<NodeRef, Node>, outgoing: map<NodeRef, seq<Edge>>, incoming: map<NodeRef, seq<Edge>>)

  function RefOf(n: Node): NodeRef {
    NodeRef(n.entityType, n.id)
  }

  ghost predicate WellFormed(g: Graph) {
    forall r :: r in g.nodes ==> RefOf(g.nodes[r]) == r
  }

  function GetNode(g: Graph, r: NodeRef): Option<Node> {
    if r in g.nodes then Some(g.nodes[r]) else None
  }

  datatype Direction = Outbound | Inbound | Both

  /** A CEL filter: an uninterpreted predicate, or a text that does not compile. */
  datatype CelFilter<!T> = CelFilter(compiles: bool, accepts: T -> bool)

  datatype Hop = Hop(labels: seq<string>, direction: Direction,
                     edgeFilter: Option<CelFilter<Edge>>, nodeFilter: Option<CelFilter<Node>>)

  datatype Query = Query(graph: Graph, hops: seq<Hop>, maxDepth: nat)

  const FETCH_LIMIT: nat := 1000

  function Stored(lists: map<NodeRef, seq<Edge>>, r: NodeRef): seq<Edge> {
    if r in lists then lists[r] else []
  }

  /** A store listing: the label is part of the key prefix, so the limit counts after it. */
  function Listing(edges: seq<Edge>, only: Option<string>): seq<Edge> {
    Take(if only.Some? then Filter(edges, (e: Edge) => e.edgeLabel == only.value) else edges, FETCH_LIMIT)
  }

  function LabelFilter(hop: Hop): Option<string> {
    if |hop.labels| == 1 then Some(hop.labels[0]) else None
  }

  /** The edges a hop considers at a node, in scan order. */
  function EdgesForHop(g: Graph, r: NodeRef, hop: Hop): seq<Edge> {
    var outgoing := Listing(Stored(g.outgoing, r), LabelFilter(hop));
    var incoming := Listing(Stored(g.incoming, r), LabelFilter(hop));
    var edges :=
      match hop.direction
      case Outbound => outgoing
      case Inbound => incoming
      case Both => DedupBy(outgoing + incoming, EdgeKey);
    if |hop.labels| > 1 then Filter(edges, (e: Edge) => e.edgeLabel in hop.labels) else edges
  }

  function AcceptedEdges(g: Graph, r: NodeRef, hop: Hop): seq<Edge> {
    var edges := EdgesForHop(g, r, hop);
    if hop.edgeFilter.Some? then Filter(edges, hop.edgeFilter.value.accepts) else edges
  }

  predicate AcceptsNode(hop: Hop, n: Node) {
    hop.nodeFilter.Some? ==> hop.nodeFilter.value.accepts(n)
  }

  /** The end of the edge that the hop moves to. */
  function FarEnd(hop: Hop, here: NodeRef, e: Edge): NodeRef {
    match hop.direction
    case Outbound => e.target
    case Inbound => e.source
    case Both => if e.source == here then e.target else e.source
  }

  // ---- paths and the queue ----

  datatype PathHop = PathHop(edge: Edge, node: Node)

  datatype Path = Path(start: Node, hops: seq<PathHop>)

  function EndNode(p: Path): Node {
    if p.hops == [] then p.start else p.hops[|p.hops| - 1].node
  }

  function EndRef(p: Path): NodeRef {
    RefOf(EndNode(p))
  }

  function Extend(p: Path, e: Edge, n: Node): Path {
    Path(p.start, p.hops + [PathHop(e, n)])
  }

  datatype Entry = Entry(path: Path, hopIdx: nat)

  datatype State = State(queue: seq<Entry>, visited: set<string>)

  /** The edges leading to nodes not visited yet, with those nodes. */
  function Pending(hop: Hop, here: NodeRef, edges: seq<Edge>, visited: set<string>): seq<Edge> {
    Filter(edges, (e: Edge) => VisitKey(FarEnd(hop, here, e)) !in visited)
  }

  datatype Admitted = Admitted(paths: seq<Path>, visited: set<string>)

  /** Take the pending edges in order: fetch, filter, mark visited, extend the path. */
  function Admit(g: Graph, hop: Hop, path: Path, pending: seq<Edge>, visited: set<string>): Admitted
    decreases |pending|
  {
    if pending == [] then Admitted([], visited)
    else
      var r := FarEnd(hop, EndRef(path), pending[0]);
      var node := GetNode(g, r);
      if node.None? || !AcceptsNode(hop, node.value) || VisitKey(r) in visited then
        Admit(g, hop, path, pending[1..], visited)
      else
        var rest := Admit(g, hop, path, pending[1..], visited + {VisitKey(r)});
        Admitted([Extend(path, pending[0], node.value)] + rest.paths, rest.visited)
  }

  function Successors(q: Query, e: Entry, visited: set<string>): Admitted
    requires e.hopIdx < |q.hops|
  {
    var hop := q.hops[e.hopIdx];
    var here := EndRef(e.path);
    Admit(q.graph, hop, e.path, Pending(hop, here, AcceptedEdges(q.graph, here, hop), visited), visited)
  }

  /** All hops done, or the depth limit reached. */
  predicate IsResult(q: Query, e: Entry) {
    e.hopIdx >= |q.hops| || e.hopIdx >= q.maxDepth
  }

  /** An expansion evaluates a filter that does not compile. */
  predicate Faults(q: Query, e: Entry, visited: set<string>)
    requires !IsResult(q, e)
  {
    var hop := q.hops[e.hopIdx];
    var here := EndRef(e.path);
    var edges := EdgesForHop(q.graph, here, hop);
    || (hop.edgeFilter.Some? && !hop.edgeFilter.value.compiles && edges != [])
    || (hop.nodeFilter.Some? && !hop.nodeFilter.value.compiles
        && exists edge :: edge in Pending(hop, here, AcceptedEdges(q.graph, here, hop), visited)
                          && FarEnd(hop, here, edge) in q.graph.nodes)
  }

  function NewEntries(paths: seq<Path>, hopIdx: nat): (r: seq<Entry>)
    ensures |r| == |paths|
  {
    Map(paths, (p: Path) => Entry(p, hopIdx))
  }

  // ---- termination ----

  function AllKeys(g: Graph): set<string> {
    set r | r in g.nodes :: VisitKey(r)
  }

  /** Unvisited nodes plus queued entries: every turn of the loop makes this smaller. */
  function Measure(q: Query, s: State): nat {
    |AllKeys(q.graph) - s.visited| + |s.queue|
  }

  lemma {:induction false} AdmitMeasure(g: Graph, hop: Hop, path: Path, pending: seq<Edge>, visited: set<string>)
    ensures var a := Admit(g, hop, path, pending, visited);
            && visited <= a.visited
            && |AllKeys(g) - a.visited| + |a.paths| <= |AllKeys(g) - visited|
    decreases |pending|
  {
    if pending != [] {
      var r := FarEnd(hop, EndRef(path), pending[0]);
      var node := GetNode(g, r);
      if node.None? || !AcceptsNode(hop, node.value) || VisitKey(r) in visited {
        AdmitMeasure(g, hop, path, pending[1..], visited);
      } else {
        AdmitMeasure(g, hop, path, pending[1..], visited + {VisitKey(r)});
        assert AllKeys(g) - visited == (AllKeys(g) - (visited + {VisitKey(r)})) + {VisitKey(r)};
      }
    }
  }

  /** Pop the first entry and queue the paths it led to. */
  function Push(s: State, a: Admitted, hopIdx: nat): State
    requires s.queue != []
  {
    State(s.queue[1..] + NewEntries(a.paths, hopIdx), a.visited)
  }

  lemma PushShrinks(q: Query, s: State)
    requires s.queue != [] && !IsResult(q, s.queue[0])
    ensures Measure(q, Push(s, Successors(q, s.queue[0], s.visited), s.queue[0].hopIdx + 1)) < Measure(q, s)
  {
    var e := s.queue[0];
    var hop, here := q.hops[e.hopIdx], EndRef(e.path);
    AdmitMeasure(q.graph, hop, e.path, Pending(hop, here, AcceptedEdges(q.graph, here, hop), s.visited), s.visited);
  }

  function Next(q: Query, s: State): (s': State)
    requires s.queue != []
    ensures Measure(q, s') < Measure(q, s)
  {
    var e := s.queue[0];
    if IsResult(q, e) then State(s.queue[1..], s.visited)
    else
      PushShrinks(q, s);
      Push(s, Successors(q, e, s.visited), e.hopIdx + 1)
  }

  // ---- one uncapped run, and one page ----

  datatype Error = NodeNotFound | CelSyntax

  function Prepend(out: seq<Path>, r: Result<seq<Path>, Error>): Result<seq<Path>, Error> {
    if r.Ok? then Ok(out + r.value) else r
  }

  /** Results of running with no cap until the queue is empty. */
  function Drain(q: Query, s: State): Result<seq<Path>, Error>
    decreases Measure(q, s)
  {
    if s.queue == [] then Ok([])
    else if IsResult(q, s.queue[0]) then Prepend([s.queue[0].path], Drain(q, Next(q, s)))
    else if Faults(q, s.queue[0], s.visited) then Err(CelSyntax)
    else Drain(q, Next(q, s))
  }

  /** Run until `max` results are collected or the queue is empty. */
  function RunPage(q: Query, s: State, max: nat, results: seq<Path>): Result<(seq<Path>, State), Error>
    decreases Measure(q, s)
  {
    if s.queue == [] || |results| >= max then Ok((results, s))
    else if IsResult(q, s.queue[0]) then RunPage(q, Next(q, s), max, results + [s.queue[0].path])
    else if Faults(q, s.queue[0], s.visited) then Err(CelSyntax)
    else RunPage(q, Next(q, s), max, results)
  }

  function Fresh(start: Node): State {
    State([Entry(Path(start, []), 0)], {VisitKey(RefOf(start))})
  }

  // ---- resuming ----

  /** What a page is: a prefix of the uncapped run, full unless nothing is left over. */
  ghost predicate PageSpec(whole: Result<seq<Path>, Error>, page: Result<(seq<Path>, State), Error>,
                           q: Query, max: nat, results: seq<Path>) {
    match page
    case Err(e) => whole == Err(e)
    case Ok((out, s')) =>
      && results <= out && |out| <= max
      && (s'.queue != [] ==> |out| == max)
      && Prepend(results, whole) == Prepend(out, Drain(q, s'))
  }

  lemma PageSpecResult(tail: Result<seq<Path>, Error>, page: Result<(seq<Path>, State), Error>,
                       q: Query, max: nat, results: seq<Path>, p: Path)
    requires PageSpec(tail, page, q, max, results + [p])
    ensures PageSpec(Prepend([p], tail), page, q, max, results)
  {
    if tail.Ok? {
      assert results + ([p] + tail.value) == results + [p] + tail.value;
    }
    if page.Ok? {
      assert results <= results + [p] <= page.value.0;
    }
  }

  /** A page followed by an uncapped run of what it left over is the uncapped run. */
  lemma {:induction false} PageThenDrain(q: Query, s: State, max: nat, results: seq<Path>)
    requires |results| <= max
    ensures PageSpec(Drain(q, s), RunPage(q, s, max, results), q, max, results)
    decreases Measure(q, s)
  {
    if s.queue != [] && |results| < max {
      var s' := Next(q, s);
      if IsResult(q, s.queue[0]) {
        PageThenDrain(q, s', max, results + [s.queue[0].path]);
        PageSpecResult(Drain(q, s'), RunPage(q, s', max, results + [s.queue[0].path]), q, max, results, s.queue[0].path);
      } else if !Faults(q, s.queue[0], s.visited) {
        PageThenDrain(q, s', max, results);
      }
    }
  }

  /** Feed each page's leftover state to the next call. */
  function RunPages(q: Query, s: State, caps: seq<nat>): Result<(seq<Path>, State), Error>
    decreases |caps|
  {
    if caps == [] || s.queue == [] then Ok(([], s))
    else
      match RunPage(q, s, caps[0], [])
      case Err(e) => Err(e)
      case Ok((page, s')) =>
        match RunPages(q, s', caps[1..])
        case Err(e) => Err(e)
        case Ok((rest, s'')) => Ok((page + rest, s''))
  }

  lemma PrependEmpty(r: Result<seq<Path>, Error>)
    ensures Prepend([], r) == r
  {
    if r.Ok? {
      assert [] + r.value == r.value;
    }
  }

  lemma PrependPrepend(a: seq<Path>, b: seq<Path>, r: Result<seq<Path>, Error>)
    ensures Prepend(a, Prepend(b, r)) == Prepend(a + b, r)
  {
    if r.Ok? {
      assert a + (b + r.value) == a + b + r.value;
    }
  }

  ghost predicate PagesSpec(whole: Result<seq<Path>, Error>, pages: Result<(seq<Path>, State), Error>, q: Query) {
    match pages
    case Err(e) => whole == Err(e)
    case Ok((out, s')) => whole == Prepend(out, Drain(q, s'))
  }

  /** Pages of any sizes deliver, path by path, a prefix of the single uncapped run. */
  lemma {:induction false} PagesThenDrain(q: Query, s: State, caps: seq<nat>)
    ensures PagesSpec(Drain(q, s), RunPages(q, s, caps), q)
    decreases |caps|
  {
    PrependEmpty(Drain(q, s));
    if caps != [] && s.queue != [] {
      var first := RunPage(q, s, caps[0], []);
      PageThenDrain(q, s, caps[0], []);
      if first.Ok? {
        var (page, s') := first.value;
        PagesThenDrain(q, s', caps[1..]);
        var more := RunPages(q, s', caps[1..]);
        if more.Ok? {
          PrependPrepend(page, more.value.0, Drain(q, more.value.1));
        }
      }
    }
  }

  lemma {:induction false} PageProgress(q: Query, s: State, max: nat, results: seq<Path>)
    ensures match RunPage(q, s, max, results)
            case Err(_) => true
            case Ok((_, s')) => Measure(q, s') <= Measure(q, s)
                                && (s.queue != [] && |results| < max ==> Measure(q, s') < Measure(q, s))
    decreases Measure(q, s)
  {
    if s.queue != [] && |results| < max {
      if IsResult(q, s.queue[0]) {
        PageProgress(q, Next(q, s), max, results + [s.queue[0].path]);
      } else if !Faults(q, s.queue[0], s.visited) {
        PageProgress(q, Next(q, s), max, results);
      }
    }
  }

  lemma {:induction false} PagesFinish(q: Query, s: State, caps: seq<nat>)
    requires forall i :: 0 <= i < |caps| ==> caps[i] >= 1
    requires |caps| >= Measure(q, s)
    ensures match RunPages(q, s, caps) case Err(_) => true case Ok((_, s')) => s'.queue == []
    decreases |caps|
  {
    if caps != [] && s.queue != [] {
      PageProgress(q, s, caps[0], []);
      var first := RunPage(q, s, caps[0], []);
      if first.Ok? {
        PagesFinish(q, first.value.1, caps[1..]);
      }
    }
  }

  /**
   * Running in pages of any sizes of at least one, each resumed from the previous token,
   * yields exactly the sequence of one uncapped run once enough pages were taken.
   */
  lemma PagedEqualsOneRun(q: Query, s: State, caps: seq<nat>)
    requires forall i :: 0 <= i < |caps| ==> caps[i] >= 1
    requires |caps| >= Measure(q, s)
    ensures match RunPages(q, s, caps)
            case Err(e) => Drain(q, s) == Err(e)
            case Ok((out, s')) => s'.queue == [] && Drain(q, s) == Ok(out)
  {
    PagesThenDrain(q, s, caps);
    PagesFinish(q, s, caps);
    var all := RunPages(q, s, caps);
    if all.Ok? {
      assert all.value.0 + [] == all.value.0;
    }
  }

  /** Any number of pages with a cap of zero leaves the whole state where it was. */
  lemma {:induction false} ZeroCapsStall(q: Query, s: State, caps: seq<nat>)
    requires forall i :: 0 <= i < |caps| ==> caps[i] == 0
    ensures RunPages(q, s, caps) == Ok(([], s))
    decreases |caps|
  {
    if caps != [] && s.queue != [] {
      ZeroCapsStall(q, s, caps[1..]);
      var none: seq<Path> := [];
      assert none + none == none;
      assert RunPage(q, s, caps[0], []) == Ok(([], s));
    }
  }

  // ---- what a token promises ----

  /** Entries leave in the order of their hop and are queued one hop further. */
  ghost predicate InHopOrder(queue: seq<Entry>) {
    forall i, j :: 0 <= i <= j < |queue| ==> queue[i].hopIdx <= queue[j].hopIdx <= queue[i].hopIdx + 1
  }

  ghost predicate AllResults(q: Query, queue: seq<Entry>) {
    forall i :: 0 <= i < |queue| ==> IsResult(q, queue[i])
  }

  function PathsOf(queue: seq<Entry>): seq<Path> {
    Map(queue, (e: Entry) => e.path)
  }

  lemma PushInOrder(queue: seq<Entry>, paths: seq<Path>)
    requires InHopOrder(queue) && queue != []
    ensures InHopOrder(queue[1..] + NewEntries(paths, queue[0].hopIdx + 1))
  {
    var added := NewEntries(paths, queue[0].hopIdx + 1);
    assert forall i :: 0 <= i < |added| ==> added[i].hopIdx == queue[0].hopIdx + 1;
    assert forall i :: 0 <= i < |queue| ==> queue[0].hopIdx <= queue[i].hopIdx <= queue[0].hopIdx + 1;
  }

  lemma NextInOrder(q: Query, s: State)
    requires s.queue != [] && InHopOrder(s.queue)
    ensures InHopOrder(Next(q, s).queue)
  {
    if !IsResult(q, s.queue[0]) {
      PushInOrder(s.queue, Successors(q, s.queue[0], s.visited).paths);
    }
  }

  /** Behind a result in hop order there are only results. */
  lemma OnlyResultsFollow(q: Query, queue: seq<Entry>)
    requires queue != [] && InHopOrder(queue) && IsResult(q, queue[0])
    ensures AllResults(q, queue)
  {
    assert forall i :: 0 <= i < |queue| ==> queue[0].hopIdx <= queue[i].hopIdx;
  }

  /** Once something was returned, everything still queued is a result. */
  ghost predicate Promising(q: Query, s: State, returned: bool) {
    InHopOrder(s.queue) && (returned ==> AllResults(q, s.queue))
  }

  lemma {:induction false} PageKeepsPromise(q: Query, s: State, max: nat, results: seq<Path>)
    requires Promising(q, s, results != [])
    ensures var page := RunPage(q, s, max, results);
            page.Ok? ==> Promising(q, page.value.1, page.value.0 != []) && (results != [] ==> page.value.0 != [])
    decreases Measure(q, s)
  {
    if s.queue != [] && |results| < max {
      NextInOrder(q, s);
      if IsResult(q, s.queue[0]) {
        OnlyResultsFollow(q, s.queue);
        PageKeepsPromise(q, Next(q, s), max, results + [s.queue[0].path]);
      } else if !Faults(q, s.queue[0], s.visited) {
        PageKeepsPromise(q, Next(q, s), max, results);
      }
    }
  }

  /** A queue of results is returned as it stands. */
  lemma {:induction false} DrainResults(q: Query, s: State)
    requires AllResults(q, s.queue)
    ensures Drain(q, s) == Ok(PathsOf(s.queue))
    decreases |s.queue|
  {
    if s.queue != [] {
      DrainResults(q, Next(q, s));
      assert PathsOf(s.queue) == [s.queue[0].path] + PathsOf(s.queue[1..]);
    }
  }

  /** Queued in hop order, and exactly the results still to come. */
  ghost predicate Settled(q: Query, s: State) {
    InHopOrder(s.queue) && AllResults(q, s.queue) && Drain(q, s) == Ok(PathsOf(s.queue))
  }

  /** A page of at least one leaves results behind, or nothing. */
  lemma PageLeavesResults(q: Query, s: State, max: nat)
    requires InHopOrder(s.queue) && max >= 1
    ensures RunPage(q, s, max, []).Ok? ==> Settled(q, RunPage(q, s, max, []).value.1)
  {
    PageKeepsPromise(q, s, max, []);
    PageThenDrain(q, s, max, []);
    var page := RunPage(q, s, max, []);
    if page.Ok? {
      DrainResults(q, page.value.1);
    }
  }

  ghost predicate SomeCap(caps: seq<nat>) {
    exists i :: 0 <= i < |caps| && caps[i] >= 1
  }

  lemma {:induction false} PagesLeaveResults(q: Query, s: State, caps: seq<nat>)
    requires InHopOrder(s.queue) && (AllResults(q, s.queue) || SomeCap(caps))
    ensures RunPages(q, s, caps).Ok? ==> AllResults(q, RunPages(q, s, caps).value.1.queue)
    decreases |caps|
  {
    if caps != [] && s.queue != [] {
      PageKeepsPromise(q, s, caps[0], []);
      if caps[0] >= 1 {
        PageLeavesResults(q, s, caps[0]);
      }
      var first := RunPage(q, s, caps[0], []);
      if first.Ok? {
        PagesLeaveResults(q, first.value.1, caps[1..]);
      }
    }
  }

  /**
   * Whatever pages were taken since the start, one of at least one among them: what is left
   * holds exactly the results still to come, in order, and is empty exactly when none is.
   */
  lemma LeftoverIsTheRest(q: Query, start: Node, caps: seq<nat>)
    requires SomeCap(caps)
    ensures var pages := RunPages(q, Fresh(start), caps);
            pages.Ok? ==>
              var rest := pages.value.1;
              Drain(q, rest) == Ok(PathsOf(rest.queue)) && (rest.queue == [] <==> Drain(q, rest) == Ok([]))
  {
    PagesLeaveResults(q, Fresh(start), caps);
    var all := RunPages(q, Fresh(start), caps);
    if all.Ok? {
      DrainResults(q, all.value.1);
    }
  }
}
