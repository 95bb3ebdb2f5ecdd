/**
 * The traversal loop itself: queue, visited set, result list, batched parallel node
 * fetches and token construction, proved against the state machine of `Traversal`.
 */
module TraversalEngine {
  import opened Common
  import opened NodeKeys
  import opened Traversal

  const NODE_FETCH_CONCURRENCY: nat := 32

  // ---- edges of a hop ----

  method Retain(edges: seq<Edge>, p: Edge -> bool) returns (kept: seq<Edge>)
    ensures kept == Filter(edges, p)
  {
    kept := [];
    var i := 0;
    while i < |edges|
      invariant 0 <= i <= |edges|
      invariant kept == Filter(edges[..i], p)
    {
      FilterAppend(edges[..i], [edges[i]], p);
      assert edges[..i + 1] == edges[..i] + [edges[i]];
      if p(edges[i]) {
        kept := kept + [edges[i]];
      }
      i := i + 1;
    }
    assert edges[..i] == edges;
  }

  method GetEdgesForHop(g: Graph, r: NodeRef, hop: Hop) returns (edges: seq<Edge>)
    ensures edges == EdgesForHop(g, r, hop)
  {
    var only := LabelFilter(hop);
    match hop.direction {
      case Outbound => edges := Listing(Stored(g.outgoing, r), only);
      case Inbound => edges := Listing(Stored(g.incoming, r), only);
      case Both =>
        edges := Dedup(Listing(Stored(g.outgoing, r), only) + Listing(Stored(g.incoming, r), only), EdgeKey);
    }
    if |hop.labels| > 1 {
      edges := Retain(edges, (e: Edge) => e.edgeLabel in hop.labels);
    }
  }

  /** Apply the edge filter; a filter text is compiled (and can fail) once per edge. */
  method FilterEdges(edges: seq<Edge>, filter: Option<CelFilter<Edge>>) returns (r: Result<seq<Edge>, Error>)
    ensures r == if filter.None? then Ok(edges)
                 else if !filter.value.compiles && edges != [] then Err(CelSyntax)
                 else Ok(Filter(edges, filter.value.accepts))
  {
    if filter.None? {
      return Ok(edges);
    }
    if edges != [] && !filter.value.compiles {
      return Err(CelSyntax);
    }
    var kept := Retain(edges, filter.value.accepts);
    r := Ok(kept);
  }

  // ---- parallel fetches ----

  datatype Fetch = Fetch(idx: nat, node: Option<Node>)

  ghost predicate SortedByIndex(s: seq<Fetch>) {
    forall i, j :: 0 <= i < j < |s| ==> s[i].idx < s[j].idx
  }

  /** The fetches of indices `lo..hi`, each exactly once, in any order. */
  ghost predicate Covers(s: seq<Fetch>, g: Graph, targets: seq<NodeRef>, lo: nat, hi: nat) {
    && |s| == hi - lo && hi <= |targets|
    && (forall x :: x in s ==> lo <= x.idx < hi && x.node == GetNode(g, targets[x.idx]))
    && (forall i, j :: 0 <= i < j < |s| ==> s[i].idx != s[j].idx)
  }

  function InsertByIndex(x: Fetch, s: seq<Fetch>): (r: seq<Fetch>)
    ensures multiset(r) == multiset(s) + multiset{x}
  {
    if s == [] || x.idx < s[0].idx then [x] + s
    else
      assert s == [s[0]] + s[1..];
      [s[0]] + InsertByIndex(x, s[1..])
  }

  /** Stable sort by index. */
  function SortByIndex(s: seq<Fetch>): (r: seq<Fetch>)
    ensures multiset(r) == multiset(s)
  {
    if s == [] then []
    else
      assert s == [s[0]] + s[1..];
      InsertByIndex(s[0], SortByIndex(s[1..]))
  }

  lemma {:induction false} InsertSorted(x: Fetch, s: seq<Fetch>)
    requires SortedByIndex(s)
    requires forall i :: 0 <= i < |s| ==> s[i].idx != x.idx
    ensures SortedByIndex(InsertByIndex(x, s))
    decreases |s|
  {
    if s != [] && x.idx >= s[0].idx {
      InsertSorted(x, s[1..]);
      var rest := InsertByIndex(x, s[1..]);
      forall j | 0 <= j < |rest|
        ensures s[0].idx < rest[j].idx
      {
        assert rest[j] in multiset(rest);
      }
    }
  }

  lemma {:induction false} SortSorts(s: seq<Fetch>)
    requires forall i, j :: 0 <= i < j < |s| ==> s[i].idx != s[j].idx
    ensures SortedByIndex(SortByIndex(s))
    decreases |s|
  {
    if s != [] {
      SortSorts(s[1..]);
      var rest := SortByIndex(s[1..]);
      forall i | 0 <= i < |rest|
        ensures rest[i].idx != s[0].idx
      {
        assert rest[i] in multiset(rest);
        assert rest[i] in s[1..];
      }
      InsertSorted(s[0], rest);
    }
  }

  lemma {:induction false} AscendingFloor(s: seq<Fetch>, k: nat)
    requires SortedByIndex(s) && k < |s|
    ensures s[k].idx >= k
    decreases k
  {
    if k > 0 {
      AscendingFloor(s, k - 1);
    }
  }

  lemma {:induction false} AscendingGap(s: seq<Fetch>, k: nat)
    requires SortedByIndex(s) && k < |s|
    ensures s[k].idx + (|s| - 1 - k) <= s[|s| - 1].idx
    decreases |s| - k
  {
    if k + 1 < |s| {
      AscendingGap(s, k + 1);
    }
  }

  /** Fetching one by one in edge order. */
  function InEdgeOrder(g: Graph, targets: seq<NodeRef>): (r: seq<Fetch>)
    ensures |r| == |targets|
    ensures forall i :: 0 <= i < |r| ==> r[i] == Fetch(i, GetNode(g, targets[i]))
  {
    seq(|targets|, i requires 0 <= i < |targets| => Fetch(i, GetNode(g, targets[i])))
  }

  lemma SortedEntry(sorted: seq<Fetch>, s: seq<Fetch>, g: Graph, targets: seq<NodeRef>, k: nat)
    requires Covers(s, g, targets, 0, |targets|)
    requires SortedByIndex(sorted) && multiset(sorted) == multiset(s) && |sorted| == |s| && k < |s|
    ensures sorted[k] == Fetch(k, GetNode(g, targets[k]))
  {
    AscendingFloor(sorted, k);
    AscendingGap(sorted, k);
    assert sorted[k] in multiset(s) && sorted[|s| - 1] in multiset(s);
    assert sorted[k] in s && sorted[|s| - 1] in s;
  }

  /**
   * Whatever order the fetches complete in, sorting by index gives the list that fetching
   * one by one in edge order would have given.
   */
  lemma CompletionOrderIrrelevant(s: seq<Fetch>, g: Graph, targets: seq<NodeRef>)
    requires Covers(s, g, targets, 0, |targets|)
    ensures SortByIndex(s) == InEdgeOrder(g, targets)
  {
    var sorted := SortByIndex(s);
    SortSorts(s);
    assert |sorted| == |multiset(sorted)| == |multiset(s)| == |s|;
    forall k | 0 <= k < |sorted|
      ensures sorted[k] == InEdgeOrder(g, targets)[k]
    {
      SortedEntry(sorted, s, g, targets, k);
    }
  }

  function Range(lo: nat, hi: nat): (r: set<nat>)
    requires lo <= hi
    ensures forall i :: i in r <==> lo <= i < hi
    ensures |r| == hi - lo
  {
    if lo == hi then {} else Range(lo, hi - 1) + {hi - 1}
  }

  /** One batch: spawn all, then join in whatever order they finish. */
  method JoinBatch(g: Graph, targets: seq<NodeRef>, lo: nat, hi: nat) returns (joined: seq<Fetch>)
    requires lo <= hi <= |targets|
    ensures Covers(joined, g, targets, lo, hi)
  {
    var inFlight := Range(lo, hi);
    joined := [];
    while inFlight != {}
      invariant forall i :: i in inFlight ==> lo <= i < hi
      invariant |inFlight| + |joined| == hi - lo
      invariant forall x :: x in joined ==>
                  lo <= x.idx < hi && x.idx !in inFlight && x.node == GetNode(g, targets[x.idx])
      invariant forall i, j :: 0 <= i < j < |joined| ==> joined[i].idx != joined[j].idx
      decreases |inFlight|
    {
      var idx :| idx in inFlight;
      var done := Fetch(idx, GetNode(g, targets[idx]));
      assert forall i :: 0 <= i < |joined| ==> joined[i] in joined;
      joined := joined + [done];
      inFlight := inFlight - {idx};
    }
  }

  /** Fetch the targets in batches of 32, then restore edge order. */
  method FetchTargets(g: Graph, targets: seq<NodeRef>) returns (fetched: seq<Fetch>)
    ensures fetched == InEdgeOrder(g, targets)
  {
    fetched := [];
    var base := 0;
    while base < |targets|
      invariant 0 <= base <= |targets|
      invariant Covers(fetched, g, targets, 0, base)
    {
      var end := Min(base + NODE_FETCH_CONCURRENCY, |targets|);
      var joined := JoinBatch(g, targets, base, end);
      JoinCovers(fetched, joined, g, targets, base, end);
      fetched := fetched + joined;
      base := end;
    }
    CompletionOrderIrrelevant(fetched, g, targets);
    fetched := SortByIndex(fetched);
  }

  lemma JoinCovers(a: seq<Fetch>, b: seq<Fetch>, g: Graph, targets: seq<NodeRef>, mid: nat, hi: nat)
    requires mid <= hi && Covers(a, g, targets, 0, mid) && Covers(b, g, targets, mid, hi)
    ensures Covers(a + b, g, targets, 0, hi)
  {
    assert forall i :: 0 <= i < |a| ==> a[i] in a;
    assert forall i :: 0 <= i < |b| ==> b[i] in b;
  }

  // ---- one expansion ----

  /** Some pending target exists, so the node filter is evaluated. */
  ghost predicate FilterRuns(g: Graph, hop: Hop, here: NodeRef, pending: seq<Edge>) {
    exists e :: e in pending && FarEnd(hop, here, e) in g.nodes
  }

  /** Admitting from position `i` on, by what becomes of its edge. */
  lemma AdmitStep(g: Graph, hop: Hop, path: Path, pending: seq<Edge>, i: nat, visited: set<string>)
    requires i < |pending|
    ensures var t := FarEnd(hop, EndRef(path), pending[i]);
            var here := Admit(g, hop, path, pending[i..], visited);
            if t !in g.nodes || !AcceptsNode(hop, g.nodes[t]) || VisitKey(t) in visited
            then here == Admit(g, hop, path, pending[i + 1..], visited)
            else
              var rest := Admit(g, hop, path, pending[i + 1..], visited + {VisitKey(t)});
              here == Admitted([Extend(path, pending[i], g.nodes[t])] + rest.paths, rest.visited)
  {
    assert pending[i..][0] == pending[i] && pending[i..][1..] == pending[i + 1..];
  }

  method AdmitPending(g: Graph, hop: Hop, path: Path, pending: seq<Edge>, visited0: set<string>)
    returns (r: Result<Admitted, Error>)
    ensures r == if hop.nodeFilter.Some? && !hop.nodeFilter.value.compiles
                    && FilterRuns(g, hop, EndRef(path), pending)
                 then Err(CelSyntax) else Ok(Admit(g, hop, path, pending, visited0))
  {
    var here := EndRef(path);
    var targets := Map(pending, (e: Edge) => FarEnd(hop, here, e));
    var fetched := FetchTargets(g, targets);
    var paths: seq<Path> := [];
    var visited := visited0;
    ghost var whole := Admit(g, hop, path, pending, visited0);
    var i := 0;
    while i < |fetched|
      invariant 0 <= i <= |fetched| == |pending|
      invariant whole.paths == paths + Admit(g, hop, path, pending[i..], visited).paths
      invariant whole.visited == Admit(g, hop, path, pending[i..], visited).visited
      invariant hop.nodeFilter.Some? && !hop.nodeFilter.value.compiles ==>
                  forall j :: 0 <= j < i ==> FarEnd(hop, here, pending[j]) !in g.nodes
    {
      var edge := pending[fetched[i].idx];
      var found := fetched[i].node;
      AdmitStep(g, hop, path, pending, i, visited);
      if found.Some? {
        if hop.nodeFilter.Some? && !hop.nodeFilter.value.compiles {
          assert edge in pending && FarEnd(hop, here, edge) in g.nodes;
          return Err(CelSyntax);
        }
        var key := VisitKey(FarEnd(hop, here, edge));
        if AcceptsNode(hop, found.value) && key !in visited {
          visited := visited + {key};
          paths := paths + [Extend(path, edge, found.value)];
        }
      }
      i := i + 1;
    }
    assert pending[i..] == [];
    assert paths + [] == paths;
    r := Ok(Admitted(paths, visited));
  }

  method Expand(q: Query, e: Entry, visited: set<string>) returns (r: Result<Admitted, Error>)
    requires !IsResult(q, e)
    ensures r == if Faults(q, e, visited) then Err(CelSyntax) else Ok(Successors(q, e, visited))
  {
    var hop := q.hops[e.hopIdx];
    var here := EndRef(e.path);
    var edges := GetEdgesForHop(q.graph, here, hop);
    var accepted := FilterEdges(edges, hop.edgeFilter);
    if accepted.Err? {
      return Err(CelSyntax);
    }
    var pending := Retain(accepted.value, (edge: Edge) => VisitKey(FarEnd(hop, here, edge)) !in visited);
    assert accepted.value == AcceptedEdges(q.graph, here, hop);
    r := AdmitPending(q.graph, hop, e.path, pending, visited);
  }

  // ---- the engine ----

  datatype ContinuationState = ContinuationState(visited: seq<string>, frontier: seq<Entry>)

  datatype TraversalResults = TraversalResults(paths: seq<Path>, truncated: bool,
                                               token: Option<ContinuationState>, frontier: seq<NodeRef>)

  function InitialState(start: Node, token: Option<ContinuationState>): State {
    if token.Some? then State(token.value.frontier, SetOf(token.value.visited)) else Fresh(start)
  }

  method ToList(s: set<string>) returns (l: seq<string>)
    ensures SetOf(l) == s
  {
    l := [];
    var rest := s;
    while rest != {}
      invariant rest <= s && SetOf(l) == s - rest
      decreases |rest|
    {
      var x :| x in rest;
      assert SetOf(l + [x]) == SetOf(l) + {x};
      l := l + [x];
      rest := rest - {x};
    }
  }

  /** The token stands for exactly the state the page left over. */
  ghost predicate TokenHolds(t: Option<ContinuationState>, s: State) {
    if s.queue == [] then t == None
    else t.Some? && t.value.frontier == s.queue && SetOf(t.value.visited) == s.visited
  }

  function FrontierOf(queue: seq<Entry>): seq<NodeRef> {
    Map(queue, (e: Entry) => EndRef(e.path))
  }

  /** What a call returns for a page of the run. */
  ghost predicate Answers(page: Result<(seq<Path>, State), Error>, r: Result<TraversalResults, Error>) {
    match page
    case Err(e) => r == Err(e)
    case Ok((paths, s)) =>
      && r.Ok? && r.value.paths == paths
      && r.value.truncated == (s.queue != [])
      && TokenHolds(r.value.token, s)
      && r.value.frontier == FrontierOf(s.queue)
  }

  function PageOf(q: Query, start: NodeRef, token: Option<ContinuationState>, maxResults: nat)
    : Result<(seq<Path>, State), Error>
  {
    if start !in q.graph.nodes then Err(NodeNotFound)
    else RunPage(q, InitialState(q.graph.nodes[start], token), maxResults, [])
  }

  /** Pop the first entry, expand it and queue what it leads to. */
  method ExpandHead(q: Query, queue: seq<Entry>, visited: set<string>) returns (r: Result<State, Error>)
    requires queue != [] && !IsResult(q, queue[0])
    ensures r == if Faults(q, queue[0], visited) then Err(CelSyntax) else Ok(Next(q, State(queue, visited)))
  {
    var e := queue[0];
    var expanded := Expand(q, e, visited);
    if expanded.Err? {
      return Err(CelSyntax);
    }
    r := Ok(State(queue[1..] + NewEntries(expanded.value.paths, e.hopIdx + 1), expanded.value.visited));
  }

  /** The breadth-first loop; an entry popped on a full page goes back in front of the queue. */
  method RunLoop(q: Query, s: State, maxResults: nat) returns (r: Result<(seq<Path>, State), Error>)
    ensures r == RunPage(q, s, maxResults, [])
  {
    var results: seq<Path> := [];
    var queue, visited := s.queue, s.visited;
    ghost var whole := RunPage(q, s, maxResults, []);
    while queue != [] && |results| < maxResults
      invariant RunPage(q, State(queue, visited), maxResults, results) == whole
      decreases Measure(q, State(queue, visited))
    {
      if IsResult(q, queue[0]) {
        results := results + [queue[0].path];
        queue := queue[1..];
      } else {
        var next := ExpandHead(q, queue, visited);
        if next.Err? {
          return Err(CelSyntax);
        }
        queue, visited := next.value.queue, next.value.visited;
      }
    }
    r := Ok((results, State(queue, visited)));
  }

  method Traverse(q: Query, start: NodeRef, token: Option<ContinuationState>, maxResults: nat)
    returns (r: Result<TraversalResults, Error>)
    ensures Answers(PageOf(q, start, token, maxResults), r)
  {
    if start !in q.graph.nodes {
      return Err(NodeNotFound);
    }
    var startNode := q.graph.nodes[start];
    var visited, queue := {VisitKey(RefOf(startNode))}, [Entry(Path(startNode, []), 0)];
    if token.Some? {
      visited, queue := SetOf(token.value.visited), token.value.frontier;
    }
    PageThenDrain(q, State(queue, visited), maxResults, []);
    var page := RunLoop(q, State(queue, visited), maxResults);
    if page.Err? {
      return Err(page.error);
    }
    var (results, left) := page.value;
    var truncated := |results| >= maxResults && left.queue != [];
    if truncated {
      var keys := ToList(left.visited);
      r := Ok(TraversalResults(results, truncated, Some(ContinuationState(keys, left.queue)), FrontierOf(left.queue)));
    } else {
      r := Ok(TraversalResults(results, truncated, None, []));
    }
  }

  // ---- tokens ----

  /** No token, or one whose frontier is in hop order. */
  ghost predicate WellOrdered(token: Option<ContinuationState>) {
    token.Some? ==> InHopOrder(token.value.frontier)
  }

  /** A call answers its token with the page behind it. */
  ghost predicate Called(q: Query, start: NodeRef, token: Option<ContinuationState>, maxResults: nat,
                         r: Result<TraversalResults, Error>) {
    Answers(PageOf(q, start, token, maxResults), r)
  }

  /** A chain of calls, the first without a token and each later one with the token before it. */
  ghost predicate Chained(q: Query, start: NodeRef, caps: seq<nat>, rs: seq<Result<TraversalResults, Error>>) {
    && |rs| == |caps|
    && forall i :: 0 <= i < |rs| ==> Called(q, start, TokenFor(rs, i), caps[i], rs[i])
  }

  ghost function TokenFor(rs: seq<Result<TraversalResults, Error>>, i: nat): Option<ContinuationState>
    requires i <= |rs|
  {
    if i > 0 && rs[i - 1].Ok? then rs[i - 1].value.token else None
  }

  lemma CallKeepsOrder(q: Query, start: NodeRef, token: Option<ContinuationState>, maxResults: nat,
                       r: Result<TraversalResults, Error>)
    requires WellOrdered(token) && Called(q, start, token, maxResults, r)
    ensures r.Ok? ==> WellOrdered(r.value.token)
  {
    if start in q.graph.nodes {
      PageKeepsPromise(q, InitialState(q.graph.nodes[start], token), maxResults, []);
    }
  }

  lemma {:induction false} ChainKeepsOrder(q: Query, start: NodeRef, caps: seq<nat>,
                                           rs: seq<Result<TraversalResults, Error>>, i: nat)
    requires Chained(q, start, caps, rs) && i <= |rs|
    ensures WellOrdered(TokenFor(rs, i))
    decreases i
  {
    if i > 0 {
      ChainKeepsOrder(q, start, caps, rs, i - 1);
      assert Called(q, start, TokenFor(rs, i - 1), caps[i - 1], rs[i - 1]);
      CallKeepsOrder(q, start, TokenFor(rs, i - 1), caps[i - 1], rs[i - 1]);
    }
  }

  /** The uncapped run of the state a token stands for. */
  function Remaining(q: Query, token: Option<ContinuationState>): Result<seq<Path>, Error> {
    if token.None? then Ok([]) else Drain(q, State(token.value.frontier, SetOf(token.value.visited)))
  }

  lemma TokenRemains(q: Query, token: Option<ContinuationState>, s: State)
    requires TokenHolds(token, s)
    ensures Remaining(q, token) == Drain(q, s)
  {
  }

  /**
   * In any chain of calls, a call with a cap of at least one reports truncation and hands out a
   * token exactly when results remain, and the token's paths are those results in order.
   */
  lemma TokenIffMore(q: Query, start: NodeRef, caps: seq<nat>, rs: seq<Result<TraversalResults, Error>>, i: nat)
    requires Chained(q, start, caps, rs) && i < |rs| && caps[i] >= 1 && rs[i].Ok?
    ensures var r := rs[i].value;
            && (r.truncated <==> Remaining(q, r.token) != Ok([])) && (r.truncated <==> r.token.Some?)
            && (r.token.Some? ==> Remaining(q, r.token) == Ok(PathsOf(r.token.value.frontier)))
  {
    ChainKeepsOrder(q, start, caps, rs, i);
    assert Called(q, start, TokenFor(rs, i), caps[i], rs[i]);
    var s := InitialState(q.graph.nodes[start], TokenFor(rs, i));
    PageLeavesResults(q, s, caps[i]);
    TokenRemains(q, rs[i].value.token, RunPage(q, s, caps[i], []).value.1);
  }

  // ---- the pages of a chain together ----

  /** The paths of the answers, in order. */
  ghost function AllPaths(rs: seq<Result<TraversalResults, Error>>): seq<Path> {
    if rs == [] then []
    else
      var last := rs[|rs| - 1];
      AllPaths(rs[..|rs| - 1]) + (if last.Ok? then last.value.paths else [])
  }

  /** Every call succeeds, and every one but the last hands out a token. */
  ghost predicate Unbroken(rs: seq<Result<TraversalResults, Error>>) {
    && (forall i :: 0 <= i < |rs| ==> rs[i].Ok?)
    && (forall i :: 0 <= i < |rs| - 1 ==> rs[i].value.token.Some?)
  }

  /** One call: its paths in front of what its token stands for. */
  lemma CallDrains(q: Query, start: NodeRef, token: Option<ContinuationState>, cap: nat,
                   r: Result<TraversalResults, Error>)
    requires Called(q, start, token, cap, r) && r.Ok?
    ensures start in q.graph.nodes
    ensures Drain(q, InitialState(q.graph.nodes[start], token)) == Prepend(r.value.paths, Remaining(q, r.value.token))
  {
    var s := InitialState(q.graph.nodes[start], token);
    PageThenDrain(q, s, cap, []);
    PrependEmpty(Drain(q, s));
    TokenRemains(q, r.value.token, RunPage(q, s, cap, []).value.1);
  }

  /** A page behind the pages before it. */
  lemma ChainJoins(q: Query, start: Node, token: Option<ContinuationState>, before: seq<Path>, paths: seq<Path>,
                   rest: Result<seq<Path>, Error>)
    requires token.Some? && Drain(q, InitialState(start, token)) == Prepend(paths, rest)
    requires Drain(q, Fresh(start)) == Prepend(before, Remaining(q, token))
    ensures Drain(q, Fresh(start)) == Prepend(before + paths, rest)
  {
    PrependPrepend(before, paths, rest);
  }

  lemma AllPathsSnoc(rs: seq<Result<TraversalResults, Error>>, n: nat)
    requires n < |rs| && rs[n].Ok?
    ensures AllPaths(rs[..n + 1]) == AllPaths(rs[..n]) + rs[n].value.paths
  {
    assert rs[..n + 1][..n] == rs[..n];
  }

  lemma {:induction false} ChainTo(q: Query, start: NodeRef, caps: seq<nat>, rs: seq<Result<TraversalResults, Error>>,
                                   n: nat)
    requires Chained(q, start, caps, rs) && Unbroken(rs) && n < |rs| && start in q.graph.nodes
    ensures Drain(q, Fresh(q.graph.nodes[start])) == Prepend(AllPaths(rs[..n + 1]), Remaining(q, rs[n].value.token))
    decreases n
  {
    var token, last := TokenFor(rs, n), rs[n].value;
    assert Called(q, start, token, caps[n], rs[n]);
    CallDrains(q, start, token, caps[n], rs[n]);
    AllPathsSnoc(rs, n);
    if n == 0 {
      assert AllPaths(rs[..0]) + last.paths == last.paths;
    } else {
      ChainTo(q, start, caps, rs, n - 1);
      ChainJoins(q, q.graph.nodes[start], token, AllPaths(rs[..n]), last.paths, Remaining(q, last.token));
    }
  }

  /** The paths of an unbroken chain, followed by what its last token stands for, are the uncapped run. */
  lemma ChainDrains(q: Query, start: NodeRef, caps: seq<nat>, rs: seq<Result<TraversalResults, Error>>)
    requires Chained(q, start, caps, rs) && Unbroken(rs) && rs != []
    ensures start in q.graph.nodes
    ensures Drain(q, Fresh(q.graph.nodes[start]))
         == Prepend(AllPaths(rs), Remaining(q, rs[|rs| - 1].value.token))
  {
    var n := |rs| - 1;
    assert Called(q, start, TokenFor(rs, 0), caps[0], rs[0]);
    ChainTo(q, start, caps, rs, n);
    assert rs[..n + 1] == rs;
  }

  /** A chain followed until a call hands out no token returns, page by page, exactly the uncapped run. */
  lemma ChainIsOneRun(q: Query, start: NodeRef, caps: seq<nat>, rs: seq<Result<TraversalResults, Error>>)
    requires Chained(q, start, caps, rs) && Unbroken(rs) && rs != [] && rs[|rs| - 1].value.token.None?
    ensures start in q.graph.nodes && Drain(q, Fresh(q.graph.nodes[start])) == Ok(AllPaths(rs))
  {
    ChainDrains(q, start, caps, rs);
    assert AllPaths(rs) + [] == AllPaths(rs);
  }
}
