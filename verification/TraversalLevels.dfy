/**
 * What an untruncated traversal returns: the nodes of one breadth-first level, each once,
 * by a path of exactly that many valid hops that repeats no node.
 */
module TraversalLevels {
  import opened Common
  import opened NodeKeys
  import opened Traversal

  // ---- the reference: level sets ----

  /** Along an edge seen at `here`: forwards to its target, backwards to its source, or away from `here`. */
  predicate Moves(direction: Direction, here: NodeRef, e: Edge, there: NodeRef) {
    match direction
    case Outbound => there == e.target
    case Inbound => there == e.source
    case Both => (e.source == here && there == e.target) || (e.source != here && there == e.source)
  }

  lemma FarEndMoves(hop: Hop, here: NodeRef, e: Edge, there: NodeRef)
    ensures Moves(hop.direction, here, e, there) <==> there == FarEnd(hop, here, e)
  {
  }

  /** Where hop `k` leads from node `r`, filters applied. */
  function HopTargets(q: Query, k: nat, r: NodeRef): set<NodeRef>
    requires k < |q.hops|
  {
    var hop := q.hops[k];
    set t | t in q.graph.nodes && AcceptsNode(hop, q.graph.nodes[t])
            && exists e :: e in AcceptedEdges(q.graph, r, hop) && Moves(hop.direction, r, e, t)
  }

  datatype Levels = Levels(level: set<NodeRef>, seen: set<NodeRef>)

  function Reached(q: Query, k: nat, from: set<NodeRef>): set<NodeRef>
    requires k < |q.hops|
  {
    set r, t | r in from && t in HopTargets(q, k, r) :: t
  }

  /** `level` is L_k and `seen` is L_0 together with everything up to L_k. */
  function LevelsAt(q: Query, start: NodeRef, k: nat): Levels
    requires k <= |q.hops|
  {
    if k == 0 then Levels({start}, {start})
    else
      var before := LevelsAt(q, start, k - 1);
      var next := Reached(q, k - 1, before.level) - before.seen;
      Levels(next, before.seen + next)
  }

  function Depth(q: Query): (d: nat)
    ensures d <= |q.hops|
  {
    Min(|q.hops|, q.maxDepth)
  }

  // ---- valid paths ----

  /** The node reached after `i` hops. */
  function RefAt(p: Path, i: nat): NodeRef
    requires i <= |p.hops|
  {
    RefOf(if i == 0 then p.start else p.hops[i - 1].node)
  }

  /** Hop `i` follows an accepted edge of the node before it to an accepted, stored node. */
  ghost predicate ValidHop(q: Query, p: Path, i: nat)
    requires i < |p.hops| <= |q.hops|
  {
    var hop := q.hops[i];
    && p.hops[i].edge in AcceptedEdges(q.graph, RefAt(p, i), hop)
    && Moves(hop.direction, RefAt(p, i), p.hops[i].edge, RefAt(p, i + 1))
    && GetNode(q.graph, RefAt(p, i + 1)) == Some(p.hops[i].node)
    && AcceptsNode(hop, p.hops[i].node)
  }

  ghost predicate ValidPath(q: Query, start: Node, p: Path, k: nat) {
    && p.start == start && |p.hops| == k <= |q.hops|
    && (forall i :: 0 <= i < k ==> ValidHop(q, p, i))
    && (forall i, j :: 0 <= i < j <= k ==> RefAt(p, i) != RefAt(p, j))
  }

  function Ends(paths: seq<Path>): (r: seq<NodeRef>)
    ensures |r| == |paths|
  {
    Map(paths, EndRef)
  }

  /** Every node of the path has been visited. */
  ghost predicate Marked(p: Path, visited: set<string>) {
    forall i :: 0 <= i <= |p.hops| ==> VisitKey(RefAt(p, i)) in visited
  }

  // ---- one expansion ----

  /** The targets an expansion of `r` adds when `visited` is already marked. */
  function Fresher(q: Query, k: nat, r: NodeRef, visited: set<string>): set<NodeRef>
    requires k < |q.hops|
  {
    set t | t in HopTargets(q, k, r) && VisitKey(t) !in visited
  }

  /** The targets of a list of edges that exist and pass the node filter. */
  function TargetsOf(g: Graph, hop: Hop, here: NodeRef, edges: seq<Edge>): set<NodeRef> {
    set e | e in edges && FarEnd(hop, here, e) in g.nodes && AcceptsNode(hop, g.nodes[FarEnd(hop, here, e)])
      :: FarEnd(hop, here, e)
  }

  lemma TargetsOfCons(g: Graph, hop: Hop, here: NodeRef, edges: seq<Edge>)
    requires edges != []
    ensures var t := FarEnd(hop, here, edges[0]);
            TargetsOf(g, hop, here, edges) == TargetsOf(g, hop, here, edges[1..])
              + (if t in g.nodes && AcceptsNode(hop, g.nodes[t]) then {t} else {})
  {
    assert edges == [edges[0]] + edges[1..];
  }

  function Added(g: Graph, hop: Hop, here: NodeRef, pending: seq<Edge>, visited: set<string>): set<NodeRef> {
    set t | t in TargetsOf(g, hop, here, pending) && VisitKey(t) !in visited
  }

  /** `p` extends `path` by one pending edge and the node it leads to. */
  ghost predicate ByPending(g: Graph, hop: Hop, path: Path, pending: seq<Edge>, p: Path) {
    exists e :: e in pending && Leads(g, hop, path, e, p)
  }

  ghost predicate Leads(g: Graph, hop: Hop, path: Path, e: Edge, p: Path) {
    var t := FarEnd(hop, EndRef(path), e);
    t in g.nodes && AcceptsNode(hop, g.nodes[t]) && p == Extend(path, e, g.nodes[t])
  }

  ghost predicate AdmitSpec(g: Graph, hop: Hop, path: Path, pending: seq<Edge>, visited: set<string>, a: Admitted) {
    && NoDup(Ends(a.paths))
    && SetOf(Ends(a.paths)) == Added(g, hop, EndRef(path), pending, visited)
    && a.visited == visited + Keys(Added(g, hop, EndRef(path), pending, visited))
    && forall p :: p in a.paths ==> ByPending(g, hop, path, pending, p)
  }

  lemma AddedCons(g: Graph, hop: Hop, here: NodeRef, pending: seq<Edge>, visited: set<string>)
    requires KeysDistinct(g.nodes.Keys) && pending != []
    ensures var t := FarEnd(hop, here, pending[0]);
            var rest := pending[1..];
            if t !in g.nodes || !AcceptsNode(hop, g.nodes[t]) || VisitKey(t) in visited then
              Added(g, hop, here, pending, visited) == Added(g, hop, here, rest, visited)
            else
              && Added(g, hop, here, pending, visited) == {t} + Added(g, hop, here, rest, visited + {VisitKey(t)})
              && t !in Added(g, hop, here, rest, visited + {VisitKey(t)})
  {
    TargetsOfCons(g, hop, here, pending);
    assert forall u :: u in TargetsOf(g, hop, here, pending) ==> u in g.nodes.Keys;
  }

  lemma ByPendingTail(g: Graph, hop: Hop, path: Path, pending: seq<Edge>, p: Path)
    requires pending != [] && ByPending(g, hop, path, pending[1..], p)
    ensures ByPending(g, hop, path, pending, p)
  {
    var e :| e in pending[1..] && Leads(g, hop, path, e, p);
    assert e in pending;
  }

  lemma {:induction false} AdmitMeets(g: Graph, hop: Hop, path: Path, pending: seq<Edge>, visited: set<string>)
    requires WellFormed(g) && KeysDistinct(g.nodes.Keys)
    ensures AdmitSpec(g, hop, path, pending, visited, Admit(g, hop, path, pending, visited))
    decreases |pending|
  {
    var a := Admit(g, hop, path, pending, visited);
    if pending == [] {
      assert Added(g, hop, EndRef(path), pending, visited) == {};
    } else {
      var t := FarEnd(hop, EndRef(path), pending[0]);
      var rest := pending[1..];
      AddedCons(g, hop, EndRef(path), pending, visited);
      if t !in g.nodes || !AcceptsNode(hop, g.nodes[t]) || VisitKey(t) in visited {
        AdmitMeets(g, hop, path, rest, visited);
        forall p | p in a.paths
          ensures ByPending(g, hop, path, pending, p)
        {
          ByPendingTail(g, hop, path, pending, p);
        }
      } else {
        AdmitMeets(g, hop, path, rest, visited + {VisitKey(t)});
        AdmitCons(g, hop, path, pending, visited, t, Admit(g, hop, path, rest, visited + {VisitKey(t)}));
      }
    }
  }

  lemma AdmitCons(g: Graph, hop: Hop, path: Path, pending: seq<Edge>, visited: set<string>, t: NodeRef, b: Admitted)
    requires WellFormed(g) && KeysDistinct(g.nodes.Keys)
    requires pending != [] && t == FarEnd(hop, EndRef(path), pending[0])
    requires t in g.nodes && AcceptsNode(hop, g.nodes[t]) && VisitKey(t) !in visited
    requires AdmitSpec(g, hop, path, pending[1..], visited + {VisitKey(t)}, b)
    ensures AdmitSpec(g, hop, path, pending, visited,
                      Admitted([Extend(path, pending[0], g.nodes[t])] + b.paths, b.visited))
  {
    var p := Extend(path, pending[0], g.nodes[t]);
    var paths := [p] + b.paths;
    assert Ends(paths) == [t] + Ends(b.paths);
    AddedCons(g, hop, EndRef(path), pending, visited);
    assert t !in SetOf(Ends(b.paths));
    assert SetOf(Ends(paths)) == {t} + SetOf(Ends(b.paths));
    forall p' | p' in paths
      ensures ByPending(g, hop, path, pending, p')
    {
      if p' == p {
        assert Leads(g, hop, path, pending[0], p);
      } else {
        ByPendingTail(g, hop, path, pending, p');
      }
    }
  }

  lemma PendingTargets(q: Query, k: nat, path: Path, visited: set<string>)
    requires k < |q.hops|
    ensures var hop, here := q.hops[k], EndRef(path);
            var pending := Pending(hop, here, AcceptedEdges(q.graph, here, hop), visited);
            Added(q.graph, hop, here, pending, visited) == Fresher(q, k, here, visited)
  {
    var hop, here := q.hops[k], EndRef(path);
    var edges := AcceptedEdges(q.graph, here, hop);
    var p := (e: Edge) => VisitKey(FarEnd(hop, here, e)) !in visited;
    forall e
      ensures e in Pending(hop, here, edges, visited) <==> e in edges && p(e)
    {
      FilterMember(edges, p, e);
    }
    forall t
      ensures t in Added(q.graph, hop, here, Pending(hop, here, edges, visited), visited) <==>
              t in Fresher(q, k, here, visited)
    {
      if t in HopTargets(q, k, here) && VisitKey(t) !in visited {
        var e :| e in edges && Moves(hop.direction, here, e, t);
        FarEndMoves(hop, here, e, t);
        assert e in Pending(hop, here, edges, visited);
      }
    }
  }

  ghost predicate ExpansionSpec(q: Query, start: Node, k: nat, path: Path, visited: set<string>, a: Admitted)
    requires k < |q.hops|
  {
    && NoDup(Ends(a.paths))
    && SetOf(Ends(a.paths)) == Fresher(q, k, EndRef(path), visited)
    && a.visited == visited + Keys(Fresher(q, k, EndRef(path), visited))
    && forall p :: p in a.paths ==> ValidPath(q, start, p, k + 1) && Marked(p, a.visited)
  }

  lemma ExtendValid(q: Query, start: Node, k: nat, path: Path, e: Edge, visited: set<string>)
    requires WellFormed(q.graph) && k < |q.hops| && ValidPath(q, start, path, k) && Marked(path, visited)
    requires e in AcceptedEdges(q.graph, EndRef(path), q.hops[k])
    requires var t := FarEnd(q.hops[k], EndRef(path), e);
             t in q.graph.nodes && AcceptsNode(q.hops[k], q.graph.nodes[t]) && VisitKey(t) !in visited
    ensures var t := FarEnd(q.hops[k], EndRef(path), e);
            var p := Extend(path, e, q.graph.nodes[t]);
            ValidPath(q, start, p, k + 1) && Marked(p, visited + {VisitKey(t)})
  {
    var t := FarEnd(q.hops[k], EndRef(path), e);
    var p := Extend(path, e, q.graph.nodes[t]);
    ExtendRefs(path, e, q.graph.nodes[t]);
    FarEndMoves(q.hops[k], EndRef(path), e, t);
    forall i | 0 <= i < k + 1
      ensures ValidHop(q, p, i)
    {
      if i < k {
        assert ValidHop(q, path, i);
      }
    }
    forall i, j | 0 <= i < j <= k + 1
      ensures RefAt(p, i) != RefAt(p, j)
    {
      if j == k + 1 {
        assert VisitKey(RefAt(path, i)) in visited;
      }
    }
  }

  /** The nodes of an extended path. */
  lemma ExtendRefs(path: Path, e: Edge, n: Node)
    ensures var p, k := Extend(path, e, n), |path.hops|;
            && (forall i :: 0 <= i <= k ==> RefAt(p, i) == RefAt(path, i))
            && RefAt(p, k + 1) == RefOf(n) && RefAt(path, k) == EndRef(path)
  {
  }

  lemma ExpansionMeets(q: Query, start: Node, k: nat, path: Path, visited: set<string>)
    requires WellFormed(q.graph) && KeysDistinct(q.graph.nodes.Keys)
    requires k < |q.hops| && ValidPath(q, start, path, k) && Marked(path, visited)
    ensures ExpansionSpec(q, start, k, path, visited, Successors(q, Entry(path, k), visited))
  {
    var hop, here := q.hops[k], EndRef(path);
    var edges := AcceptedEdges(q.graph, here, hop);
    var keep := (e: Edge) => VisitKey(FarEnd(hop, here, e)) !in visited;
    var pending := Pending(hop, here, edges, visited);
    var a := Successors(q, Entry(path, k), visited);
    AdmitMeets(q.graph, hop, path, pending, visited);
    PendingTargets(q, k, path, visited);
    forall p | p in a.paths
      ensures ValidPath(q, start, p, k + 1) && Marked(p, a.visited)
    {
      assert ByPending(q.graph, hop, path, pending, p);
      var e :| e in pending && Leads(q.graph, hop, path, e, p);
      FilterMember(edges, keep, e);
      ExtendValid(q, start, k, path, e, visited);
      var t := FarEnd(hop, here, e);
      assert t in Fresher(q, k, here, visited);
      assert VisitKey(t) in Keys(Fresher(q, k, here, visited));
    }
  }

  // ---- one whole level ----

  /** Expand the paths of a level one after the other, sharing the visited set. */
  function ExpandLevel(q: Query, k: nat, paths: seq<Path>, visited: set<string>): Admitted
    requires k < |q.hops|
    decreases |paths|
  {
    if paths == [] then Admitted([], visited)
    else
      var a := Successors(q, Entry(paths[0], k), visited);
      var b := ExpandLevel(q, k, paths[1..], a.visited);
      Admitted(a.paths + b.paths, b.visited)
  }

  function FresherLevel(q: Query, k: nat, from: set<NodeRef>, visited: set<string>): set<NodeRef>
    requires k < |q.hops|
  {
    set t | t in Reached(q, k, from) && VisitKey(t) !in visited
  }

  ghost predicate PathsAt(q: Query, start: Node, k: nat, paths: seq<Path>, visited: set<string>) {
    forall p :: p in paths ==> ValidPath(q, start, p, k) && Marked(p, visited)
  }

  ghost predicate LevelSpec(q: Query, start: Node, k: nat, paths: seq<Path>, visited: set<string>, a: Admitted)
    requires k < |q.hops|
  {
    var added := FresherLevel(q, k, SetOf(Ends(paths)), visited);
    && NoDup(Ends(a.paths))
    && SetOf(Ends(a.paths)) == added
    && a.visited == visited + Keys(added)
    && PathsAt(q, start, k + 1, a.paths, a.visited)
  }

  lemma FresherLevelCons(q: Query, k: nat, paths: seq<Path>, visited: set<string>)
    requires k < |q.hops| && paths != [] && KeysDistinct(q.graph.nodes.Keys)
    ensures var f := Fresher(q, k, EndRef(paths[0]), visited);
            var rest := FresherLevel(q, k, SetOf(Ends(paths[1..])), visited + Keys(f));
            && FresherLevel(q, k, SetOf(Ends(paths)), visited) == f + rest
            && f !! rest
            && visited + Keys(f + rest) == visited + Keys(f) + Keys(rest)
  {
    var r := EndRef(paths[0]);
    assert Ends(paths) == [r] + Ends(paths[1..]);
    assert SetOf(Ends(paths)) == {r} + SetOf(Ends(paths[1..]));
    var f := Fresher(q, k, r, visited);
    forall t | t in Reached(q, k, SetOf(Ends(paths[1..]))) && VisitKey(t) in Keys(f)
      ensures t in f
    {
      var u :| u in f && VisitKey(u) == VisitKey(t);
      assert u in q.graph.nodes.Keys && t in q.graph.nodes.Keys;
    }
    assert Reached(q, k, SetOf(Ends(paths))) == HopTargets(q, k, r) + Reached(q, k, SetOf(Ends(paths[1..])));
  }

  lemma JoinEnds(a: seq<Path>, b: seq<Path>)
    requires NoDup(Ends(a)) && NoDup(Ends(b)) && SetOf(Ends(a)) !! SetOf(Ends(b))
    ensures NoDup(Ends(a + b)) && SetOf(Ends(a + b)) == SetOf(Ends(a)) + SetOf(Ends(b))
  {
    assert Ends(a + b) == Ends(a) + Ends(b);
    forall i, j | 0 <= i < |a| && 0 <= j < |b|
      ensures Ends(a)[i] != Ends(b)[j]
    {
      assert Ends(a)[i] in SetOf(Ends(a)) && Ends(b)[j] in SetOf(Ends(b));
    }
  }

  lemma MarkedGrows(q: Query, start: Node, k: nat, paths: seq<Path>, visited: set<string>, more: set<string>)
    requires PathsAt(q, start, k, paths, visited) && visited <= more
    ensures PathsAt(q, start, k, paths, more)
  {
  }

  lemma {:induction false} LevelMeets(q: Query, start: Node, k: nat, paths: seq<Path>, visited: set<string>)
    requires WellFormed(q.graph) && KeysDistinct(q.graph.nodes.Keys) && k < |q.hops|
    requires PathsAt(q, start, k, paths, visited)
    ensures LevelSpec(q, start, k, paths, visited, ExpandLevel(q, k, paths, visited))
    decreases |paths|
  {
    if paths == [] {
      assert FresherLevel(q, k, SetOf(Ends(paths)), visited) == {};
    } else {
      assert paths[0] in paths;
      ExpansionMeets(q, start, k, paths[0], visited);
      var a := Successors(q, Entry(paths[0], k), visited);
      MarkedGrows(q, start, k, paths[1..], visited, a.visited);
      LevelMeets(q, start, k, paths[1..], a.visited);
      LevelCons(q, start, k, paths, visited, a, ExpandLevel(q, k, paths[1..], a.visited));
    }
  }

  lemma LevelCons(q: Query, start: Node, k: nat, paths: seq<Path>, visited: set<string>, a: Admitted, b: Admitted)
    requires KeysDistinct(q.graph.nodes.Keys) && k < |q.hops| && paths != []
    requires ExpansionSpec(q, start, k, paths[0], visited, a)
    requires LevelSpec(q, start, k, paths[1..], a.visited, b)
    ensures LevelSpec(q, start, k, paths, visited, Admitted(a.paths + b.paths, b.visited))
  {
    FresherLevelCons(q, k, paths, visited);
    JoinEnds(a.paths, b.paths);
    MarkedGrows(q, start, k + 1, a.paths, a.visited, b.visited);
  }

  // ---- the queue runs level by level ----

  ghost predicate FiltersCompile(q: Query) {
    forall h :: h in q.hops ==>
      (h.edgeFilter.Some? ==> h.edgeFilter.value.compiles) && (h.nodeFilter.Some? ==> h.nodeFilter.value.compiles)
  }

  lemma NewEntriesAppend(a: seq<Path>, b: seq<Path>, k: nat)
    ensures NewEntries(a + b, k) == NewEntries(a, k) + NewEntries(b, k)
  {
  }

  /** A queue of level `k` entries followed by level `k + 1` entries. */
  function TwoLevels(a: seq<Path>, b: seq<Path>, k: nat): seq<Entry> {
    NewEntries(a, k) + NewEntries(b, k + 1)
  }

  lemma TwoLevelsPop(a: seq<Path>, b: seq<Path>, more: seq<Path>, k: nat)
    requires a != []
    ensures TwoLevels(a, b, k)[0] == Entry(a[0], k)
    ensures TwoLevels(a, b, k)[1..] + NewEntries(more, k + 1) == TwoLevels(a[1..], b + more, k)
  {
    NewEntriesAppend(b, more, k + 1);
    assert NewEntries(a, k)[1..] == NewEntries(a[1..], k);
  }

  lemma TwoLevelsEnd(b: seq<Path>, k: nat)
    ensures TwoLevels([], b, k) == NewEntries(b, k + 1)
  {
  }

  /** Fold an expansion over the paths of a level. */
  function FoldLevel(succ: (Path, set<string>) -> Admitted, paths: seq<Path>, visited: set<string>): Admitted
    decreases |paths|
  {
    if paths == [] then Admitted([], visited)
    else
      var a := succ(paths[0], visited);
      var b := FoldLevel(succ, paths[1..], a.visited);
      Admitted(a.paths + b.paths, b.visited)
  }

  /** One turn of the loop on a level `k` entry does not change what a run without an error returns. */
  ghost predicate TurnLaw(run: State -> Result<seq<Path>, Error>, succ: (Path, set<string>) -> Admitted, k: nat) {
    forall s: State :: s.queue != [] && s.queue[0].hopIdx == k && run(s).Ok? ==>
      run(s) == run(State(s.queue[1..] + NewEntries(succ(s.queue[0].path, s.visited).paths, k + 1),
                          succ(s.queue[0].path, s.visited).visited))
  }

  /** Running a queue of two levels finishes the first level first. */
  lemma {:induction false} RunLevel(run: State -> Result<seq<Path>, Error>, succ: (Path, set<string>) -> Admitted,
                                    k: nat, a: seq<Path>, b: seq<Path>, s: State, t: State)
    requires TurnLaw(run, succ, k) && run(s).Ok?
    requires s.queue == TwoLevels(a, b, k)
    requires var done := FoldLevel(succ, a, s.visited);
             t.queue == NewEntries(b + done.paths, k + 1) && t.visited == done.visited
    ensures run(s) == run(t)
    decreases |a|
  {
    if a == [] {
      TwoLevelsEnd(b, k);
      assert b + [] == b;
      assert s == t;
    } else {
      var step := succ(a[0], s.visited);
      TwoLevelsPop(a, b, step.paths, k);
      AppendAssoc(b, step.paths, FoldLevel(succ, a[1..], step.visited).paths);
      RunLevel(run, succ, k, a[1..], b + step.paths, State(TwoLevels(a[1..], b + step.paths, k), step.visited), t);
    }
  }

  lemma {:induction false} ExpandIsFold(q: Query, k: nat, paths: seq<Path>, visited: set<string>,
                                        succ: (Path, set<string>) -> Admitted)
    requires k < |q.hops|
    requires forall p, v :: succ(p, v) == Successors(q, Entry(p, k), v)
    ensures ExpandLevel(q, k, paths, visited) == FoldLevel(succ, paths, visited)
    decreases |paths|
  {
    if paths != [] {
      ExpandIsFold(q, k, paths[1..], succ(paths[0], visited).visited, succ);
    }
  }

  lemma NextGrows(q: Query, s: State)
    requires s.queue != [] && s.queue[0].hopIdx < Depth(q)
    ensures Next(q, s) == Push(s, Successors(q, s.queue[0], s.visited), s.queue[0].hopIdx + 1)
  {
  }

  /** A run without an error met no filter that does not compile. */
  lemma DrainSilent(q: Query, s: State, s': State)
    requires Drain(q, s).Ok? && s.queue != [] && s.queue[0].hopIdx < Depth(q)
    requires s' == Next(q, s)
    ensures Drain(q, s) == Drain(q, s')
  {
    assert !IsResult(q, s.queue[0]);
  }

  /** If all filters compile, no run ends in an error. */
  lemma {:induction false} CompiledRun(q: Query, s: State)
    requires FiltersCompile(q)
    ensures Drain(q, s).Ok?
    decreases Measure(q, s)
  {
    if s.queue != [] {
      var e := s.queue[0];
      if !IsResult(q, e) {
        assert q.hops[e.hopIdx] in q.hops;
      }
      CompiledRun(q, Next(q, s));
    }
  }

  lemma DrainTurn(q: Query, k: nat, s: State, a: Admitted)
    requires k < Depth(q) && s.queue != [] && s.queue[0].hopIdx == k && Drain(q, s).Ok?
    requires a == Successors(q, Entry(s.queue[0].path, k), s.visited)
    ensures Drain(q, s) == Drain(q, State(s.queue[1..] + NewEntries(a.paths, k + 1), a.visited))
  {
    assert s.queue[0] == Entry(s.queue[0].path, k);
    NextGrows(q, s);
    DrainSilent(q, s, State(s.queue[1..] + NewEntries(a.paths, k + 1), a.visited));
  }

  lemma DrainTurns(q: Query, k: nat, run: State -> Result<seq<Path>, Error>, succ: (Path, set<string>) -> Admitted)
    requires k < Depth(q)
    requires forall s :: run(s) == Drain(q, s)
    requires forall p, v :: succ(p, v) == Successors(q, Entry(p, k), v)
    ensures TurnLaw(run, succ, k)
  {
    forall s: State | s.queue != [] && s.queue[0].hopIdx == k && run(s).Ok?
      ensures run(s) == run(State(s.queue[1..] + NewEntries(succ(s.queue[0].path, s.visited).paths, k + 1),
                                  succ(s.queue[0].path, s.visited).visited))
    {
      DrainTurn(q, k, s, succ(s.queue[0].path, s.visited));
    }
  }

  lemma DrainLevel(q: Query, k: nat, a: seq<Path>, s: State, t: State)
    requires Drain(q, s).Ok? && k < Depth(q)
    requires s.queue == NewEntries(a, k)
    requires var done := ExpandLevel(q, k, a, s.visited);
             t.queue == NewEntries(done.paths, k + 1) && t.visited == done.visited
    ensures Drain(q, s) == Drain(q, t)
  {
    var run, succ := DrainOf(q), SuccessorsOf(q, k);
    DrainTurns(q, k, run, succ);
    ExpandIsFold(q, k, a, s.visited, succ);
    FirstLevelOnly(run, succ, k, a, s, t);
  }

  function DrainOf(q: Query): State -> Result<seq<Path>, Error> {
    (s: State) => Drain(q, s)
  }

  function SuccessorsOf(q: Query, k: nat): (Path, set<string>) -> Admitted
    requires k < |q.hops|
  {
    (p: Path, v: set<string>) => Successors(q, Entry(p, k), v)
  }

  lemma FirstLevelOnly(run: State -> Result<seq<Path>, Error>, succ: (Path, set<string>) -> Admitted, k: nat,
                       a: seq<Path>, s: State, t: State)
    requires TurnLaw(run, succ, k) && s.queue == NewEntries(a, k) && run(s).Ok?
    requires var done := FoldLevel(succ, a, s.visited);
             t.queue == NewEntries(done.paths, k + 1) && t.visited == done.visited
    ensures run(s) == run(t)
  {
    assert s.queue == TwoLevels(a, [], k);
    assert [] + FoldLevel(succ, a, s.visited).paths == FoldLevel(succ, a, s.visited).paths;
    RunLevel(run, succ, k, a, [], s, t);
  }

  lemma DrainLastLevel(q: Query, k: nat, a: seq<Path>, visited: set<string>)
    requires k >= Depth(q)
    ensures Drain(q, State(NewEntries(a, k), visited)) == Ok(a)
  {
    var s := State(NewEntries(a, k), visited);
    assert forall i :: 0 <= i < |s.queue| ==> IsResult(q, s.queue[i]);
    DrainResults(q, s);
    assert PathsOf(s.queue) == a;
  }

  /** The paths and the visited set when level `k` starts. */
  function LevelState(q: Query, start: Node, k: nat): Admitted
    requires k <= |q.hops|
  {
    if k == 0 then Admitted([Path(start, [])], {VisitKey(RefOf(start))})
    else
      var before := LevelState(q, start, k - 1);
      ExpandLevel(q, k - 1, before.paths, before.visited)
  }

  function LevelQueue(q: Query, start: Node, k: nat): State
    requires k <= |q.hops|
  {
    State(NewEntries(LevelState(q, start, k).paths, k), LevelState(q, start, k).visited)
  }

  lemma FreshIsLevelZero(q: Query, start: Node)
    ensures Fresh(start) == LevelQueue(q, start, 0)
  {
  }

  lemma DrainNextLevel(q: Query, start: Node, k: nat)
    requires k < Depth(q) && Drain(q, LevelQueue(q, start, k)).Ok?
    ensures Drain(q, LevelQueue(q, start, k)) == Drain(q, LevelQueue(q, start, k + 1))
  {
    DrainLevel(q, k, LevelState(q, start, k).paths, LevelQueue(q, start, k), LevelQueue(q, start, k + 1));
  }

  /** The run from level `j` on, if it is without an error, is the run from the next level on. */
  predicate SameFromNext(run: nat -> Result<seq<Path>, Error>, j: nat) {
    run(j).Ok? ==> run(j) == run(j + 1)
  }

  lemma {:induction false} Chain(run: nat -> Result<seq<Path>, Error>, k: nat)
    requires run(0).Ok? && forall j: nat :: j < k ==> SameFromNext(run, j)
    ensures run(0) == run(k)
  {
    if k > 0 {
      Chain(run, k - 1);
      assert SameFromNext(run, k - 1);
    }
  }

  function LevelRun(q: Query, start: Node, j: nat): Result<seq<Path>, Error> {
    if j <= Depth(q) then Drain(q, LevelQueue(q, start, j)) else Err(CelSyntax)
  }

  lemma LevelRunStep(q: Query, start: Node, j: nat)
    requires j < Depth(q)
    ensures LevelRun(q, start, j).Ok? ==> LevelRun(q, start, j) == LevelRun(q, start, j + 1)
  {
    if LevelRun(q, start, j).Ok? {
      DrainNextLevel(q, start, j);
    }
  }

  function RunsFrom(q: Query, start: Node): nat -> Result<seq<Path>, Error> {
    (j: nat) => LevelRun(q, start, j)
  }

  lemma RunsFromStep(q: Query, start: Node, j: nat)
    requires j < Depth(q)
    ensures SameFromNext(RunsFrom(q, start), j)
  {
    LevelRunStep(q, start, j);
  }

  lemma RunsFromEnds(q: Query, start: Node, run: nat -> Result<seq<Path>, Error>)
    requires run == RunsFrom(q, start) && run(0).Ok?
    ensures run(0) == run(Depth(q))
  {
    forall j: nat | j < Depth(q)
      ensures SameFromNext(run, j)
    {
      RunsFromStep(q, start, j);
    }
    Chain(run, Depth(q));
  }

  lemma LevelRunEnds(q: Query, start: Node)
    requires LevelRun(q, start, 0).Ok?
    ensures LevelRun(q, start, 0) == LevelRun(q, start, Depth(q))
  {
    RunsFromEnds(q, start, RunsFrom(q, start));
  }

  ghost predicate LevelInvariant(q: Query, start: Node, k: nat, l: Admitted)
    requires k <= |q.hops|
  {
    var ref := LevelsAt(q, RefOf(start), k);
    && NoDup(Ends(l.paths)) && SetOf(Ends(l.paths)) == ref.level
    && l.visited == Keys(ref.seen) && ref.seen <= q.graph.nodes.Keys
    && PathsAt(q, start, k, l.paths, l.visited)
  }

  lemma LevelStart(q: Query, start: Node)
    requires RefOf(start) in q.graph.nodes
    ensures LevelInvariant(q, start, 0, LevelState(q, start, 0))
  {
    assert Ends([Path(start, [])]) == [RefOf(start)];
  }

  lemma LevelNext(q: Query, start: Node, k: nat, before: Admitted, a: Admitted)
    requires KeysDistinct(q.graph.nodes.Keys) && k < |q.hops|
    requires LevelInvariant(q, start, k, before)
    requires LevelSpec(q, start, k, before.paths, before.visited, a)
    ensures LevelInvariant(q, start, k + 1, a)
  {
    FresherIsNext(q, k, LevelsAt(q, RefOf(start), k));
  }

  type LevelProperty = (nat, Admitted) -> bool

  /** The property passes from level `j` to the next. */
  predicate Passes(holds: LevelProperty, levels: nat -> Admitted, j: nat) {
    holds(j, levels(j)) ==> holds(j + 1, levels(j + 1))
  }

  lemma {:induction false} ByLevels(holds: LevelProperty, levels: nat -> Admitted, k: nat)
    requires holds(0, levels(0))
    requires forall j: nat :: j < k ==> Passes(holds, levels, j)
    ensures holds(k, levels(k))
  {
    if k > 0 {
      ByLevels(holds, levels, k - 1);
      assert Passes(holds, levels, k - 1);
    }
  }

  function LevelsOf(q: Query, start: Node): nat -> Admitted {
    (j: nat) => if j <= |q.hops| then LevelState(q, start, j) else Admitted([], {})
  }

  ghost function InvariantOf(q: Query, start: Node): LevelProperty {
    (k: nat, a: Admitted) => k <= |q.hops| && LevelInvariant(q, start, k, a)
  }

  lemma InvariantIs(q: Query, start: Node, k: nat, a: Admitted)
    ensures InvariantOf(q, start)(k, a) <==> k <= |q.hops| && LevelInvariant(q, start, k, a)
  {
  }

  lemma InvariantStep(q: Query, start: Node, j: nat, a: Admitted)
    requires WellFormed(q.graph) && KeysDistinct(q.graph.nodes.Keys) && j < |q.hops| && InvariantOf(q, start)(j, a)
    ensures InvariantOf(q, start)(j + 1, ExpandLevel(q, j, a.paths, a.visited))
  {
    var b := ExpandLevel(q, j, a.paths, a.visited);
    InvariantIs(q, start, j, a);
    LevelStep(q, start, j, a, b);
    InvariantIs(q, start, j + 1, b);
  }

  lemma NextLevelOf(q: Query, start: Node, levels: nat -> Admitted, j: nat)
    requires levels == LevelsOf(q, start) && j < |q.hops|
    ensures levels(j + 1) == ExpandLevel(q, j, levels(j).paths, levels(j).visited)
  {
  }

  lemma InvariantPasses(q: Query, start: Node, holds: LevelProperty, levels: nat -> Admitted, j: nat)
    requires WellFormed(q.graph) && KeysDistinct(q.graph.nodes.Keys) && j < |q.hops|
    requires holds == InvariantOf(q, start) && levels == LevelsOf(q, start)
    ensures Passes(holds, levels, j)
  {
    NextLevelOf(q, start, levels, j);
    if holds(j, levels(j)) {
      InvariantStep(q, start, j, levels(j));
    }
  }

  lemma LevelHoldsAs(q: Query, start: Node, k: nat, holds: LevelProperty, levels: nat -> Admitted)
    requires WellFormed(q.graph) && KeysDistinct(q.graph.nodes.Keys) && k <= |q.hops|
    requires holds == InvariantOf(q, start) && levels == LevelsOf(q, start) && holds(0, levels(0))
    ensures holds(k, levels(k))
  {
    forall j: nat | j < k
      ensures Passes(holds, levels, j)
    {
      InvariantPasses(q, start, holds, levels, j);
    }
    ByLevels(holds, levels, k);
  }

  lemma LevelHolds(q: Query, start: Node, k: nat)
    requires WellFormed(q.graph) && KeysDistinct(q.graph.nodes.Keys)
    requires RefOf(start) in q.graph.nodes && k <= |q.hops|
    ensures LevelInvariant(q, start, k, LevelState(q, start, k))
  {
    LevelStart(q, start);
    InvariantIs(q, start, 0, LevelState(q, start, 0));
    LevelHoldsAs(q, start, k, InvariantOf(q, start), LevelsOf(q, start));
    InvariantIs(q, start, k, LevelState(q, start, k));
  }

  lemma LevelStep(q: Query, start: Node, k: nat, before: Admitted, a: Admitted)
    requires WellFormed(q.graph) && KeysDistinct(q.graph.nodes.Keys) && k < |q.hops|
    requires LevelInvariant(q, start, k, before) && a == ExpandLevel(q, k, before.paths, before.visited)
    ensures LevelInvariant(q, start, k + 1, a)
  {
    LevelMeets(q, start, k, before.paths, before.visited);
    LevelNext(q, start, k, before, a);
  }

  lemma FresherIsNext(q: Query, k: nat, ref: Levels)
    requires KeysDistinct(q.graph.nodes.Keys) && k < |q.hops| && ref.seen <= q.graph.nodes.Keys
    ensures FresherLevel(q, k, ref.level, Keys(ref.seen)) == Reached(q, k, ref.level) - ref.seen
    ensures Reached(q, k, ref.level) <= q.graph.nodes.Keys
    ensures forall more :: Keys(ref.seen) + Keys(more) == Keys(ref.seen + more)
  {
    forall t | t in Reached(q, k, ref.level)
      ensures t in q.graph.nodes.Keys
      ensures VisitKey(t) in Keys(ref.seen) <==> t in ref.seen
    {
    }
  }

  /**
   * Whatever its filters: the end nodes of an untruncated run without an error are exactly level min(hops, max_depth), each once,
   * and every result path consists of exactly that many valid hops and repeats no node.
   */
  lemma UntruncatedRun(q: Query, start: Node)
    requires WellFormed(q.graph) && Drain(q, Fresh(start)).Ok?
    requires RefOf(start) in q.graph.nodes
    requires forall r :: r in q.graph.nodes ==> ColonFree(r.id)
    ensures var out := Drain(q, Fresh(start));
            && NoDup(Ends(out.value))
            && SetOf(Ends(out.value)) == LevelsAt(q, RefOf(start), Depth(q)).level
            && forall p :: p in out.value ==> ValidPath(q, start, p, Depth(q))
  {
    forall a, b | a in q.graph.nodes.Keys && b in q.graph.nodes.Keys && VisitKey(a) == VisitKey(b)
      ensures a == b
    {
      VisitKeyInjective(a, b);
    }
    var d := Depth(q);
    LevelHolds(q, start, d);
    FreshIsLevelZero(q, start);
    LevelRunEnds(q, start);
    DrainLastLevel(q, d, LevelState(q, start, d).paths, LevelState(q, start, d).visited);
  }

  /** A page that returns no token is the whole untruncated run. */
  lemma UntruncatedPage(q: Query, start: Node, max: nat, page: Result<(seq<Path>, State), Error>)
    requires WellFormed(q.graph)
    requires RefOf(start) in q.graph.nodes
    requires forall r :: r in q.graph.nodes ==> ColonFree(r.id)
    requires page == RunPage(q, Fresh(start), max, []) && page.Ok? && page.value.1.queue == []
    ensures NoDup(Ends(page.value.0)) && SetOf(Ends(page.value.0)) == LevelsAt(q, RefOf(start), Depth(q)).level
    ensures forall p :: p in page.value.0 ==> ValidPath(q, start, p, Depth(q))
  {
    WholePage(q, Fresh(start), max, page);
    UntruncatedRun(q, start);
  }

  lemma WholePage(q: Query, s: State, max: nat, page: Result<(seq<Path>, State), Error>)
    requires page == RunPage(q, s, max, []) && (page.Ok? ==> page.value.1.queue == [])
    ensures Drain(q, s) == if page.Ok? then Ok(page.value.0) else Err(page.error)
  {
    PageThenDrain(q, s, max, []);
    PrependEmpty(Drain(q, s));
    if page.Ok? {
      assert page.value.0 + [] == page.value.0;
    }
  }
}
