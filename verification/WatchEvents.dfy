/**
 * Which events a watch emits, for every filter and every operation: kind, endpoints and payload
 * (crates/pelago-api/src/watch_service.rs).
 */
module WatchEvents {
  import opened Common
  import opened ByteOrder
  import opened NodeKeys
  import opened Cdc
  import opened Watch

  /** The endpoints of an edge operation. */
  function Endpoints(op: Operation): Option<(NodeRef, NodeRef)> {
    match op
    case EdgeCreate(st, sid, tt, tid, _, _, _) => Some((NodeRef(st, sid), NodeRef(tt, tid)))
    case EdgeDelete(st, sid, tt, tid, _) => Some((NodeRef(st, sid), NodeRef(tt, tid)))
    case _ => None
  }

  /** What a node event about the operation carries: all properties of a new node, the changed ones of an old. */
  function Payload(op: Operation): Properties {
    match op
    case NodeCreate(_, _, properties, _) => properties
    case NodeUpdate(_, _, changed, _) => changed
    case _ => map[]
  }

  /** The one event that announces the operation itself. */
  function Announcement(op: Operation): seq<WatchEvent> {
    match op
    case NodeCreate(t, id, _, _) => [NodeEvent(Enter, NodeRef(t, id), Payload(op))]
    case NodeUpdate(t, id, _, _) => [NodeEvent(Update, NodeRef(t, id), Payload(op))]
    case NodeDelete(t, id) => [NodeEvent(Delete, NodeRef(t, id), Payload(op))]
    case OwnershipTransfer(t, id, _, _) => [NodeEvent(Update, NodeRef(t, id), Payload(op))]
    case EdgeCreate(st, sid, tt, tid, edgeType, _, _) => [EdgeEvent(Update, NodeRef(st, sid), NodeRef(tt, tid), edgeType)]
    case EdgeDelete(st, sid, tt, tid, edgeType) => [EdgeEvent(Delete, NodeRef(st, sid), NodeRef(tt, tid), edgeType)]
    case SchemaRegister(_, _) => []
  }

  // ---- namespace and point watches ----

  /** The watched edge, if it names a far end, runs from `a` to `b`, otherwise from `a` to anywhere. */
  predicate RunsFrom(w: PointEdge, a: NodeRef, b: NodeRef) {
    w.source == a && (w.target == None || w.target == Some(b))
  }

  predicate EdgeWatched(w: PointEdge, source: NodeRef, target: NodeRef, edgeType: string) {
    && (w.onlyLabel == "" || w.onlyLabel == edgeType)
    && ((w.direction != Incoming && RunsFrom(w, source, target)) || (w.direction != Outgoing && RunsFrom(w, target, source)))
  }

  /** The node is watched as a whole, or for a property the operation changes. */
  predicate NodeWatched(n: PointNode, op: Operation) {
    && Some(n.ref) == Target(op)
    && (op.NodeUpdate? && n.properties != {} ==> exists k :: k in n.properties && k in op.changed)
  }

  function EdgeTypeOf(op: Operation): string {
    match op
    case EdgeCreate(_, _, _, _, edgeType, _, _) => edgeType
    case EdgeDelete(_, _, _, _, edgeType) => edgeType
    case _ => ""
  }

  /** What a point watch asks to hear of. */
  predicate PointWants(nodes: seq<PointNode>, edges: seq<PointEdge>, op: Operation) {
    var ends := Endpoints(op);
    if ends.None? then exists n :: n in nodes && NodeWatched(n, op)
    else
      || (exists n :: n in nodes && (n.ref == ends.value.0 || n.ref == ends.value.1))
      || (exists w :: w in edges && EdgeWatched(w, ends.value.0, ends.value.1, EdgeTypeOf(op)))
  }

  lemma EdgeWatchedIs(w: PointEdge, source: NodeRef, target: NodeRef, edgeType: string)
    ensures PointEdgeMatches(w, source, target, edgeType) <==> EdgeWatched(w, source, target, edgeType)
  {
  }

  lemma PropertyWatched(n: PointNode, changed: Properties)
    ensures n.properties * changed.Keys != {} <==> exists k :: k in n.properties && k in changed
  {
    if k :| k in n.properties && k in changed {
      assert k in n.properties * changed.Keys;
    }
    if n.properties * changed.Keys != {} {
      var k :| k in n.properties * changed.Keys;
    }
  }

  /** A point watch announces exactly the operations it asks for, each by its one event. */
  lemma PointEvents(nodes: seq<PointNode>, edges: seq<PointEdge>, matched: set<string>, op: Operation)
    ensures React(Point(nodes, edges), matched, op)
         == Reaction(matched, if PointWants(nodes, edges, op) then Announcement(op) else [])
  {
    var f := Point(nodes, edges);
    if Endpoints(op).Some? {
      var (source, target) := Endpoints(op).value;
      forall w | w in edges
        ensures PointEdgeMatches(w, source, target, EdgeTypeOf(op)) <==> EdgeWatched(w, source, target, EdgeTypeOf(op))
      {
        EdgeWatchedIs(w, source, target, EdgeTypeOf(op));
      }
      assert EdgeScope(f, source, target, EdgeTypeOf(op)) <==> PointWants(nodes, edges, op);
    } else if op.NodeUpdate? {
      forall n | n in nodes
        ensures n.properties * op.changed.Keys != {} <==> exists k :: k in n.properties && k in op.changed
      {
        PropertyWatched(n, op.changed);
      }
      assert UpdateScope(f, Target(op).value, op.changed) <==> PointWants(nodes, edges, op);
    } else if Target(op).Some? {
      assert NodeScope(f, Target(op).value) <==> PointWants(nodes, edges, op);
    }
  }

  /** A namespace watch announces every operation. */
  lemma NamespaceEvents(matched: set<string>, op: Operation)
    ensures React(Namespace, matched, op) == Reaction(matched, Announcement(op))
  {
  }

  predicate Wants(f: WatchFilter, op: Operation)
    requires !f.OnQuery?
  {
    f.Point? ==> PointWants(f.nodes, f.edges, op)
  }

  /** The announcements of the wanted operations, in order. */
  function Announced(f: WatchFilter, ops: seq<Operation>): seq<WatchEvent>
    requires !f.OnQuery?
  {
    if ops == [] then []
    else
      var last := ops[|ops| - 1];
      Announced(f, ops[..|ops| - 1]) + (if Wants(f, last) then Announcement(last) else [])
  }

  /** Over a whole log, a namespace or point watch emits exactly the announcements it wants and tracks nothing. */
  lemma {:induction false} UntrackedEvents(f: WatchFilter, matched: set<string>, ops: seq<Operation>)
    requires !f.OnQuery?
    ensures ReactAll(f, matched, ops) == Reaction(matched, Announced(f, ops))
    decreases |ops|
  {
    if ops != [] {
      var n := |ops| - 1;
      UntrackedEvents(f, matched, ops[..n]);
      if f.Point? {
        PointEvents(f.nodes, f.edges, matched, ops[n]);
      } else {
        NamespaceEvents(matched, ops[n]);
      }
    }
  }

  // ---- query watches ----

  /** The node is in the answer. */
  predicate Answers(q: Query, live: Live, r: NodeRef) {
    r in live && QueryMatches(q, r, live[r])
  }

  /** The event that tells a client of a change from `was` to `now`. */
  function Change(op: Operation, r: NodeRef, was: bool, now: bool): seq<WatchEvent> {
    if now then [NodeEvent(if was then Update else Enter, r, Payload(op))]
    else if was then [NodeEvent(if op.NodeDelete? then Delete else Exit, r, Payload(op))]
    else []
  }

  /** What a client has to be told of one operation: changes of the answer, and edges that touch it. */
  function Told(q: Query, live: Live, op: Operation): seq<WatchEvent> {
    if Target(op).Some? then
      var r := Target(op).value;
      Change(op, r, Answers(q, live, r), Answers(q, Replay(live, op), r))
    else if Endpoints(op).Some? then
      var ends := Endpoints(op).value;
      if Answers(q, live, ends.0) || Answers(q, live, ends.1) then Announcement(op) else []
    else []
  }

  ghost predicate ColonFreeEnds(op: Operation) {
    Endpoints(op).Some? ==> ColonFree(Endpoints(op).value.0.id) && ColonFree(Endpoints(op).value.1.id)
  }

  /**
   * On an exact view each node operation is announced by exactly the change it makes to the answer,
   * and each edge operation exactly if it touches the answer, with its own ends and type.
   */
  lemma EventsTellChange(q: Query, live: Live, op: Operation)
    requires ColonFreeNodes(live) && TrueTo(live, op) && ColonFreeEnds(op)
    ensures React(OnQuery(q), Matching(q, live), op).events == Told(q, live, op)
  {
    if Target(op).Some? {
      MatchingKey(q, live, Target(op).value);
    } else if Endpoints(op).Some? {
      MatchingKey(q, live, Endpoints(op).value.0);
      MatchingKey(q, live, Endpoints(op).value.1);
    }
  }

  function ToldAll(q: Query, live: Live, ops: seq<Operation>): seq<WatchEvent> {
    if ops == [] then []
    else ToldAll(q, live, ops[..|ops| - 1]) + Told(q, ReplayAll(live, ops[..|ops| - 1]), ops[|ops| - 1])
  }

  lemma TellsOneMore(q: Query, live: Live, op: Operation)
    requires ColonFreeNodes(live) && TrueTo(live, op) && ColonFreeEnds(op)
    ensures React(OnQuery(q), Matching(q, live), op).events == Told(q, live, op)
    ensures React(OnQuery(q), Matching(q, live), op).matched == Matching(q, Replay(live, op))
    ensures ColonFreeNodes(Replay(live, op))
  {
    EventsTellChange(q, live, op);
    ReactKeepsBetween(q, live, Matching(q, live), {}, op);
  }

  /** Over a whole log, a query watch that starts exact emits exactly what the client has to be told, in order. */
  lemma {:induction false} QueryEvents(q: Query, live: Live, ops: seq<Operation>)
    requires ColonFreeNodes(live) && TrueLog(live, ops) && forall i :: 0 <= i < |ops| ==> ColonFreeEnds(ops[i])
    ensures ReactAll(OnQuery(q), Matching(q, live), ops)
         == Reaction(Matching(q, ReplayAll(live, ops)), ToldAll(q, live, ops))
    ensures ColonFreeNodes(ReplayAll(live, ops))
    decreases |ops|
  {
    if ops != [] {
      var n := |ops| - 1;
      var before := ReplayAll(live, ops[..n]);
      TrueLogPrefix(live, ops, n);
      QueryEvents(q, live, ops[..n]);
      assert TrueTo(before, ops[n]);
      TellsOneMore(q, before, ops[n]);
    }
  }

  /** Whatever is tracked, a query watch speaks of nodes of its types only. */
  lemma TypedEvents(q: Query, matched: set<string>, op: Operation, e: WatchEvent)
    requires e in React(OnQuery(q), matched, op).events && e.NodeEvent?
    ensures q.entityType != "" ==> e.node.entityType == q.entityType
    ensures q.rootType.Some? ==> e.node.entityType == q.rootType.value
  {
  }

  /** A node of the types the query names is in the answer exactly if it is live and the predicate accepts it. */
  lemma TypedAnswers(q: Query, live: Live, r: NodeRef)
    requires q.entityType == "" || q.entityType == r.entityType
    requires q.rootType.None? || q.rootType.value == r.entityType
    ensures Answers(q, live, r) <==> r in live && q.accepts(r.entityType, live[r])
  {
  }
}
