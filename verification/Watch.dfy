/**
 * Query watches as an incrementally maintained view
 * (crates/pelago-api/src/watch_service.rs and its filter module).
 */
module Watch {
  import opened Common
  import opened ByteOrder
  import opened NodeKeys
  import opened Cdc

  // ---- filters ----

  datatype PointNode = PointNode(ref: NodeRef, properties: set<string>)

  datatype EdgeDirection = Outgoing | Incoming | Both

  datatype PointEdge = PointEdge(source: NodeRef, onlyLabel: string, target: Option<NodeRef>, direction: EdgeDirection)

  /** The scope of a query and its CEL/PQL predicate, which is uninterpreted. */
  datatype Query = Query(entityType: string, rootType: Option<string>, accepts: (string, Properties) -> bool)

  datatype WatchFilter =
    | Point(nodes: seq<PointNode>, edges: seq<PointEdge>)
    | OnQuery(query: Query)
    | Namespace

  predicate QueryScope(q: Query, entityType: string) {
    (q.entityType == "" || q.entityType == entityType) && (q.rootType.Some? ==> q.rootType.value == entityType)
  }

  predicate QueryMatches(q: Query, r: NodeRef, properties: Properties) {
    QueryScope(q, r.entityType) && q.accepts(r.entityType, properties)
  }

  predicate NodeScope(f: WatchFilter, r: NodeRef) {
    match f
    case Namespace => true
    case Point(nodes, _) => exists n :: n in nodes && n.ref == r
    case OnQuery(q) => QueryScope(q, r.entityType)
  }

  predicate UpdateScope(f: WatchFilter, r: NodeRef, changed: Properties) {
    match f
    case Point(nodes, _) =>
      exists n :: n in nodes && n.ref == r && (n.properties == {} || n.properties * changed.Keys != {})
    case _ => NodeScope(f, r)
  }

  predicate PointEdgeMatches(t: PointEdge, source: NodeRef, target: NodeRef, edgeType: string) {
    var outbound := t.source == source && (t.target.Some? ==> t.target.value == target);
    var inbound := t.source == target && (t.target.Some? ==> t.target.value == source);
    && (t.onlyLabel != "" ==> t.onlyLabel == edgeType)
    && match t.direction
       case Incoming => inbound
       case Both => outbound || inbound
       case Outgoing => outbound
  }

  predicate EdgeScope(f: WatchFilter, source: NodeRef, target: NodeRef, edgeType: string) {
    match f
    case Namespace => true
    case Point(nodes, edges) =>
      || (exists n :: n in nodes && (n.ref == source || n.ref == target))
      || (exists e :: e in edges && PointEdgeMatches(e, source, target, edgeType))
    case OnQuery(q) => QueryScope(q, source.entityType) || QueryScope(q, target.entityType)
  }

  // ---- events ----

  datatype EventType = Enter | Update | Exit | Delete

  datatype WatchEvent =
    | NodeEvent(kind: EventType, node: NodeRef, properties: Properties)
    | EdgeEvent(kind: EventType, source: NodeRef, target: NodeRef, edgeType: string)

  datatype Reaction = Reaction(matched: set<string>, events: seq<WatchEvent>)

  function Touches(matched: set<string>, source: NodeRef, target: NodeRef): bool {
    VisitKey(source) in matched || VisitKey(target) in matched
  }

  function OnEdge(f: WatchFilter, matched: set<string>, source: NodeRef, target: NodeRef, edgeType: string,
                  kind: EventType): Reaction {
    if !EdgeScope(f, source, target, edgeType) || (f.OnQuery? && !Touches(matched, source, target)) then Reaction(matched, [])
    else Reaction(matched, [EdgeEvent(kind, source, target, edgeType)])
  }

  function OnUpdate(f: WatchFilter, matched: set<string>, r: NodeRef, changed: Properties,
                    previous: Properties): Reaction {
    if !UpdateScope(f, r, changed) then Reaction(matched, [])
    else if !f.OnQuery? then Reaction(matched, [NodeEvent(Update, r, changed)])
    else
      var key := VisitKey(r);
      var wasMatch := key in matched || QueryMatches(f.query, r, previous);
      var newMatch := QueryMatches(f.query, r, previous + changed);
      if newMatch then
        Reaction(matched + {key}, [NodeEvent(if wasMatch then Update else Enter, r, changed)])
      else if wasMatch then Reaction(matched - {key}, [NodeEvent(Exit, r, changed)])
      else Reaction(matched, [])
  }

  /** What one CDC operation does to the tracked set and which events it emits. */
  function React(f: WatchFilter, matched: set<string>, op: Operation): Reaction {
    match op
    case NodeCreate(t, id, properties, _) =>
      var r := NodeRef(t, id);
      if !NodeScope(f, r) || (f.OnQuery? && !QueryMatches(f.query, r, properties)) then Reaction(matched, [])
      else Reaction(if f.OnQuery? then matched + {VisitKey(r)} else matched, [NodeEvent(Enter, r, properties)])
    case NodeUpdate(t, id, changed, previous) => OnUpdate(f, matched, NodeRef(t, id), changed, previous)
    case NodeDelete(t, id) =>
      var r := NodeRef(t, id);
      if !NodeScope(f, r) || (f.OnQuery? && VisitKey(r) !in matched) then Reaction(matched, [])
      else Reaction(if f.OnQuery? then matched - {VisitKey(r)} else matched, [NodeEvent(Delete, r, map[])])
    case EdgeCreate(st, sid, tt, tid, edgeType, _, _) =>
      OnEdge(f, matched, NodeRef(st, sid), NodeRef(tt, tid), edgeType, Update)
    case EdgeDelete(st, sid, tt, tid, edgeType) =>
      OnEdge(f, matched, NodeRef(st, sid), NodeRef(tt, tid), edgeType, Delete)
    case SchemaRegister(_, _) => Reaction(matched, [])
    case OwnershipTransfer(t, id, _, _) =>
      var r := NodeRef(t, id);
      if !NodeScope(f, r) || (f.OnQuery? && VisitKey(r) !in matched) then Reaction(matched, [])
      else Reaction(matched, [NodeEvent(Update, r, map[])])
  }

  /** One reaction after another. */
  function Then(a: Reaction, b: Reaction): Reaction {
    Reaction(b.matched, a.events + b.events)
  }

  function ReactAll(f: WatchFilter, matched: set<string>, ops: seq<Operation>): Reaction {
    if ops == [] then Reaction(matched, [])
    else
      var before := ReactAll(f, matched, ops[..|ops| - 1]);
      Then(before, React(f, before.matched, ops[|ops| - 1]))
  }

  function OpsOf(records: seq<Record>): seq<Operation> {
    if records == [] then [] else OpsOf(records[..|records| - 1]) + records[|records| - 1].entry.operations
  }

  // ---- the subscription loop ----

  const PAGE: nat := 256

  class Subscription {
    const filter: WatchFilter
    var matched: set<string>
    var after: Stamp

    constructor (filter: WatchFilter, after: Stamp, restored: set<string>)
      ensures this.filter == filter && this.after == after && matched == restored
    {
      this.filter := filter;
      this.after := after;
      matched := restored;
    }

    method OnOperation(op: Operation) returns (events: seq<WatchEvent>)
      modifies this`matched
      ensures Reaction(matched, events) == React(filter, old(matched), op)
    {
      events := [];
      match op {
        case NodeCreate(t, id, properties, _) =>
          var r := NodeRef(t, id);
          if !NodeScope(filter, r) {
            return;
          }
          if filter.OnQuery? {
            if !QueryMatches(filter.query, r, properties) {
              return;
            }
            matched := matched + {VisitKey(r)};
          }
          events := [NodeEvent(Enter, r, properties)];
        case NodeUpdate(t, id, changed, previous) =>
          var r := NodeRef(t, id);
          if !UpdateScope(filter, r, changed) {
            return;
          }
          var kind := Update;
          if filter.OnQuery? {
            var oldMatch := QueryMatches(filter.query, r, previous);
            var newMatch := QueryMatches(filter.query, r, previous + changed);
            var key := VisitKey(r);
            var wasMatch := key in matched || oldMatch;
            if newMatch {
              kind := if wasMatch then Update else Enter;
              matched := matched + {key};
            } else if wasMatch {
              kind := Exit;
              matched := matched - {key};
            } else {
              return;
            }
          }
          events := [NodeEvent(kind, r, changed)];
        case NodeDelete(t, id) =>
          var r := NodeRef(t, id);
          if !NodeScope(filter, r) {
            return;
          }
          if filter.OnQuery? {
            if VisitKey(r) !in matched {
              return;
            }
            matched := matched - {VisitKey(r)};
          }
          events := [NodeEvent(Delete, r, map[])];
        case EdgeCreate(st, sid, tt, tid, edgeType, _, _) =>
          var source, target := NodeRef(st, sid), NodeRef(tt, tid);
          if !EdgeScope(filter, source, target, edgeType) {
            return;
          }
          if filter.OnQuery? && VisitKey(source) !in matched && VisitKey(target) !in matched {
            return;
          }
          events := [EdgeEvent(Update, source, target, edgeType)];
        case EdgeDelete(st, sid, tt, tid, edgeType) =>
          var source, target := NodeRef(st, sid), NodeRef(tt, tid);
          if !EdgeScope(filter, source, target, edgeType) {
            return;
          }
          if filter.OnQuery? && VisitKey(source) !in matched && VisitKey(target) !in matched {
            return;
          }
          events := [EdgeEvent(Delete, source, target, edgeType)];
        case SchemaRegister(_, _) =>
        case OwnershipTransfer(t, id, _, _) =>
          var r := NodeRef(t, id);
          if !NodeScope(filter, r) {
            return;
          }
          if filter.OnQuery? && VisitKey(r) !in matched {
            return;
          }
          events := [NodeEvent(Update, r, map[])];
      }
    }

    method OnOperations(ops: seq<Operation>) returns (events: seq<WatchEvent>)
      modifies this`matched
      ensures Reaction(matched, events) == ReactAll(filter, old(matched), ops)
    {
      events := [];
      var i := 0;
      while i < |ops|
        invariant 0 <= i <= |ops|
        invariant Reaction(matched, events) == ReactAll(filter, old(matched), ops[..i])
      {
        assert ops[..i + 1][..i] == ops[..i];
        var more := OnOperation(ops[i]);
        events := events + more;
        i := i + 1;
      }
      assert ops[..i] == ops;
    }

    /** One turn of the watch loop with an unbounded event queue. */
    method Turn(log: seq<Record>) returns (events: seq<WatchEvent>)
      modifies this`matched, this`after
      ensures var page := ReadCdc(log, Some(old(after)), 256);
              && Reaction(matched, events) == ReactAll(filter, old(matched), OpsOf(page))
              && after == if page == [] then old(after) else page[|page| - 1].stamp
    {
      var page := ReadCdc(log, Some(after), PAGE);
      events := [];
      var i := 0;
      while i < |page|
        invariant 0 <= i <= |page|
        invariant Reaction(matched, events) == ReactAll(filter, old(matched), OpsOf(page[..i]))
        invariant after == if i == 0 then old(after) else page[i - 1].stamp
      {
        RecordStep(filter, old(matched), page, i);
        after := page[i].stamp;
        var more := OnOperations(page[i].entry.operations);
        events := events + more;
        i := i + 1;
      }
      assert page[..i] == page;
    }

    /** React to operations until more than `room` events were emitted: the event that is refused ends it. */
    method OnOperationsUntil(ops: seq<Operation>, room: nat) returns (events: seq<WatchEvent>, j: nat, cut: bool)
      modifies this`matched
      ensures j <= |ops| && Reaction(matched, events) == ReactAll(filter, old(matched), ops[..j])
      ensures if cut then 0 < j && |events| > room else j == |ops| && |events| <= room
    {
      events, j, cut := [], 0, false;
      while j < |ops| && !cut
        invariant 0 <= j <= |ops|
        invariant Reaction(matched, events) == ReactAll(filter, old(matched), ops[..j])
        invariant cut == (|events| > room) && (cut ==> 0 < j)
      {
        assert ops[..j + 1][..j] == ops[..j];
        var more := OnOperation(ops[j]);
        events := events + more;
        j := j + 1;
        cut := |events| > room;
      }
    }

    /**
     * A turn over an event queue that takes `room` events before the subscription is dropped: the
     * position is that of record `i`, of which the first `j` operations were reacted to.
     */
    method CutTurn(log: seq<Record>, room: nat) returns (events: seq<WatchEvent>, i: nat, j: nat, cut: bool)
      modifies this`matched, this`after
      ensures var page := ReadCdc(log, Some(old(after)), 256);
              if cut then
                && i < |page| && 0 < j <= |page[i].entry.operations| && |events| > room
                && after == page[i].stamp
                && matched == ReactAll(filter, old(matched), OpsOf(page[..i]) + page[i].entry.operations[..j]).matched
              else
                && Reaction(matched, events) == ReactAll(filter, old(matched), OpsOf(page)) && |events| <= room
                && after == if page == [] then old(after) else page[|page| - 1].stamp
    {
      var page := ReadCdc(log, Some(after), PAGE);
      events, i, j, cut := [], 0, 0, false;
      while i < |page|
        invariant 0 <= i <= |page| && !cut && |events| <= room
        invariant Reaction(matched, events) == ReactAll(filter, old(matched), OpsOf(page[..i]))
        invariant after == if i == 0 then old(after) else page[i - 1].stamp
      {
        after := page[i].stamp;
        var more;
        more, j, cut := OnOperationsUntil(page[i].entry.operations, room - |events|);
        CutStep(filter, old(matched), page, i, j);
        events := events + more;
        if cut {
          return;
        }
        i := i + 1;
      }
      assert page[..i] == page;
    }
  }

  /** Reacting to the first operations of one more record. */
  lemma CutStep(f: WatchFilter, matched: set<string>, page: seq<Record>, i: nat, j: nat)
    requires i < |page| && j <= |page[i].entry.operations|
    ensures var before, ops := ReactAll(f, matched, OpsOf(page[..i])), page[i].entry.operations;
            && ReactAll(f, matched, OpsOf(page[..i]) + ops[..j]) == Then(before, ReactAll(f, before.matched, ops[..j]))
            && (j == |ops| ==>
                  ReactAll(f, matched, OpsOf(page[..i + 1])) == Then(before, ReactAll(f, before.matched, ops[..j])))
  {
    ReactAllAppend(f, matched, OpsOf(page[..i]), page[i].entry.operations[..j]);
    RecordStep(f, matched, page, i);
    assert j == |page[i].entry.operations| ==> page[i].entry.operations[..j] == page[i].entry.operations;
  }

  lemma ThenAssociates(a: Reaction, b: Reaction, c: Reaction)
    ensures Then(Then(a, b), c) == Then(a, Then(b, c))
  {
    assert a.events + b.events + c.events == a.events + (b.events + c.events);
  }

  lemma ReactAllSnoc(f: WatchFilter, matched: set<string>, ops: seq<Operation>, op: Operation)
    ensures var before := ReactAll(f, matched, ops);
            ReactAll(f, matched, ops + [op]) == Then(before, React(f, before.matched, op))
  {
    assert (ops + [op])[..|ops|] == ops;
  }

  lemma {:induction false} ReactAllAppend(f: WatchFilter, matched: set<string>, a: seq<Operation>, b: seq<Operation>)
    ensures var first := ReactAll(f, matched, a);
            ReactAll(f, matched, a + b) == Then(first, ReactAll(f, first.matched, b))
    decreases |b|
  {
    var first := ReactAll(f, matched, a);
    if b == [] {
      assert a + b == a && first.events + [] == first.events;
    } else {
      var front, op := b[..|b| - 1], b[|b| - 1];
      ReactAllAppend(f, matched, a, front);
      assert b == front + [op] && a + b == (a + front) + [op];
      ReactAllSnoc(f, matched, a + front, op);
      ReactAllSnoc(f, first.matched, front, op);
      var mid := ReactAll(f, first.matched, front);
      ThenAssociates(first, mid, React(f, mid.matched, op));
    }
  }

  /** Reacting to one more record of a page. */
  lemma RecordStep(f: WatchFilter, matched: set<string>, page: seq<Record>, i: nat)
    requires i < |page|
    ensures var before := ReactAll(f, matched, OpsOf(page[..i]));
            ReactAll(f, matched, OpsOf(page[..i + 1])) ==
            Then(before, ReactAll(f, before.matched, page[i].entry.operations))
  {
    assert page[..i + 1][..i] == page[..i];
    ReactAllAppend(f, matched, OpsOf(page[..i]), page[i].entry.operations);
  }

  // ---- the reference: re-evaluating the query on replayed state ----

  type Live = map<NodeRef, Properties>

  function Replay(live: Live, op: Operation): Live {
    match op
    case NodeCreate(t, id, properties, _) => live[NodeRef(t, id) := properties]
    case NodeUpdate(t, id, changed, previous) => live[NodeRef(t, id) := previous + changed]
    case NodeDelete(t, id) => live - {NodeRef(t, id)}
    case _ => live
  }

  function ReplayAll(live: Live, ops: seq<Operation>): Live {
    if ops == [] then live else Replay(ReplayAll(live, ops[..|ops| - 1]), ops[|ops| - 1])
  }

  function Target(op: Operation): Option<NodeRef> {
    match op
    case NodeCreate(t, id, _, _) => Some(NodeRef(t, id))
    case NodeUpdate(t, id, _, _) => Some(NodeRef(t, id))
    case NodeDelete(t, id) => Some(NodeRef(t, id))
    case OwnershipTransfer(t, id, _, _) => Some(NodeRef(t, id))
    case _ => None
  }

  /** Creates target absent nodes, updates carry the true prior state, ids have no colon. */
  ghost predicate TrueTo(live: Live, op: Operation) {
    && (Target(op).Some? ==> ColonFree(Target(op).value.id))
    && match op
       case NodeCreate(t, id, _, _) => NodeRef(t, id) !in live
       case NodeUpdate(t, id, _, previous) => NodeRef(t, id) in live && live[NodeRef(t, id)] == previous
       case _ => true
  }

  ghost predicate TrueLog(live: Live, ops: seq<Operation>) {
    forall i :: 0 <= i < |ops| ==> TrueTo(ReplayAll(live, ops[..i]), ops[i])
  }

  ghost predicate ColonFreeNodes(live: Live) {
    forall r :: r in live ==> ColonFree(r.id)
  }

  function Matching(q: Query, live: Live): set<string> {
    set r | r in live && QueryMatches(q, r, live[r]) :: VisitKey(r)
  }

  /** The key of `r` is in the view exactly when `r` itself is live and matches. */
  lemma MatchingKey(q: Query, live: Live, r: NodeRef)
    requires ColonFreeNodes(live) && ColonFree(r.id)
    ensures VisitKey(r) in Matching(q, live) <==> r in live && QueryMatches(q, r, live[r])
  {
    forall x | x in live && VisitKey(x) == VisitKey(r)
      ensures x == r
    {
      VisitKeyInjective(x, r);
    }
  }

  /** Changing one node changes the view at its key only. */
  lemma MatchingUpdate(q: Query, live: Live, live': Live, r: NodeRef)
    requires ColonFreeNodes(live) && ColonFreeNodes(live') && ColonFree(r.id)
    requires live - {r} == live' - {r}
    ensures Matching(q, live') - {VisitKey(r)} == Matching(q, live) - {VisitKey(r)}
  {
    forall x: NodeRef | x != r
      ensures x in live <==> x in live'
      ensures x in live ==> live[x] == live'[x]
    {
      assert x in live <==> x in live - {r};
      assert x in live' <==> x in live' - {r};
      assert x in live ==> (live - {r})[x] == live[x];
      assert x in live' ==> (live' - {r})[x] == live'[x];
    }
  }

  /** Between the true view and the true view plus stale keys from before. */
  ghost predicate Between(q: Query, live: Live, matched: set<string>, initial: set<string>) {
    Matching(q, live) <= matched <= Matching(q, live) + initial
  }

  lemma ReplayKeepsColonFree(live: Live, op: Operation)
    requires ColonFreeNodes(live) && TrueTo(live, op)
    ensures ColonFreeNodes(Replay(live, op))
  {
  }

  /** A node operation touches its own key only, and leaves it right unless it was tracked without matching. */
  lemma ReactSettles(q: Query, live: Live, matched: set<string>, op: Operation)
    requires ColonFreeNodes(live) && TrueTo(live, op) && Target(op).Some?
    requires Matching(q, live) <= matched
    ensures var key := VisitKey(Target(op).value);
            var matched' := React(OnQuery(q), matched, op).matched;
            && matched' - {key} == matched - {key}
            && (key in Matching(q, Replay(live, op)) ==> key in matched')
            && (key in matched' && key !in Matching(q, Replay(live, op)) ==>
                  key in matched && key !in Matching(q, live))
  {
    var r := Target(op).value;
    ReplayKeepsColonFree(live, op);
    MatchingKey(q, live, r);
    MatchingKey(q, Replay(live, op), r);
  }

  lemma ReactKeepsBetween(q: Query, live: Live, matched: set<string>, initial: set<string>, op: Operation)
    requires ColonFreeNodes(live) && TrueTo(live, op) && Between(q, live, matched, initial)
    ensures Between(q, Replay(live, op), React(OnQuery(q), matched, op).matched, initial)
    ensures ColonFreeNodes(Replay(live, op))
  {
    ReplayKeepsColonFree(live, op);
    if Target(op).Some? {
      var r := Target(op).value;
      assert Replay(live, op) - {r} == live - {r};
      MatchingUpdate(q, live, Replay(live, op), r);
      MatchingKey(q, live, r);
      ReactSettles(q, live, matched, op);
    }
  }

  lemma {:induction false} FoldKeepsBetween(q: Query, live: Live, matched: set<string>, ops: seq<Operation>)
    requires ColonFreeNodes(live) && TrueLog(live, ops) && Matching(q, live) <= matched
    ensures ColonFreeNodes(ReplayAll(live, ops))
    ensures Between(q, ReplayAll(live, ops), ReactAll(OnQuery(q), matched, ops).matched, matched)
    decreases |ops|
  {
    if ops != [] {
      var n := |ops| - 1;
      TrueLogPrefix(live, ops, n);
      FoldKeepsBetween(q, live, matched, ops[..n]);
      assert TrueTo(ReplayAll(live, ops[..n]), ops[n]);
      ReactKeepsBetween(q, ReplayAll(live, ops[..n]), ReactAll(OnQuery(q), matched, ops[..n]).matched, matched, ops[n]);
    }
  }

  lemma TrueLogPrefix(live: Live, ops: seq<Operation>, n: nat)
    requires TrueLog(live, ops) && n <= |ops|
    ensures TrueLog(live, ops[..n])
  {
    forall i | 0 <= i < n
      ensures TrueTo(ReplayAll(live, ops[..n][..i]), ops[..n][i])
    {
      assert ops[..n][..i] == ops[..i];
    }
  }

  /** From the empty state the tracked set is always the set of live nodes satisfying the query. */
  lemma ViewIsExact(q: Query, ops: seq<Operation>)
    requires TrueLog(map[], ops)
    ensures ReactAll(OnQuery(q), {}, ops).matched == Matching(q, ReplayAll(map[], ops))
  {
    assert Matching(q, map[]) == {};
    FoldKeepsBetween(q, map[], {}, ops);
  }

  /**
   * An initial snapshot followed by the whole log from its beginning also ends exact: stale
   * keys can only come from the snapshot, and all of those are matches in the end.
   */
  lemma SnapshotThenReplay(q: Query, ops: seq<Operation>, snapshot: set<string>)
    requires TrueLog(map[], ops) && snapshot <= Matching(q, ReplayAll(map[], ops))
    ensures ReactAll(OnQuery(q), snapshot, ops).matched == Matching(q, ReplayAll(map[], ops))
  {
    assert Matching(q, map[]) == {};
    FoldKeepsBetween(q, map[], snapshot, ops);
  }

  // ---- starting below the truth ----

  lemma ReactKeepsSubset(q: Query, live: Live, matched: set<string>, op: Operation)
    requires ColonFreeNodes(live) && TrueTo(live, op) && matched <= Matching(q, live)
    ensures React(OnQuery(q), matched, op).matched <= Matching(q, Replay(live, op))
    ensures ColonFreeNodes(Replay(live, op))
  {
    ReplayKeepsColonFree(live, op);
    if Target(op).Some? {
      var r := Target(op).value;
      assert Replay(live, op) - {r} == live - {r};
      MatchingUpdate(q, live, Replay(live, op), r);
      MatchingKey(q, live, r);
      MatchingKey(q, Replay(live, op), r);
    }
  }

  /** Starting from any subset of the true matches, the tracked set stays a subset. */
  lemma {:induction false} ViewStaysSubset(q: Query, live: Live, matched: set<string>, ops: seq<Operation>)
    requires ColonFreeNodes(live) && TrueLog(live, ops) && matched <= Matching(q, live)
    ensures ReactAll(OnQuery(q), matched, ops).matched <= Matching(q, ReplayAll(live, ops))
    ensures ColonFreeNodes(ReplayAll(live, ops))
    decreases |ops|
  {
    if ops != [] {
      var n := |ops| - 1;
      TrueLogPrefix(live, ops, n);
      ViewStaysSubset(q, live, matched, ops[..n]);
      assert TrueTo(ReplayAll(live, ops[..n]), ops[n]);
      ReactKeepsSubset(q, ReplayAll(live, ops[..n]), ReactAll(OnQuery(q), matched, ops[..n]).matched, ops[n]);
    }
  }

  // ---- the client ----

  function ClientApply(view: set<string>, e: WatchEvent): set<string> {
    if e.EdgeEvent? then view
    else if e.kind == Enter || e.kind == Update then view + {VisitKey(e.node)}
    else view - {VisitKey(e.node)}
  }

  function ClientReplay(view: set<string>, events: seq<WatchEvent>): set<string> {
    if events == [] then view else ClientApply(ClientReplay(view, events[..|events| - 1]), events[|events| - 1])
  }

  lemma {:induction false} ClientReplayAppend(view: set<string>, a: seq<WatchEvent>, b: seq<WatchEvent>)
    ensures ClientReplay(view, a + b) == ClientReplay(ClientReplay(view, a), b)
    decreases |b|
  {
    if b == [] {
      assert a + b == a;
    } else {
      ClientReplayAppend(view, a, b[..|b| - 1]);
      assert (a + b)[..|a + b| - 1] == a + b[..|b| - 1];
    }
  }

  /** With no dropped event, a client replaying the events holds exactly the tracked set. */
  lemma {:induction false} ClientTracks(q: Query, matched: set<string>, ops: seq<Operation>)
    ensures var r := ReactAll(OnQuery(q), matched, ops);
            ClientReplay(matched, r.events) == r.matched
    decreases |ops|
  {
    if ops != [] {
      var n := |ops| - 1;
      ClientTracks(q, matched, ops[..n]);
      var before := ReactAll(OnQuery(q), matched, ops[..n]);
      var last := React(OnQuery(q), before.matched, ops[n]);
      ClientReplayAppend(matched, before.events, last.events);
      ClientStep(q, before.matched, ops[n]);
    }
  }

  lemma ClientStep(q: Query, matched: set<string>, op: Operation)
    ensures var r := React(OnQuery(q), matched, op);
            ClientReplay(matched, r.events) == r.matched
  {
    var r := React(OnQuery(q), matched, op);
    if r.events != [] {
      assert r.events[..|r.events| - 1] == [];
      assert ClientReplay(matched, r.events) == ClientApply(matched, r.events[0]);
    }
  }
}
