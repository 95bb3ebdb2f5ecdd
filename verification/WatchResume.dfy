/**
 * Resuming a query watch: from saved state, from nothing, or after the subscription was cut off
 * inside a record, and exactly when the tracked set is right again
 * (crates/pelago-api/src/watch_service.rs and its state module).
 */
module WatchResume {
  import opened Common
  import opened ByteOrder
  import opened NodeKeys
  import opened Cdc
  import opened Consumer
  import opened Watch
  import opened WatchRuns

  // ---- one key ----

  /** The key is tracked exactly if it is in the query's answer. */
  ghost predicate Right(q: Query, live: Live, matched: set<string>, k: string) {
    k in matched <==> k in Matching(q, live)
  }

  /** Reacting to the operation makes the key right: a matching create, or an update or delete in the query's scope. */
  predicate Settles(q: Query, op: Operation, k: string) {
    match op
    case NodeCreate(t, id, properties, _) => VisitKey(NodeRef(t, id)) == k && QueryMatches(q, NodeRef(t, id), properties)
    case NodeUpdate(t, id, _, _) => VisitKey(NodeRef(t, id)) == k && QueryScope(q, t)
    case NodeDelete(t, id) => VisitKey(NodeRef(t, id)) == k && QueryScope(q, t)
    case _ => false
  }

  ghost predicate SettledBy(q: Query, ops: seq<Operation>, k: string) {
    exists i :: 0 <= i < |ops| && Settles(q, ops[i], k)
  }

  lemma OwnKeyRight(q: Query, live: Live, matched: set<string>, op: Operation, r: NodeRef)
    requires ColonFreeNodes(live) && TrueTo(live, op) && Target(op) == Some(r)
    ensures Right(q, Replay(live, op), React(OnQuery(q), matched, op).matched, VisitKey(r)) <==>
            Right(q, live, matched, VisitKey(r)) || Settles(q, op, VisitKey(r))
  {
    ReplayKeepsColonFree(live, op);
    MatchingKey(q, live, r);
    MatchingKey(q, Replay(live, op), r);
  }

  lemma OtherKeyStays(q: Query, live: Live, matched: set<string>, op: Operation, r: NodeRef, k: string)
    requires ColonFreeNodes(live) && TrueTo(live, op) && Target(op) == Some(r) && VisitKey(r) != k
    ensures k in Matching(q, Replay(live, op)) <==> k in Matching(q, live)
    ensures k in React(OnQuery(q), matched, op).matched <==> k in matched
  {
    ReplayKeepsColonFree(live, op);
    assert Replay(live, op) - {r} == live - {r};
    MatchingUpdate(q, live, Replay(live, op), r);
    assert k in Matching(q, live) <==> k in Matching(q, live) - {VisitKey(r)};
  }

  /** A key is right after an operation exactly if it was before or the operation settles it. */
  lemma StepRight(q: Query, live: Live, matched: set<string>, op: Operation, k: string)
    requires ColonFreeNodes(live) && TrueTo(live, op)
    ensures Right(q, Replay(live, op), React(OnQuery(q), matched, op).matched, k) <==>
            Right(q, live, matched, k) || Settles(q, op, k)
  {
    if Target(op).Some? {
      var r := Target(op).value;
      if VisitKey(r) == k {
        OwnKeyRight(q, live, matched, op, r);
      } else {
        OtherKeyStays(q, live, matched, op, r, k);
      }
    }
  }

  lemma {:induction false} ReplayAllColonFree(live: Live, ops: seq<Operation>)
    requires ColonFreeNodes(live) && TrueLog(live, ops)
    ensures ColonFreeNodes(ReplayAll(live, ops))
    decreases |ops|
  {
    if ops != [] {
      var n := |ops| - 1;
      TrueLogPrefix(live, ops, n);
      ReplayAllColonFree(live, ops[..n]);
      assert TrueTo(ReplayAll(live, ops[..n]), ops[n]);
      ReplayKeepsColonFree(ReplayAll(live, ops[..n]), ops[n]);
    }
  }

  lemma SettledSnoc(q: Query, ops: seq<Operation>, k: string)
    requires ops != []
    ensures SettledBy(q, ops, k) <==> SettledBy(q, ops[..|ops| - 1], k) || Settles(q, ops[|ops| - 1], k)
  {
    var front := ops[..|ops| - 1];
    assert forall i :: 0 <= i < |front| ==> front[i] == ops[i];
  }

  /** A key is right after any operations exactly if it was before them or one of them settles it. */
  lemma {:induction false} FoldRight(q: Query, live: Live, matched: set<string>, ops: seq<Operation>, k: string)
    requires ColonFreeNodes(live) && TrueLog(live, ops)
    ensures Right(q, ReplayAll(live, ops), ReactAll(OnQuery(q), matched, ops).matched, k) <==>
            Right(q, live, matched, k) || SettledBy(q, ops, k)
    decreases |ops|
  {
    if ops != [] {
      var n := |ops| - 1;
      TrueLogPrefix(live, ops, n);
      FoldRight(q, live, matched, ops[..n], k);
      ReplayAllColonFree(live, ops[..n]);
      assert TrueTo(ReplayAll(live, ops[..n]), ops[n]);
      StepRight(q, ReplayAll(live, ops[..n]), ReactAll(OnQuery(q), matched, ops[..n]).matched, ops[n], k);
      SettledSnoc(q, ops, k);
    }
  }

  // ---- the whole set ----

  function Differ(a: set<string>, b: set<string>): set<string> {
    (a - b) + (b - a)
  }

  ghost predicate AllSettled(q: Query, wrong: set<string>, ops: seq<Operation>) {
    forall k :: k in wrong ==> SettledBy(q, ops, k)
  }

  /** Two sets coincide if every key is right, or settled where it was wrong. */
  lemma EqualIffSettled(q: Query, ops: seq<Operation>, start: set<string>, was: set<string>, end: set<string>,
                        now: set<string>)
    requires forall k: string :: (k in end <==> k in now) <==> (k in start <==> k in was) || SettledBy(q, ops, k)
    ensures end == now <==> AllSettled(q, Differ(start, was), ops)
  {
    if AllSettled(q, Differ(start, was), ops) {
      forall k: string
        ensures k in end <==> k in now
      {
        assert k !in Differ(start, was) <==> (k in start <==> k in was);
      }
    }
  }

  /** From any tracked set: exact after the operations if and only if they settle every key that was wrong. */
  lemma FoldExactIff(q: Query, live: Live, matched: set<string>, ops: seq<Operation>)
    requires ColonFreeNodes(live) && TrueLog(live, ops)
    ensures ReactAll(OnQuery(q), matched, ops).matched == Matching(q, ReplayAll(live, ops)) <==>
            AllSettled(q, Differ(matched, Matching(q, live)), ops)
  {
    var was, end, now := Matching(q, live), ReactAll(OnQuery(q), matched, ops).matched, Matching(q, ReplayAll(live, ops));
    forall k: string
      ensures (k in end <==> k in now) <==> (k in matched <==> k in was) || SettledBy(q, ops, k)
    {
      FoldRight(q, live, matched, ops, k);
    }
    EqualIffSettled(q, ops, matched, was, end, now);
  }

  // ---- resumed runs ----

  function LiveAt(log: seq<Record>, n: nat): Live
    requires n <= |log|
  {
    ReplayAll(map[], OpsOf(log[..n]))
  }

  ghost predicate TracksExactly(q: Query, log: seq<Record>, v: View, p: nat) {
    p <= |log| && v.matched == Matching(q, LiveAt(log, p))
  }

  /** The loop started with `start` behind the first `n` records and has reacted up to `p`. */
  ghost predicate ResumedAs(q: Query, start: set<string>, n: nat, log: seq<Record>, v: View, p: nat) {
    && At(log, v.after, p) && n <= p
    && v.matched == ReactAll(OnQuery(q), start, OpsOf(log[n..p])).matched
  }

  ghost function ResumedOn(q: Query, start: set<string>, n: nat): Positioned {
    (log: seq<Record>, v: View, p: nat) => ResumedAs(q, start, n, log, v, p)
  }

  lemma SliceFold(q: Query, start: set<string>, log: seq<Record>, n: nat, p: nat, m: nat)
    requires n <= p <= m <= |log|
    ensures var before := ReactAll(OnQuery(q), start, OpsOf(log[n..p])).matched;
            ReactAll(OnQuery(q), start, OpsOf(log[n..m])).matched
            == ReactAll(OnQuery(q), before, OpsOf(log[p..m])).matched
  {
    assert log[n..m] == log[n..p] + log[p..m];
    OpsOfAppend(log[n..p], log[p..m]);
    ReactAllAppend(OnQuery(q), start, OpsOf(log[n..p]), OpsOf(log[p..m]));
  }

  lemma TurnMoves(q: Query, log: seq<Record>, v: View, p: nat)
    requires GoodLog(log) && At(log, v.after, p)
    ensures var m := Min(p + PAGE, |log|);
            && At(log, TurnView(q, log, v).after, m)
            && TurnView(q, log, v).matched == ReactAll(OnQuery(q), v.matched, OpsOf(log[p..m])).matched
  {
    TurnReads(log, v.after, p);
  }

  lemma ResumedTurn(q: Query, start: set<string>, n: nat, log: seq<Record>, grown: seq<Record>, v: View, p: nat)
    requires GoodRun(grown) && log <= grown && ResumedAs(q, start, n, log, v, p)
    ensures ResumedAs(q, start, n, grown, TurnView(q, grown, v), Min(p + PAGE, |grown|))
  {
    assert log[n..p] == grown[n..p];
    TurnMoves(q, grown, v, p);
    SliceFold(q, start, grown, n, p, Min(p + PAGE, |grown|));
  }

  lemma ResumedSurvives(q: Query, start: set<string>, n: nat, logs: seq<seq<Record>>, views: seq<View>, i: nat)
    requires Growing(logs) && IsRun(q, logs, views) && i < |logs| && GoodRun(logs[i])
    ensures Survives(ResumedOn(q, start, n), logs, views, i)
  {
    forall p: nat | ResumedAs(q, start, n, Before(logs, i), views[i], p)
      ensures ResumedAs(q, start, n, logs[i], views[i + 1], Min(p + PAGE, |logs[i]|))
    {
      assert Turned(q, logs[i], views[i], views[i + 1]);
      ResumedTurn(q, start, n, Before(logs, i), logs[i], views[i], p);
    }
  }

  lemma ResumedRun(q: Query, logs: seq<seq<Record>>, views: seq<View>, n: nat, k: nat) returns (p: nat)
    requires Growing(logs) && IsRun(q, logs, views) && k < |logs| && GoodRun(logs[k])
    requires At(logs[0], views[0].after, n)
    ensures ResumedAs(q, views[0].matched, n, logs[k], views[k + 1], p)
    ensures Steady(logs, k) ==> p == Min(n + (k + 1) * PAGE, |logs[k]|)
  {
    var start := views[0].matched;
    forall i | 0 <= i <= k
      ensures Survives(ResumedOn(q, start, n), logs, views, i)
    {
      PrefixIsGood(logs[i], logs[k]);
      ResumedSurvives(q, start, n, logs, views, i);
    }
    assert logs[0][n..n] == [];
    p := TurnByTurn(ResumedOn(q, start, n), logs, views, n, k);
  }

  lemma ResumedExact(q: Query, start: set<string>, n: nat, log: seq<Record>, v: View, p: nat)
    requires GoodRun(log) && ResumedAs(q, start, n, log, v, p)
    ensures TracksExactly(q, log, v, p) <==>
            AllSettled(q, Differ(start, Matching(q, LiveAt(log, n))), OpsOf(log[n..p]))
  {
    var a, b := log[..n], log[n..p];
    assert a + b == log[..p];
    OpsOfAppend(a, b);
    PrefixIsGood(a + b, log);
    PrefixIsGood(a, log);
    TrueLogSuffix(map[], OpsOf(a), OpsOf(b));
    ReplayAllAppend(map[], OpsOf(a), OpsOf(b));
    ReplayAllColonFree(map[], OpsOf(a));
    FoldExactIff(q, LiveAt(log, n), start, OpsOf(b));
  }

  /**
   * Resumed behind record `n` with any tracked set, over any growing log: the set is the query's
   * answer at the position reached if and only if the operations since settle every key on
   * which it differed from the answer at `n`.
   */
  lemma ResumedExactIff(q: Query, logs: seq<seq<Record>>, views: seq<View>, n: nat, k: nat) returns (p: nat)
    requires Growing(logs) && IsRun(q, logs, views) && k < |logs| && GoodRun(logs[k])
    requires At(logs[0], views[0].after, n)
    ensures n <= p && At(logs[k], views[k + 1].after, p)
    ensures Steady(logs, k) ==> p == Min(n + (k + 1) * PAGE, |logs[k]|)
    ensures TracksExactly(q, logs[k], views[k + 1], p) <==>
            AllSettled(q, Differ(views[0].matched, Matching(q, LiveAt(logs[k], n))), OpsOf(logs[k][n..p]))
  {
    p := ResumedRun(q, logs, views, n, k);
    ResumedExact(q, views[0].matched, n, logs[k], views[k + 1], p);
  }

  // ---- saved state ----

  datatype Saved = Saved(position: Stamp, matched: set<string>)

  /** The set a query watch starts with: the saved one if it is not newer than the resume position. */
  function Restore(saved: Option<Saved>, after: Stamp, snapshot: bool): set<string> {
    if saved.Some? && !snapshot && after != ZERO_STAMP && AtMost(saved.value.position, after) then saved.value.matched
    else {}
  }

  lemma PositionsOrdered(log: seq<Record>, a: Stamp, m: nat, b: Stamp, n: nat)
    requires GoodLog(log) && At(log, a, m) && At(log, b, n)
    ensures AtMost(a, b) <==> m <= n
  {
    if m < n {
      MarkOrder(log, m, n);
    } else if n < m {
      MarkOrder(log, n, m);
      LessTrichotomy(a, b);
    }
  }

  /**
   * A set saved at position `m` and resumed at `n`: it is restored exactly when `m <= n`, and is
   * then the answer at `p` if and only if every key whose answer changed in between is settled.
   */
  lemma RestoredExactIff(q: Query, log: seq<Record>, saved: Saved, m: nat, after: Stamp, n: nat, v: View, p: nat)
    requires GoodRun(log) && At(log, saved.position, m) && At(log, after, n) && n > 0
    requires saved.matched == Matching(q, LiveAt(log, m))
    requires ResumedAs(q, Restore(Some(saved), after, false), n, log, v, p)
    ensures TracksExactly(q, log, v, p) <==>
            AllSettled(q, Differ(if m <= n then Matching(q, LiveAt(log, m)) else {}, Matching(q, LiveAt(log, n))),
                       OpsOf(log[n..p]))
  {
    PositionsOrdered(log, saved.position, m, after, n);
    assert Less(ZERO_STAMP, log[n - 1].stamp);
    LessIrreflexive(ZERO_STAMP);
    ResumedExact(q, Restore(Some(saved), after, false), n, log, v, p);
  }

  function Create(r: NodeRef, properties: Properties, site: string): Operation {
    NodeCreate(r.entityType, r.id, properties, site)
  }

  lemma CreateThenDelete(q: Query, r: NodeRef, properties: Properties, site: string)
    requires ColonFree(r.id) && QueryMatches(q, r, properties)
    ensures var create, delete := Create(r, properties, site), NodeDelete(r.entityType, r.id);
            && TrueLog(map[], [create, delete])
            && VisitKey(r) in Matching(q, ReplayAll(map[], [create]))
            && VisitKey(r) !in Matching(q, ReplayAll(map[], [create, delete]))
  {
    var create, delete := Create(r, properties, site), NodeDelete(r.entityType, r.id);
    assert [create][..0] == [] && [create, delete][..1] == [create] && [create, delete][..0] == [];
    assert ReplayAll(map[], [create]) == map[r := properties];
    assert ReplayAll(map[], [create, delete]) == map[];
    MatchingKey(q, map[r := properties], r);
  }

  lemma TwoRecords(a: Record, b: Record)
    ensures OpsOf([a, b][..1]) == a.entry.operations
    ensures OpsOf([a, b]) == OpsOf([a, b][..2]) == a.entry.operations + b.entry.operations
  {
    OneRecord(a, 0);
    assert [a, b][..1] == [a] && [a, b][..2] == [a, b];
  }

  lemma OneRecord(record: Record, j: nat)
    requires j <= |record.entry.operations|
    ensures OpsOf([record]) == record.entry.operations && OpsOf([record][..1]) == record.entry.operations
    ensures OpsOf([record][..0]) + record.entry.operations[..j] == record.entry.operations[..j]
  {
    assert [record][..0] == [] && [record][..1] == [record];
    assert OpsOf([record]) == [] + record.entry.operations;
  }

  /** For instance a create and a delete: saved between them and resumed behind them, the node is still tracked. */
  lemma RestoredSetIsStale(q: Query, r: NodeRef, properties: Properties, a: Record, b: Record, w: View)
    requires ColonFree(r.id) && QueryMatches(q, r, properties)
    requires a.entry.operations == [Create(r, properties, a.entry.site)]
    requires b.entry.operations == [NodeDelete(r.entityType, r.id)]
    requires GoodLog([a, b])
    requires var saved := Saved(a.stamp, Matching(q, LiveAt([a, b], 1)));
             ResumedAs(q, Restore(Some(saved), b.stamp, false), 2, [a, b], w, 2)
    ensures !TracksExactly(q, [a, b], w, 2)
  {
    CreateThenDelete(q, r, properties, a.entry.site);
    TwoRecords(a, b);
    assert a.entry.operations + b.entry.operations == [Create(r, properties, a.entry.site), NodeDelete(r.entityType, r.id)];
    RestoredExactIff(q, [a, b], Saved(a.stamp, Matching(q, LiveAt([a, b], 1))), 1, b.stamp, 2, w, 2);
    assert [a, b][2..2] == [];
    NothingSettles(q, Matching(q, LiveAt([a, b], 1)), Matching(q, LiveAt([a, b], 2)));
  }

  // ---- a subscription cut off inside a record ----

  /** What is saved when the subscription is dropped at operation `j` of record `m`, having been exact behind record `n`. */
  function CutState(q: Query, log: seq<Record>, v: View, n: nat, m: nat, j: nat): Saved
    requires n <= m < |log| && j <= |log[m].entry.operations|
  {
    Saved(log[m].stamp, ReactAll(OnQuery(q), v.matched, OpsOf(log[n..m]) + log[m].entry.operations[..j]).matched)
  }

  /** A turn cut off at operation `j` of record `i` of its page saves that state. */
  lemma CutTurnSaves(q: Query, log: seq<Record>, v: View, n: nat, i: nat, j: nat)
    requires GoodLog(log) && At(log, v.after, n)
    requires var page := ReadCdc(log, Some(v.after), PAGE);
             i < |page| && j <= |page[i].entry.operations|
    ensures n + i < |log| && ReadCdc(log, Some(v.after), PAGE)[i] == log[n + i]
    ensures var page := ReadCdc(log, Some(v.after), PAGE);
            Saved(page[i].stamp, ReactAll(OnQuery(q), v.matched, OpsOf(page[..i]) + page[i].entry.operations[..j]).matched)
            == CutState(q, log, v, n, n + i, j)
  {
    var page := ReadCdc(log, Some(v.after), PAGE);
    TurnReads(log, v.after, n);
    assert page[..i] == log[n..n + i];
  }

  /** The query's answer after the first `j` operations of record `m`. */
  function AnswerInside(q: Query, log: seq<Record>, m: nat, j: nat): set<string>
    requires m < |log| && j <= |log[m].entry.operations|
  {
    Matching(q, ReplayAll(map[], OpsOf(log[..m]) + log[m].entry.operations[..j]))
  }

  lemma TrueLogInside(log: seq<Record>, m: nat, j: nat)
    requires GoodRun(log) && m < |log| && j <= |log[m].entry.operations|
    ensures TrueLog(map[], OpsOf(log[..m]) + log[m].entry.operations[..j])
    ensures OpsOf(log[..m + 1]) == OpsOf(log[..m]) + log[m].entry.operations
  {
    var ops := log[m].entry.operations;
    assert log[..m + 1][..m] == log[..m];
    PrefixIsGood(log[..m + 1], log);
    var all := OpsOf(log[..m]) + ops;
    TrueLogPrefix(map[], all, |OpsOf(log[..m])| + j);
    assert all[..|OpsOf(log[..m])| + j] == OpsOf(log[..m]) + ops[..j];
  }

  lemma OpsInside(log: seq<Record>, n: nat, m: nat, j: nat)
    requires n <= m < |log| && j <= |log[m].entry.operations|
    ensures OpsOf(log[..n]) + (OpsOf(log[n..m]) + log[m].entry.operations[..j])
         == OpsOf(log[..m]) + log[m].entry.operations[..j]
  {
    assert log[..n] + log[n..m] == log[..m];
    OpsOfAppend(log[..n], log[n..m]);
  }

  /** An exact set stays exact over the operations that follow. */
  lemma ExactStays(q: Query, a: seq<Operation>, b: seq<Operation>, matched: set<string>)
    requires TrueLog(map[], a + b) && matched == Matching(q, ReplayAll(map[], a))
    ensures ReactAll(OnQuery(q), matched, b).matched == Matching(q, ReplayAll(map[], a + b))
  {
    TrueLogSuffix(map[], a, b);
    TrueLogPrefix(map[], a + b, |a|);
    assert (a + b)[..|a|] == a;
    ReplayAllColonFree(map[], a);
    ReplayAllAppend(map[], a, b);
    FoldExactIff(q, ReplayAll(map[], a), matched, b);
  }

  /** The set saved by the cut is the answer after the operations reacted to. */
  lemma CutStateIs(q: Query, log: seq<Record>, v: View, n: nat, m: nat, j: nat)
    requires GoodRun(log) && Exact(q, log, v, n) && n <= m < |log| && j <= |log[m].entry.operations|
    ensures CutState(q, log, v, n, m, j).matched == AnswerInside(q, log, m, j)
  {
    OpsInside(log, n, m, j);
    TrueLogInside(log, m, j);
    ExactStays(q, OpsOf(log[..n]), OpsOf(log[n..m]) + log[m].entry.operations[..j], v.matched);
  }

  /** Resumed at its own position, the watch restores what the cut saved. */
  lemma CutRestores(q: Query, log: seq<Record>, v: View, n: nat, m: nat, j: nat)
    requires GoodRun(log) && Exact(q, log, v, n) && n <= m < |log| && j <= |log[m].entry.operations|
    ensures var saved := CutState(q, log, v, n, m, j);
            Restore(Some(saved), saved.position, false) == AnswerInside(q, log, m, j)
  {
    CutStateIs(q, log, v, n, m, j);
    LessIrreflexive(ZERO_STAMP);
    assert Less(ZERO_STAMP, log[m].stamp);
  }

  /**
   * A watch dropped at operation `j` of record `m` and resumed at the position it saved is the
   * answer at `p` if and only if every key the rest of the record changed is settled by then.
   */
  lemma CutExactIff(q: Query, log: seq<Record>, v: View, n: nat, m: nat, j: nat, w: View, p: nat)
    requires GoodRun(log) && Exact(q, log, v, n) && n <= m < |log| && j <= |log[m].entry.operations|
    requires var saved := CutState(q, log, v, n, m, j);
             ResumedAs(q, Restore(Some(saved), saved.position, false), m + 1, log, w, p)
    ensures TracksExactly(q, log, w, p) <==>
            AllSettled(q, Differ(AnswerInside(q, log, m, j), Matching(q, LiveAt(log, m + 1))), OpsOf(log[m + 1..p]))
  {
    var start := AnswerInside(q, log, m, j);
    assert ResumedAs(q, start, m + 1, log, w, p) by {
      CutRestores(q, log, v, n, m, j);
    }
    ResumedExact(q, start, m + 1, log, w, p);
  }

  /** Right after resuming: exact if and only if the rest of the record does not change the answer. */
  lemma CutExactThere(q: Query, log: seq<Record>, v: View, n: nat, m: nat, j: nat, w: View)
    requires GoodRun(log) && Exact(q, log, v, n) && n <= m < |log| && j <= |log[m].entry.operations|
    requires var saved := CutState(q, log, v, n, m, j);
             ResumedAs(q, Restore(Some(saved), saved.position, false), m + 1, log, w, m + 1)
    ensures TracksExactly(q, log, w, m + 1) <==> AnswerInside(q, log, m, j) == Matching(q, LiveAt(log, m + 1))
  {
    CutExactIff(q, log, v, n, m, j, w, m + 1);
    assert log[m + 1..m + 1] == [];
    NothingSettles(q, AnswerInside(q, log, m, j), Matching(q, LiveAt(log, m + 1)));
  }

  lemma NothingSettles(q: Query, a: set<string>, b: set<string>)
    ensures AllSettled(q, Differ(a, b), []) <==> a == b
  {
    if AllSettled(q, Differ(a, b), []) {
      assert Differ(a, b) == {};
    }
  }

  lemma TwoCreates(q: Query, r: NodeRef, t: NodeRef, properties: Properties, site: string)
    requires ColonFree(r.id) && ColonFree(t.id) && r != t && QueryMatches(q, t, properties)
    ensures var first, second := Create(r, properties, site), Create(t, properties, site);
            && TrueLog(map[], [first, second])
            && VisitKey(t) !in Matching(q, ReplayAll(map[], [first]))
            && VisitKey(t) in Matching(q, ReplayAll(map[], [first, second]))
  {
    var first, second := Create(r, properties, site), Create(t, properties, site);
    assert [first][..0] == [] && [first, second][..1] == [first] && [first, second][..0] == [];
    assert ReplayAll(map[], [first]) == map[r := properties];
    assert ReplayAll(map[], [first, second]) == map[r := properties, t := properties];
    MatchingKey(q, map[r := properties], t);
    MatchingKey(q, map[r := properties, t := properties], t);
  }

  /** For instance two creates in one record: cut after the first, the second is not tracked. */
  lemma CutRecordIsLost(q: Query, r: NodeRef, t: NodeRef, properties: Properties, record: Record, w: View)
    requires ColonFree(r.id) && ColonFree(t.id) && r != t && QueryMatches(q, t, properties)
    requires record.entry.operations == [Create(r, properties, record.entry.site), Create(t, properties, record.entry.site)]
    requires Less(ZERO_STAMP, record.stamp) && record.stamp[0] < 0xFF
    requires var saved := CutState(q, [record], View(ZERO_STAMP, {}, {}), 0, 0, 1);
             ResumedAs(q, Restore(Some(saved), saved.position, false), 1, [record], w, 1)
    ensures !TracksExactly(q, [record], w, 1)
  {
    TwoCreates(q, r, t, properties, record.entry.site);
    OneRecord(record, 1);
    NewWatch(q, [record]);
    CutExactThere(q, [record], View(ZERO_STAMP, {}, {}), 0, 0, 1, w);
    assert record.entry.operations[..1] == [Create(r, properties, record.entry.site)];
  }
}
