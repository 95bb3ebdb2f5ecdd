/** Whole runs of a query watch: turns over a growing log (crates/pelago-api/src/watch_service.rs). */
module WatchRuns {
  import opened Common
  import opened ByteOrder
  import opened NodeKeys
  import opened Cdc
  import opened Consumer
  import opened Watch

  /** The loop's position and tracked set, and the set held by a client that replays its events. */
  datatype View = View(after: Stamp, matched: set<string>, client: set<string>)

  /** One turn; `Subscription.Turn` computes its position and tracked set. */
  function TurnView(q: Query, log: seq<Record>, v: View): View {
    var page := ReadCdc(log, Some(v.after), PAGE);
    var r := ReactAll(OnQuery(q), v.matched, OpsOf(page));
    View(if page == [] then v.after else page[|page| - 1].stamp, r.matched, ClientReplay(v.client, r.events))
  }

  predicate Turned(q: Query, log: seq<Record>, v: View, w: View) {
    w == TurnView(q, log, v)
  }

  /** A run: one turn over each state of the log. */
  ghost predicate IsRun(q: Query, logs: seq<seq<Record>>, views: seq<View>) {
    |views| == |logs| + 1 && forall i :: 0 <= i < |logs| ==> Turned(q, logs[i], views[i], views[i + 1])
  }

  ghost predicate Growing(logs: seq<seq<Record>>) {
    forall i, j :: 0 <= i < j < |logs| ==> logs[i] <= logs[j]
  }

  ghost predicate Steady(logs: seq<seq<Record>>, k: nat) {
    k < |logs| && forall i :: 0 <= i <= k ==> logs[i] == logs[0]
  }

  /** At position `n`, loop and client both hold the query's answer on the replayed state. */
  ghost predicate Exact(q: Query, log: seq<Record>, v: View, n: nat) {
    && At(log, v.after, n)
    && v.matched == Matching(q, ReplayAll(map[], OpsOf(log[..n])))
    && v.client == v.matched
  }

  ghost predicate GoodRun(log: seq<Record>) {
    GoodLog(log) && TrueLog(map[], OpsOf(log))
  }

  lemma {:induction false} OpsOfAppend(a: seq<Record>, b: seq<Record>)
    ensures OpsOf(a + b) == OpsOf(a) + OpsOf(b)
    decreases |b|
  {
    if b == [] {
      assert a + b == a;
    } else {
      var front, last := b[..|b| - 1], b[|b| - 1];
      OpsOfAppend(a, front);
      LastApart(a, b);
      OpsOfSnoc(front, last);
      OpsOfSnoc(a + front, last);
      AppendAssoc(OpsOf(a), OpsOf(front), last.entry.operations);
    }
  }

  lemma LastApart<T>(a: seq<T>, b: seq<T>)
    requires b != []
    ensures b == b[..|b| - 1] + [b[|b| - 1]] && a + b == (a + b[..|b| - 1]) + [b[|b| - 1]]
  {
  }

  lemma OpsOfSnoc(a: seq<Record>, r: Record)
    ensures OpsOf(a + [r]) == OpsOf(a) + r.entry.operations
  {
    assert (a + [r])[..|a|] == a;
  }

  lemma {:induction false} ReplayAllAppend(live: Live, a: seq<Operation>, b: seq<Operation>)
    ensures ReplayAll(live, a + b) == ReplayAll(ReplayAll(live, a), b)
    decreases |b|
  {
    if b == [] {
      assert a + b == a;
    } else {
      ReplayAllAppend(live, a, b[..|b| - 1]);
      assert (a + b)[..|a + b| - 1] == a + b[..|b| - 1];
    }
  }

  lemma TrueLogSuffix(live: Live, a: seq<Operation>, b: seq<Operation>)
    requires TrueLog(live, a + b)
    ensures TrueLog(ReplayAll(live, a), b)
  {
    forall i | 0 <= i < |b|
      ensures TrueTo(ReplayAll(ReplayAll(live, a), b[..i]), b[i])
    {
      ReplayAllAppend(live, a, b[..i]);
      assert (a + b)[..|a| + i] == a + b[..i];
      assert (a + b)[|a| + i] == b[i];
    }
  }

  lemma PrefixIsGood(a: seq<Record>, log: seq<Record>)
    requires GoodRun(log) && a <= log
    ensures GoodRun(a)
  {
    OpsOfAppend(a, log[|a|..]);
    assert log == a + log[|a|..];
    TrueLogPrefix(map[], OpsOf(log), |OpsOf(a)|);
    assert OpsOf(log)[..|OpsOf(a)|] == OpsOf(a);
  }

  lemma TurnReads(log: seq<Record>, after: Stamp, n: nat)
    requires GoodLog(log) && At(log, after, n)
    ensures ReadCdc(log, Some(after), PAGE) == log[n..Min(n + PAGE, |log|)]
  {
    if n == 0 {
      forall i | 0 <= i < |log|
        ensures IsVisible(Some(ZERO_STAMP))(log[i])
      {
        NextIsSuccessor(ZERO_STAMP, log[i].stamp);
        assert !AllMax(ZERO_STAMP) by { assert ZERO_STAMP[0] != 0xFF; }
      }
      FilterAll(log, IsVisible(Some(ZERO_STAMP)));
    } else {
      VisibleAfter(log, n - 1);
    }
    ReadSlice(log, Some(after), n, PAGE);
  }

  /** Folding the operations of a slice moves the exact answer over that slice. */
  lemma SliceExact(q: Query, log: seq<Record>, n: nat, m: nat)
    requires GoodRun(log) && n <= m <= |log|
    ensures ReactAll(OnQuery(q), Matching(q, ReplayAll(map[], OpsOf(log[..n]))), OpsOf(log[n..m])).matched
         == Matching(q, ReplayAll(map[], OpsOf(log[..m])))
  {
    var a, b := log[..n], log[n..m];
    var live := ReplayAll(map[], OpsOf(a));
    assert a + b == log[..m];
    OpsOfAppend(a, b);
    ReplayAllAppend(map[], OpsOf(a), OpsOf(b));
    PrefixIsGood(a + b, log);
    TrueLogSuffix(map[], OpsOf(a), OpsOf(b));
    PrefixIsGood(a, log);
    FoldKeepsBetween(q, map[], {}, OpsOf(a));
    FoldKeepsBetween(q, live, Matching(q, live), OpsOf(b));
    ViewStaysSubset(q, live, Matching(q, live), OpsOf(b));
  }

  lemma TurnExact(q: Query, log: seq<Record>, v: View, n: nat)
    requires GoodRun(log) && Exact(q, log, v, n)
    ensures Exact(q, log, TurnView(q, log, v), Min(n + PAGE, |log|))
  {
    var m := Min(n + PAGE, |log|);
    TurnReads(log, v.after, n);
    SliceExact(q, log, n, m);
    ClientTracks(q, v.matched, OpsOf(log[n..m]));
  }

  /** The same when the log has grown since the last turn. */
  lemma GrownTurnExact(q: Query, log: seq<Record>, grown: seq<Record>, v: View, w: View, n: nat)
    requires GoodRun(grown) && log <= grown && Exact(q, log, v, n) && Turned(q, grown, v, w)
    ensures Exact(q, grown, w, Min(n + PAGE, |grown|))
  {
    assert log[..n] == grown[..n];
    TurnExact(q, grown, v, n);
  }

  function Before(logs: seq<seq<Record>>, i: nat): seq<Record>
    requires i < |logs|
  {
    if i == 0 then logs[0] else logs[i - 1]
  }

  type Positioned = (seq<Record>, View, nat) -> bool

  /** `holds` survives the `i`th turn, which moves the position on by a page. */
  ghost predicate Survives(holds: Positioned, logs: seq<seq<Record>>, views: seq<View>, i: nat)
    requires i < |logs| < |views|
  {
    forall n: nat :: holds(Before(logs, i), views[i], n) ==> holds(logs[i], views[i + 1], Min(n + PAGE, |logs[i]|))
  }

  lemma {:induction false} TurnByTurn(holds: Positioned, logs: seq<seq<Record>>, views: seq<View>, start: nat, k: nat)
    returns (n: nat)
    requires k < |logs| < |views| && holds(logs[0], views[0], start)
    requires forall i :: 0 <= i <= k ==> Survives(holds, logs, views, i)
    ensures holds(logs[k], views[k + 1], n)
    ensures Steady(logs, k) ==> n == Min(start + (k + 1) * PAGE, |logs[k]|)
    decreases k
  {
    assert Survives(holds, logs, views, k);
    if k == 0 {
      assert holds(Before(logs, k), views[k], start);
      n := Min(start + PAGE, |logs[0]|);
    } else {
      var m := TurnByTurn(holds, logs, views, start, k - 1);
      assert holds(Before(logs, k), views[k], m);
      n := Min(m + PAGE, |logs[k]|);
    }
  }

  ghost function ExactOn(q: Query): Positioned {
    (log: seq<Record>, v: View, n: nat) => Exact(q, log, v, n)
  }

  lemma TurnSurvives(q: Query, logs: seq<seq<Record>>, views: seq<View>, i: nat)
    requires Growing(logs) && IsRun(q, logs, views) && i < |logs| && GoodRun(logs[i])
    ensures Survives(ExactOn(q), logs, views, i)
  {
    forall n: nat | Exact(q, Before(logs, i), views[i], n)
      ensures Exact(q, logs[i], views[i + 1], Min(n + PAGE, |logs[i]|))
    {
      assert Turned(q, logs[i], views[i], views[i + 1]);
      GrownTurnExact(q, Before(logs, i), logs[i], views[i], views[i + 1], n);
    }
  }

  /**
   * Over any growing log, starting from any exact view (a new watch on the empty set, or state
   * restored at the position it was saved at), every turn leaves loop and client exact at
   * their position; while the log stands still that position moves on by a page per turn.
   */
  lemma RunExact(q: Query, logs: seq<seq<Record>>, views: seq<View>, start: nat, k: nat) returns (n: nat)
    requires Growing(logs) && IsRun(q, logs, views) && k < |logs|
    requires GoodRun(logs[k]) && Exact(q, logs[0], views[0], start)
    ensures Exact(q, logs[k], views[k + 1], n)
    ensures Steady(logs, k) ==> n == Min(start + (k + 1) * PAGE, |logs[k]|)
  {
    forall i | 0 <= i <= k
      ensures Survives(ExactOn(q), logs, views, i)
    {
      PrefixIsGood(logs[i], logs[k]);
      TurnSurvives(q, logs, views, i);
    }
    n := TurnByTurn(ExactOn(q), logs, views, start, k);
  }

  /** A new watch, with nothing tracked and nothing read, is exact. */
  lemma NewWatch(q: Query, log: seq<Record>)
    ensures Exact(q, log, View(ZERO_STAMP, {}, {}), 0)
  {
    assert log[..0] == [];
    assert Matching(q, map[]) == {};
  }
}
