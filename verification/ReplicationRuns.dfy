/** What holds in every run of the replication state machine. */
module ReplicationRuns {
  import opened Common
  import opened ByteOrder
  import opened Cdc
  import opened Replication

  /** Empty logs, no stored positions, all workers down; no site is its own peer. */
  ghost predicate Initial(s: System) {
    && (forall x :: x in s.logs ==> s.logs[x] == [])
    && s.positions == map[] && s.handed == {} && s.garbled == {}
    && forall w :: w in s.workers ==>
         var k := s.workers[w];
         !k.running && k.phase == Idle && k.after == None && k.site in s.logs && k.peer in s.logs && k.site != k.peer
  }

  ghost predicate Follows(states: seq<System>, steps: seq<Step>) {
    |states| == |steps| + 1
    && forall i :: 0 <= i < |steps| ==> Enabled(states[i], steps[i]) && states[i + 1] == Apply(states[i], steps[i])
  }

  ghost predicate IsRun(states: seq<System>, steps: seq<Step>) {
    Follows(states, steps) && Initial(states[0])
  }

  lemma InitialInv(s: System)
    requires Initial(s)
    ensures Inv(s)
  {
    forall w | w in s.workers
      ensures WorkerInv(s, s.workers[w])
    {
      var k := s.workers[w];
      assert CursorAt(s, k.site, k.peer, k.after, 0) && PhaseInv(s, k, 0);
    }
  }

  lemma {:induction false} RunKeepsInv(states: seq<System>, steps: seq<Step>, i: nat)
    requires IsRun(states, steps) && i < |states|
    ensures Inv(states[i])
    decreases i
  {
    if i == 0 {
      InitialInv(states[0]);
    } else {
      RunKeepsInv(states, steps, i - 1);
      StepKeepsInv(states[i - 1], steps[i - 1]);
    }
  }

  // ---- nothing is skipped ----

  lemma SafeCursorMeans(s: System, x: Site, y: Site, after: Option<Stamp>, j: nat)
    requires SafeCursor(s, x, y, after) && Ordered(s.logs[y]) && j < |s.logs[y]| && s.logs[y][j].entry.site == y
    requires after.Some? && AtMost(s.logs[y][j].stamp, after.value)
    ensures Handled(s, x, y, s.logs[y][j].stamp)
  {
    var n :| CursorAt(s, x, y, after, n);
    LessTrichotomy(s.logs[y][j].stamp, after.value);
  }

  /**
   * Across crashes, failed position writes and workers alternating the lease: every record of
   * the peer's own at or below a worker's cursor has been handed to apply (or arrived garbled).
   */
  lemma CursorNeverSkips(states: seq<System>, steps: seq<Step>, i: nat, w: nat, j: nat)
    requires IsRun(states, steps) && i < |states| && w in states[i].workers
    requires var k := states[i].workers[w];
             && k.peer in states[i].logs && j < |states[i].logs[k.peer]| && states[i].logs[k.peer][j].entry.site == k.peer
             && k.after.Some? && AtMost(states[i].logs[k.peer][j].stamp, k.after.value)
    ensures var k := states[i].workers[w];
            Handled(states[i], k.site, k.peer, states[i].logs[k.peer][j].stamp)
  {
    RunKeepsInv(states, steps, i);
    var s := states[i];
    var k := s.workers[w];
    assert WorkerInv(s, k) && LogInv(s, k.peer);
    SafeCursorMeans(s, k.site, k.peer, k.after, j);
  }

  /** The same for the persisted position, so a restart never skips, even after it moved backwards. */
  lemma PositionNeverSkips(states: seq<System>, steps: seq<Step>, i: nat, x: Site, y: Site, j: nat)
    requires IsRun(states, steps) && i < |states| && (x, y) in states[i].positions && y in states[i].logs
    requires j < |states[i].logs[y]| && states[i].logs[y][j].entry.site == y
    requires var after := states[i].positions[(x, y)];
             after.Some? && AtMost(states[i].logs[y][j].stamp, after.value)
    ensures Handled(states[i], x, y, states[i].logs[y][j].stamp)
  {
    RunKeepsInv(states, steps, i);
    assert LogInv(states[i], y);
    SafeCursorMeans(states[i], x, y, states[i].positions[(x, y)], j);
  }

  // ---- origins ----

  /**
   * A record in x's log tagged with another site mirrors a record that site wrote into its own
   * log: same timestamp, and a subsequence of its operations.
   */
  lemma MirrorsHaveOrigins(states: seq<System>, steps: seq<Step>, i: nat, x: Site, j: nat)
    requires IsRun(states, steps) && i < |states| && x in states[i].logs && j < |states[i].logs[x]|
    requires states[i].logs[x][j].entry.site != x
    ensures HasOrigin(states[i], states[i].logs[x][j].entry, states[i].logs[x][j].entry.site)
  {
    RunKeepsInv(states, steps, i);
    assert LogInv(states[i], x);
  }

  function LocalWrites(steps: seq<Step>, x: Site): seq<Record> {
    if steps == [] then []
    else
      var last := steps[|steps| - 1];
      LocalWrites(steps[..|steps| - 1], x) + (if last.LocalWrite? && last.at == x then [last.record] else [])
  }

  /** The records of x in x's own log are exactly its local writes, in order: no mirror ever comes back. */
  lemma {:induction false} OwnRecordsAreLocal(states: seq<System>, steps: seq<Step>, i: nat, x: Site)
    requires IsRun(states, steps) && i < |states| && x in states[0].logs
    ensures x in states[i].logs && FromSite(states[i].logs[x], x) == LocalWrites(steps[..i], x)
    decreases i
  {
    if i > 0 {
      OwnRecordsAreLocal(states, steps, i - 1, x);
      RunKeepsInv(states, steps, i - 1);
      assert steps[..i][..i - 1] == steps[..i - 1];
      OwnRecordsStep(states[i - 1], steps[i - 1], x);
    }
  }

  /** What a step appends to a log: a local write of that site, or a mirror tagged with another. */
  lemma LogStep(s: System, step: Step, x: Site) returns (added: seq<Record>)
    requires Inv(s) && Enabled(s, step) && x in s.logs
    ensures x in Apply(s, step).logs && Apply(s, step).logs[x] == s.logs[x] + added
    ensures if step.LocalWrite? && step.at == x then added == [step.record] && step.record.entry.site == x
            else forall i :: 0 <= i < |added| ==> added[i].entry.site != x
  {
    added := [];
    if step.LocalWrite? && step.at == x {
      added := [step.record];
    } else if step.Mirror? {
      var k := s.workers[step.w];
      assert WorkerInv(s, k);
      if k.site == x && k.phase.kept != [] && step.appendOk {
        added := [Record(step.stamp, MirrorEntry(k.peer, k.phase.entry, k.phase.kept))];
      }
    }
  }

  lemma OwnRecordsStep(s: System, step: Step, x: Site)
    requires Inv(s) && Enabled(s, step) && x in s.logs
    ensures x in Apply(s, step).logs
    ensures FromSite(Apply(s, step).logs[x], x)
            == FromSite(s.logs[x], x) + (if step.LocalWrite? && step.at == x then [step.record] else [])
  {
    var added := LogStep(s, step, x);
    FilterAppend(s.logs[x], added, IsFrom(x));
    if step.LocalWrite? && step.at == x {
      FilterAll(added, IsFrom(x));
    } else {
      FilterNone(added, IsFrom(x));
    }
  }

  /** Everything handed to apply from peer y is one of y's own records, so a mirror is never forwarded. */
  lemma MirrorsAreNotForwarded(states: seq<System>, steps: seq<Step>, i: nat, x: Site, y: Site, vs: Stamp)
    requires IsRun(states, steps) && i < |states| && (x, y, vs) in states[i].handed
    ensures y in states[i].logs
    ensures exists j :: 0 <= j < |states[i].logs[y]| && states[i].logs[y][j].stamp == vs && states[i].logs[y][j].entry.site == y
  {
    RunKeepsInv(states, steps, i);
    assert (x, y, vs).1 == y && (x, y, vs).2 == vs;
  }

  /** Without the no-self-peer rule a mirror is an own record again and will be pulled again. */
  lemma SelfPeerEchoes(s: System, w: nat, stamp: Stamp)
    requires Enabled(s, Mirror(w, stamp, true)) && s.workers[w].phase.kept != []
    ensures var k := s.workers[w];
            var t := Apply(s, Mirror(w, stamp, true));
            |FromSite(t.logs[k.site], k.site)| == |FromSite(s.logs[k.site], k.site)| + (if k.site == k.peer then 1 else 0)
  {
    var k := s.workers[w];
    FilterAppend(s.logs[k.site], [Record(stamp, MirrorEntry(k.peer, k.phase.entry, k.phase.kept))], IsFrom(k.site));
  }

  // ---- progress once local writes stop ----

  /** The peer's own records behind the worker's cursor. */
  function Unpulled(s: System, k: Worker): nat
    requires k.peer in s.logs
  {
    |FromSite(VisibleRecords(s.logs[k.peer], k.after), k.peer)|
  }

  /** No local write anywhere, and worker `w` is neither started nor stopped. */
  predicate QuietStep(step: Step, w: nat) {
    !step.LocalWrite? && !((step.Start? || step.Crash?) && step.w == w)
  }

  lemma UnpulledAt(s: System, k: Worker, a: nat)
    requires k.peer in s.logs && LogInv(s, k.peer) && At(s.logs[k.peer], k.after, a)
    ensures Unpulled(s, k) == |FromSite(s.logs[k.peer][a..], k.peer)|
  {
    VisibleAt(s.logs[k.peer], k.after, a);
  }

  /** Mirrors appended to a log leave that site's own records behind any position alone. */
  lemma OwnTailStays(log: seq<Record>, added: seq<Record>, y: Site, a: nat)
    requires a <= |log| && forall i :: 0 <= i < |added| ==> added[i].entry.site != y
    ensures FromSite((log + added)[a..], y) == FromSite(log[a..], y)
  {
    assert (log + added)[a..] == log[a..] + added;
    FilterAppend(log[a..], added, IsFrom(y));
    FilterNone(added, IsFrom(y));
  }

  lemma BacklogSame(s: System, t: System, k: Worker, k': Worker, added: seq<Record>)
    requires WorkerInv(s, k) && LogInv(s, k.peer) && k.peer in t.logs && LogInv(t, k.peer)
    requires k'.peer == k.peer && k'.after == k.after && t.logs[k.peer] == s.logs[k.peer] + added
    requires forall i :: 0 <= i < |added| ==> added[i].entry.site != k.peer
    ensures Unpulled(t, k') == Unpulled(s, k)
  {
    var a := CursorOf(s, k);
    UnpulledAt(s, k, a);
    OwnTailStays(s.logs[k.peer], added, k.peer, a);
    UnpulledAt(t, k', a);
  }

  /** Workers keep their site and peer. */
  lemma WorkerStays(s: System, step: Step, v: nat)
    requires Enabled(s, step) && v in s.workers
    ensures v in Apply(s, step).workers
    ensures Apply(s, step).workers[v].peer == s.workers[v].peer && Apply(s, step).workers[v].site == s.workers[v].site
  {
  }

  /** A quiet step that does not move worker `v`'s cursor leaves its backlog alone. */
  lemma BacklogStays(s: System, step: Step, t: System, v: nat)
    requires Inv(s) && Enabled(s, step) && t == Apply(s, step) && Inv(t) && QuietStep(step, v) && v in s.workers
    requires v in t.workers && t.workers[v].after == s.workers[v].after
    ensures s.workers[v].peer in s.logs && s.workers[v].peer in t.logs && t.workers[v].peer == s.workers[v].peer
    ensures Unpulled(t, t.workers[v]) == Unpulled(s, s.workers[v])
  {
    var k := s.workers[v];
    assert WorkerInv(s, k);
    WorkerStays(s, step, v);
    var added := LogStep(s, step, k.peer);
    BacklogSame(s, t, k, t.workers[v], added);
  }

  /** Completing an event shrinks the worker's backlog. */
  lemma MirrorShrinks(s: System, w: nat, stamp: Stamp, appendOk: bool)
    requires Inv(s) && Enabled(s, Mirror(w, stamp, appendOk))
    ensures var t := Apply(s, Mirror(w, stamp, appendOk));
            && s.workers[w].peer in s.logs && s.workers[w].peer in t.logs && t.workers[w].peer == s.workers[w].peer
            && Unpulled(t, t.workers[w]) < Unpulled(s, s.workers[w])
  {
    var t, k := Apply(s, Mirror(w, stamp, appendOk)), s.workers[w];
    StepKeepsInv(s, Mirror(w, stamp, appendOk));
    assert WorkerInv(s, k) && LogInv(s, k.peer) && LogInv(t, k.peer);
    var a, n := MirrorFacts(s, k);
    assert t.logs[k.peer] == s.logs[k.peer];
    UnpulledAt(s, k, a);
    UnpulledAt(t, t.workers[w], n);
    ShorterTail(s.logs[k.peer], k.peer, a, n);
  }

  lemma ShorterTail(log: seq<Record>, y: Site, a: nat, n: nat)
    requires a < n <= |log| && log[n - 1].entry.site == y
    ensures |FromSite(log[n..], y)| < |FromSite(log[a..], y)|
  {
    assert log[a..] == log[a..n - 1] + ([log[n - 1]] + log[n..]);
    FilterAppend(log[a..n - 1], [log[n - 1]] + log[n..], IsFrom(y));
    FilterAppend([log[n - 1]], log[n..], IsFrom(y));
  }

  function Mirrored(steps: seq<Step>, w: nat): nat {
    if steps == [] then 0
    else
      var last := steps[|steps| - 1];
      Mirrored(steps[..|steps| - 1], w) + (if last.Mirror? && last.w == w then 1 else 0)
  }

  ghost function Backlog(s: System, w: nat): nat
    requires Inv(s) && w in s.workers
  {
    assert WorkerInv(s, s.workers[w]);
    Unpulled(s, s.workers[w])
  }

  /** One quiet step: the backlog shrinks when the worker completes an event, and never grows. */
  lemma QuietStepShrinks(s: System, step: Step, w: nat)
    requires Inv(s) && Enabled(s, step) && QuietStep(step, w) && w in s.workers
    ensures Inv(Apply(s, step)) && w in Apply(s, step).workers
    ensures Backlog(Apply(s, step), w) + (if step.Mirror? && step.w == w then 1 else 0) <= Backlog(s, w)
  {
    StepKeepsInv(s, step);
    WorkerStays(s, step, w);
    if step.Mirror? && step.w == w {
      MirrorShrinks(s, w, step.stamp, step.appendOk);
    } else {
      CursorStays(s, step, w);
      BacklogStays(s, step, Apply(s, step), w);
    }
  }

  /** Only a completed event moves the cursor of a worker that is not restarted. */
  lemma CursorStays(s: System, step: Step, w: nat)
    requires Inv(s) && Enabled(s, step) && QuietStep(step, w) && w in s.workers && !(step.Mirror? && step.w == w)
    ensures w in Apply(s, step).workers && Apply(s, step).workers[w].after == s.workers[w].after
  {
    if step.Handle? && step.w == w {
      HandledIsOwn(s, w, step.verdicts);
    }
  }

  lemma HandledIsOwn(s: System, w: nat, verdicts: seq<bool>)
    requires Inv(s) && Enabled(s, Handle(w, verdicts))
    ensures HandleEvent(s.workers[w], verdicts).after == s.workers[w].after
  {
    HandleKeeps(s, w, verdicts);
  }

  ghost predicate GoodRun(states: seq<System>, w: nat) {
    forall i :: 0 <= i < |states| ==> Inv(states[i]) && w in states[i].workers
  }

  lemma {:induction false} QuietRunGood(states: seq<System>, steps: seq<Step>, w: nat, i: nat)
    requires Follows(states, steps) && Inv(states[0]) && w in states[0].workers && i <= |steps|
    ensures Inv(states[i]) && w in states[i].workers
    decreases i
  {
    if i > 0 {
      QuietRunGood(states, steps, w, i - 1);
      StepKeepsInv(states[i - 1], steps[i - 1]);
    }
  }

  function Completes(step: Step, w: nat): nat {
    if step.Mirror? && step.w == w then 1 else 0
  }

  /** Backlogs along a run, with what each step completes. */
  lemma {:induction false} Telescope(backlogs: seq<nat>, steps: seq<Step>, w: nat, i: nat)
    requires |backlogs| == |steps| + 1 && i <= |steps|
    requires forall j :: 0 <= j < |steps| ==> backlogs[j + 1] + Completes(steps[j], w) <= backlogs[j]
    ensures backlogs[i] + Mirrored(steps[..i], w) <= backlogs[0]
    decreases i
  {
    if i > 0 {
      Telescope(backlogs, steps, w, i - 1);
      assert steps[..i][..i - 1] == steps[..i - 1];
    }
  }

  /** In a quiet run, in any interleaving, each event a worker completes shrinks its backlog. */
  lemma QuietRunShrinks(states: seq<System>, steps: seq<Step>, w: nat)
    requires Follows(states, steps) && Inv(states[0]) && w in states[0].workers
    requires forall j :: 0 <= j < |steps| ==> QuietStep(steps[j], w)
    ensures Inv(states[|steps|]) && w in states[|steps|].workers
    ensures Backlog(states[|steps|], w) + Mirrored(steps, w) <= Backlog(states[0], w)
  {
    forall i | 0 <= i < |states|
      ensures Inv(states[i]) && w in states[i].workers
    {
      QuietRunGood(states, steps, w, i);
    }
    BacklogsFall(states, steps, w);
  }

  lemma BacklogsFall(states: seq<System>, steps: seq<Step>, w: nat)
    requires Follows(states, steps) && GoodRun(states, w)
    requires forall j :: 0 <= j < |steps| ==> QuietStep(steps[j], w)
    ensures Backlog(states[|steps|], w) + Mirrored(steps, w) <= Backlog(states[0], w)
  {
    var backlogs := seq(|states|, i requires 0 <= i < |states| && GoodRun(states, w) => Backlog(states[i], w));
    forall j | 0 <= j < |steps|
      ensures backlogs[j + 1] + Completes(steps[j], w) <= backlogs[j]
    {
      QuietStepShrinks(states[j], steps[j], w);
    }
    Telescope(backlogs, steps, w, |steps|);
    assert steps[..|steps|] == steps;
  }

  lemma NoOwnTail(log: seq<Record>, y: Site, a: nat)
    requires a <= |log| && FromSite(log[a..], y) == []
    ensures forall i :: a <= i < |log| ==> log[i].entry.site != y
  {
    forall i | a <= i < |log|
      ensures log[i].entry.site != y
    {
      FilterMember(log[a..], IsFrom(y), log[i]);
      assert log[a..][i - a] == log[i];
    }
  }

  /** With an empty backlog every own record of the peer has reached apply. */
  lemma DrainedMeansHandled(s: System, w: nat, j: nat)
    requires Inv(s) && w in s.workers && s.workers[w].peer in s.logs && Backlog(s, w) == 0
    requires j < |s.logs[s.workers[w].peer]| && s.logs[s.workers[w].peer][j].entry.site == s.workers[w].peer
    ensures Handled(s, s.workers[w].site, s.workers[w].peer, s.logs[s.workers[w].peer][j].stamp)
  {
    var k := s.workers[w];
    assert WorkerInv(s, k) && LogInv(s, k.peer);
    var a := CursorOf(s, k);
    UnpulledAt(s, k, a);
    NoOwnTail(s.logs[k.peer], k.peer, a);
  }
}
