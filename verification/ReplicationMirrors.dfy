/**
 * What a pulled record becomes in the puller's log, and where a restarted worker resumes, in every
 * interleaving with the other sites and workers.
 */
module ReplicationMirrors {
  import opened Common
  import opened ByteOrder
  import opened Cdc
  import opened Replication
  import opened ReplicationRuns

  // ---- the accepted operations ----

  function CountTrue(verdicts: seq<bool>): nat {
    if verdicts == [] then 0 else (if verdicts[0] then 1 else 0) + CountTrue(verdicts[1..])
  }

  /** Each accepted operation stands behind as many others as were accepted before it, and there are no more. */
  ghost predicate Accepts(kept: seq<Operation>, ops: seq<Operation>, verdicts: seq<bool>) {
    && |verdicts| == |ops| && |kept| == CountTrue(verdicts)
    && forall i :: 0 <= i < |ops| && verdicts[i] ==>
         CountTrue(verdicts[..i]) < |kept| && kept[CountTrue(verdicts[..i])] == ops[i]
  }

  lemma CountFirst(verdicts: seq<bool>, i: nat)
    requires 0 < i <= |verdicts|
    ensures CountTrue(verdicts[..i]) == (if verdicts[0] then 1 else 0) + CountTrue(verdicts[1..][..i - 1])
  {
    assert verdicts[..i][1..] == verdicts[1..][..i - 1];
  }

  lemma {:induction false} KeptAccepts(ops: seq<Operation>, verdicts: seq<bool>)
    requires |verdicts| == |ops|
    ensures Accepts(Kept(ops, verdicts), ops, verdicts)
    decreases |ops|
  {
    if ops != [] {
      var kept, rest := Kept(ops, verdicts), Kept(ops[1..], verdicts[1..]);
      KeptAccepts(ops[1..], verdicts[1..]);
      forall i | 0 <= i < |ops| && verdicts[i]
        ensures CountTrue(verdicts[..i]) < |kept| && kept[CountTrue(verdicts[..i])] == ops[i]
      {
        if i > 0 {
          CountFirst(verdicts, i);
          assert verdicts[1..][i - 1] && ops[1..][i - 1] == ops[i];
        }
      }
    }
  }

  /** Nothing else meets that description. */
  lemma {:induction false} AcceptsUnique(a: seq<Operation>, b: seq<Operation>, ops: seq<Operation>, verdicts: seq<bool>,
                                         n: nat)
    requires Accepts(a, ops, verdicts) && Accepts(b, ops, verdicts) && n <= |ops|
    ensures CountTrue(verdicts[..n]) <= |a| && a[..CountTrue(verdicts[..n])] == b[..CountTrue(verdicts[..n])]
    decreases n
  {
    if n > 0 {
      AcceptsUnique(a, b, ops, verdicts, n - 1);
      CountLast(verdicts, n);
      if verdicts[n - 1] {
        var c := CountTrue(verdicts[..n - 1]);
        assert a[..c + 1] == a[..c] + [a[c]] && b[..c + 1] == b[..c] + [b[c]];
      }
    }
  }

  lemma {:induction false} CountLast(verdicts: seq<bool>, n: nat)
    requires 0 < n <= |verdicts|
    ensures CountTrue(verdicts[..n]) == CountTrue(verdicts[..n - 1]) + (if verdicts[n - 1] then 1 else 0)
    decreases n
  {
    CountFirst(verdicts, n);
    if n == 1 {
      assert verdicts[1..][..0] == [] && verdicts[..0] == [];
    } else {
      CountFirst(verdicts, n - 1);
      CountLast(verdicts[1..], n - 1);
    }
  }

  lemma {:induction false} AllTrue(verdicts: seq<bool>, n: nat)
    requires n <= |verdicts| && forall i :: 0 <= i < n ==> verdicts[i]
    ensures CountTrue(verdicts[..n]) == n
    decreases n
  {
    if n > 0 {
      AllTrue(verdicts, n - 1);
      CountLast(verdicts, n);
    }
  }

  /** If every operation is accepted, the mirror holds them all. */
  lemma AllAccepted(kept: seq<Operation>, ops: seq<Operation>, verdicts: seq<bool>)
    requires Accepts(kept, ops, verdicts) && forall i :: 0 <= i < |verdicts| ==> verdicts[i]
    ensures kept == ops
  {
    AllTrue(verdicts, |verdicts|);
    assert verdicts[..|verdicts|] == verdicts;
    forall i | 0 <= i < |ops|
      ensures kept[i] == ops[i]
    {
      AllTrue(verdicts, i);
    }
  }

  lemma {:induction false} NoneTrue(verdicts: seq<bool>)
    ensures CountTrue(verdicts) == 0 <==> true !in verdicts
    decreases |verdicts|
  {
    if verdicts != [] {
      NoneTrue(verdicts[1..]);
      assert verdicts == [verdicts[0]] + verdicts[1..];
    }
  }

  // ---- from handling to mirroring, other steps in between ----

  /** The step is one of worker `w`. */
  predicate Of(step: Step, w: nat) {
    !step.LocalWrite? && step.w == w
  }

  /** No step of worker `w` from `i` up to `j`. */
  ghost predicate NoneOf(steps: seq<Step>, w: nat, i: nat, j: nat) {
    i <= j <= |steps| && forall m :: i <= m < j ==> !Of(steps[m], w)
  }

  lemma OthersLeave(s: System, step: Step, w: nat)
    requires Enabled(s, step) && !Of(step, w) && w in s.workers
    ensures w in Apply(s, step).workers && Apply(s, step).workers[w] == s.workers[w]
  {
  }

  lemma {:induction false} WorkerWaits(states: seq<System>, steps: seq<Step>, w: nat, i: nat, j: nat)
    requires Follows(states, steps) && NoneOf(steps, w, i, j) && w in states[i].workers
    ensures w in states[j].workers && states[j].workers[w] == states[i].workers[w]
    decreases j - i
  {
    if i < j {
      assert Enabled(states[j - 1], steps[j - 1]) && states[j] == Apply(states[j - 1], steps[j - 1]);
      WorkerWaits(states, steps, w, i, j - 1);
      OthersLeave(states[j - 1], steps[j - 1], w);
    }
  }

  /** Worker `w` takes up an intact event of the peer's own. */
  predicate TakesUp(s: System, step: Step, w: nat) {
    && step.Handle? && step.w == w && w in s.workers && s.workers[w].phase.Streaming? && s.workers[w].phase.rest != []
    && s.workers[w].phase.rest[0].Good? && s.workers[w].phase.rest[0].record.entry.site == s.workers[w].peer
  }

  /** Worker `w` takes up an event at step `i` and mirrors it at step `j`. */
  ghost predicate Completed(states: seq<System>, steps: seq<Step>, w: nat, i: nat, j: nat) {
    && Follows(states, steps) && i < j < |steps| && TakesUp(states[i], steps[i], w) && NoneOf(steps, w, i + 1, j)
    && steps[j].Mirror? && steps[j].w == w
  }

  /** The record worker `w` takes up at state `s`. */
  function TakenUp(s: System, w: nat): Record
    requires w in s.workers && s.workers[w].phase.Streaming? && s.workers[w].phase.rest != []
  {
    s.workers[w].phase.rest[0].record
  }

  /** `r` is the peer's record with exactly the accepted operations, under a new stamp. */
  ghost predicate MirrorOf(r: Record, stamp: Stamp, peer: Site, origin: Record, verdicts: seq<bool>) {
    && r.stamp == stamp && r.entry.site == peer && r.entry.timestamp == origin.entry.timestamp
    && r.entry.batchId == (if origin.entry.batchId == Some("") then None else origin.entry.batchId)
    && Accepts(r.entry.operations, origin.entry.operations, verdicts)
  }

  lemma HandleTakesUp(s: System, w: nat, verdicts: seq<bool>)
    requires Enabled(s, Handle(w, verdicts))
    requires var e := s.workers[w].phase.rest[0]; e.Good? && e.record.entry.site == s.workers[w].peer
    ensures var k, e := s.workers[w], s.workers[w].phase.rest[0].record;
            Apply(s, Handle(w, verdicts)).workers[w]
            == k.(phase := Mirroring(e.stamp, e.entry, Kept(e.entry.operations, verdicts), k.phase.rest[1..]))
  {
  }

  /** What a mirror step appends to the log of the worker's site. */
  ghost predicate Appends(s: System, t: System, x: Site, r: Record) {
    x in s.logs && t.logs == s.logs[x := s.logs[x] + [r]]
  }

  lemma MirrorAppends(s: System, w: nat, stamp: Stamp, appendOk: bool)
    requires Enabled(s, Mirror(w, stamp, appendOk))
    ensures var k, t := s.workers[w], Apply(s, Mirror(w, stamp, appendOk));
            && w in t.workers && t.workers[w].after == Some(k.phase.vs)
            && if appendOk && k.phase.kept != []
               then Appends(s, t, k.site, Record(stamp, MirrorEntry(k.peer, k.phase.entry, k.phase.kept)))
               else t.logs == s.logs
  {
  }

  /**
   * Whatever other workers and sites do in between: a completed event appends exactly one record,
   * the peer's with exactly the accepted operations in order, if any was accepted and the append
   * succeeds, and none otherwise; either way the cursor stands at the peer's record.
   */
  lemma CompletedMirrors(states: seq<System>, steps: seq<Step>, w: nat, i: nat, j: nat)
    requires Completed(states, steps, w, i, j)
    ensures var k, origin := states[i].workers[w], TakenUp(states[i], w);
            && w in states[j + 1].workers && states[j + 1].workers[w].after == Some(origin.stamp)
            && if steps[j].appendOk && true in steps[i].verdicts then
                 exists r :: MirrorOf(r, steps[j].stamp, k.peer, origin, steps[i].verdicts)
                             && Appends(states[j], states[j + 1], k.site, r)
               else states[j + 1].logs == states[j].logs
  {
    var k, origin, verdicts := states[i].workers[w], TakenUp(states[i], w), steps[i].verdicts;
    assert Enabled(states[i], steps[i]) && states[i + 1] == Apply(states[i], steps[i]);
    assert Enabled(states[j], steps[j]) && states[j + 1] == Apply(states[j], steps[j]);
    HandleTakesUp(states[i], w, verdicts);
    WorkerWaits(states, steps, w, i + 1, j);
    MirrorAppends(states[j], w, steps[j].stamp, steps[j].appendOk);
    var kept := Kept(origin.entry.operations, verdicts);
    KeptAccepts(origin.entry.operations, verdicts);
    NoneTrue(verdicts);
    assert MirrorOf(Record(steps[j].stamp, MirrorEntry(k.peer, origin.entry, kept)), steps[j].stamp, k.peer, origin, verdicts);
  }

  predicate MirroringAt(s: System, w: nat) {
    w in s.workers && s.workers[w].phase.Mirroring?
  }

  /** Only taking up an intact event of the peer's own puts a worker before its mirror step. */
  lemma MirroringStep(s: System, step: Step, w: nat)
    requires Inv(s) && Enabled(s, step) && MirroringAt(Apply(s, step), w)
    ensures if Of(step, w) then TakesUp(s, step, w) else MirroringAt(s, w)
  {
  }

  ghost predicate MirroringSteps(states: seq<System>, steps: seq<Step>, w: nat, j: nat) {
    0 <= j < |steps| < |states| && (MirroringAt(states[j + 1], w) ==>
      if Of(steps[j], w) then TakesUp(states[j], steps[j], w) else MirroringAt(states[j], w))
  }

  lemma RunMirrorsStep(states: seq<System>, steps: seq<Step>, w: nat, j: nat)
    requires IsRun(states, steps) && j < |steps|
    ensures MirroringSteps(states, steps, w, j)
  {
    RunKeepsInv(states, steps, j);
    assert Enabled(states[j], steps[j]) && states[j + 1] == Apply(states[j], steps[j]);
    if MirroringAt(states[j + 1], w) {
      MirroringStep(states[j], steps[j], w);
    }
  }

  lemma {:induction false} HandledBefore(states: seq<System>, steps: seq<Step>, w: nat, j: nat) returns (i: nat)
    requires |states| == |steps| + 1 && j < |states| && MirroringAt(states[j], w) && !MirroringAt(states[0], w)
    requires forall m :: 0 <= m < |steps| ==> MirroringSteps(states, steps, w, m)
    ensures i < j && TakesUp(states[i], steps[i], w) && NoneOf(steps, w, i + 1, j)
    decreases j
  {
    assert MirroringSteps(states, steps, w, j - 1);
    if Of(steps[j - 1], w) {
      i := j - 1;
    } else {
      i := HandledBefore(states, steps, w, j - 1);
    }
  }

  /** In every run, every mirror step completes an event taken up before: so every mirrored record is exact. */
  lemma EveryMirrorCompletes(states: seq<System>, steps: seq<Step>, j: nat) returns (i: nat)
    requires IsRun(states, steps) && j < |steps| && steps[j].Mirror?
    ensures Completed(states, steps, steps[j].w, i, j)
  {
    var w := steps[j].w;
    assert Enabled(states[j], steps[j]);
    forall m | 0 <= m < |steps|
      ensures MirroringSteps(states, steps, w, m)
    {
      RunMirrorsStep(states, steps, w, m);
    }
    i := HandledBefore(states, steps, w, j);
  }

  // ---- where a restart resumes ----

  /** Saving a position for the pair, with success. */
  predicate Saves(s: System, step: Step, x: Site, y: Site) {
    step.Save? && step.writeOk && step.w in s.workers && s.workers[step.w].site == x && s.workers[step.w].peer == y
  }

  ghost predicate NoSave(states: seq<System>, steps: seq<Step>, x: Site, y: Site, i: nat, j: nat) {
    i <= j <= |steps| < |states| && forall m :: i <= m < j ==> !Saves(states[m], steps[m], x, y)
  }

  /** The stored position of the pair, if there is one. */
  predicate StoredIs(s: System, x: Site, y: Site, at: Option<Option<Stamp>>) {
    if at.None? then (x, y) !in s.positions else (x, y) in s.positions && s.positions[(x, y)] == at.value
  }

  lemma StoredStays(s: System, step: Step, x: Site, y: Site, at: Option<Option<Stamp>>)
    requires Enabled(s, step) && !Saves(s, step, x, y) && StoredIs(s, x, y, at)
    ensures StoredIs(Apply(s, step), x, y, at)
  {
  }

  lemma {:induction false} StoredWaits(states: seq<System>, steps: seq<Step>, x: Site, y: Site, i: nat, j: nat,
                                       at: Option<Option<Stamp>>)
    requires Follows(states, steps) && NoSave(states, steps, x, y, i, j) && StoredIs(states[i], x, y, at)
    ensures StoredIs(states[j], x, y, at)
    decreases j - i
  {
    if i < j {
      assert Enabled(states[j - 1], steps[j - 1]) && states[j] == Apply(states[j - 1], steps[j - 1]);
      StoredWaits(states, steps, x, y, i, j - 1, at);
      StoredStays(states[j - 1], steps[j - 1], x, y, at);
    }
  }

  /**
   * A worker that starts and can read its position resumes exactly at the cursor of the worker that
   * saved last for the same site and peer, whatever happened since.
   */
  lemma RestartResumes(states: seq<System>, steps: seq<Step>, x: Site, y: Site, i: nat, j: nat)
    requires Follows(states, steps) && i < j < |steps| && Saves(states[i], steps[i], x, y)
    requires NoSave(states, steps, x, y, i + 1, j)
    requires steps[j].Start? && steps[j].readOk && steps[j].w in states[j].workers
    requires states[j].workers[steps[j].w].site == x && states[j].workers[steps[j].w].peer == y
    ensures steps[j].w in states[j + 1].workers
    ensures states[j + 1].workers[steps[j].w].after == states[i].workers[steps[i].w].after
  {
    assert Enabled(states[i], steps[i]) && states[i + 1] == Apply(states[i], steps[i]);
    assert Enabled(states[j], steps[j]) && states[j + 1] == Apply(states[j], steps[j]);
    var at := Some(states[i].workers[steps[i].w].after);
    assert StoredIs(states[i + 1], x, y, at);
    StoredWaits(states, steps, x, y, i + 1, j, at);
  }

  /** Before the first save it starts from the beginning. */
  lemma FirstStart(states: seq<System>, steps: seq<Step>, x: Site, y: Site, j: nat)
    requires IsRun(states, steps) && j < |steps| && NoSave(states, steps, x, y, 0, j)
    requires steps[j].Start? && steps[j].w in states[j].workers
    requires states[j].workers[steps[j].w].site == x && states[j].workers[steps[j].w].peer == y
    ensures steps[j].w in states[j + 1].workers && states[j + 1].workers[steps[j].w].after == None
  {
    assert Enabled(states[j], steps[j]) && states[j + 1] == Apply(states[j], steps[j]);
    assert StoredIs(states[0], x, y, None);
    StoredWaits(states, steps, x, y, 0, j, None);
  }
}
