/** Rounds of pulling and working off: once local writes stop, the backlog of a worker drains. */
module ReplicationRounds {
  import opened Common
  import opened ByteOrder
  import opened Cdc
  import opened Replication
  import opened ReplicationRuns

  /** A pull of worker `w` and what happens until it is idle again. */
  datatype Round = Round(states: seq<System>, steps: seq<Step>)

  /** Every event arrived intact, and is one of the peer's own records. */
  ghost predicate Intact(events: seq<Event>, peer: Site) {
    forall i :: 0 <= i < |events| ==> events[i].Good? && events[i].record.entry.site == peer
  }

  predicate NoneGarbled(events: seq<Event>) {
    forall i :: 0 <= i < |events| ==> events[i].Good?
  }

  /** The worker leaves its stream only when it is used up. */
  ghost predicate ReadsToEnd(s: System, step: Step, w: nat) {
    step.EndStream? && step.w == w && w in s.workers && s.workers[w].phase.Streaming? ==> s.workers[w].phase.rest == []
  }

  /**
   * A quiet run that starts with an intact pull of worker `w`, never breaks off its stream, and
   * ends with the worker idle; other workers do as they like.
   */
  ghost predicate IsRound(r: Round, w: nat) {
    && Follows(r.states, r.steps) && r.steps != [] && r.steps[0].Pull? && r.steps[0].w == w && NoneGarbled(r.steps[0].events)
    && (forall j :: 0 <= j < |r.steps| ==> QuietStep(r.steps[j], w) && ReadsToEnd(r.states[j], r.steps[j], w))
    && w in End(r).workers && End(r).workers[w].phase == Idle
  }

  ghost function End(r: Round): System {
    if r.states == [] then System(map[], map[], map[], {}, {}) else r.states[|r.states| - 1]
  }

  // ---- everything pulled is completed ----

  /** The events a worker has still to complete. */
  function Outstanding(k: Worker): nat {
    match k.phase
    case Streaming(rest) => |rest|
    case Mirroring(_, _, _, rest) => |rest| + 1
    case _ => 0
  }

  ghost predicate RestIntact(k: Worker) {
    match k.phase
    case Streaming(rest) => Intact(rest, k.peer)
    case Mirroring(_, _, _, rest) => Intact(rest, k.peer)
    case _ => true
  }

  /** Of `total` events, `done` are completed and the rest is outstanding and intact, or all are done. */
  ghost predicate OnTrack(s: System, w: nat, done: nat, total: nat) {
    w in s.workers && (done >= total || (done + Outstanding(s.workers[w]) >= total && RestIntact(s.workers[w])))
  }

  lemma IntactTail(events: seq<Event>, peer: Site)
    requires Intact(events, peer) && events != []
    ensures Intact(events[1..], peer) && events[0].Good? && events[0].record.entry.site == peer
  {
  }

  lemma StepOnTrack(s: System, step: Step, w: nat, done: nat, total: nat)
    requires Enabled(s, step) && QuietStep(step, w) && ReadsToEnd(s, step, w) && OnTrack(s, w, done, total)
    ensures OnTrack(Apply(s, step), w, done + Completes(step, w), total)
  {
    if step.Handle? && step.w == w && RestIntact(s.workers[w]) {
      IntactTail(s.workers[w].phase.rest, s.workers[w].peer);
    }
  }

  lemma PullIntact(s: System, step: Step)
    requires step.Pull? && Enabled(s, step) && NoneGarbled(step.events)
    ensures Intact(step.events, s.workers[step.w].peer)
  {
    var k := s.workers[step.w];
    var all := FromSite(VisibleRecords(s.logs[k.peer], k.after), k.peer);
    forall i | 0 <= i < |step.events|
      ensures step.events[i].record.entry.site == k.peer
    {
      assert step.events[i].record == Records(step.events)[i];
      FilterMember(VisibleRecords(s.logs[k.peer], k.after), IsFrom(k.peer), all[i]);
    }
  }

  lemma {:induction false} RoundOnTrack(r: Round, w: nat, i: nat)
    requires IsRound(r, w) && 1 <= i <= |r.steps|
    ensures OnTrack(r.states[i], w, Mirrored(r.steps[..i], w), |r.steps[0].events|)
    decreases i
  {
    assert r.steps[..i][..i - 1] == r.steps[..i - 1];
    assert Enabled(r.states[i - 1], r.steps[i - 1]) && r.states[i] == Apply(r.states[i - 1], r.steps[i - 1]);
    if i == 1 {
      PullIntact(r.states[0], r.steps[0]);
    } else {
      RoundOnTrack(r, w, i - 1);
      StepOnTrack(r.states[i - 1], r.steps[i - 1], w, Mirrored(r.steps[..i - 1], w), |r.steps[0].events|);
    }
  }

  /** In a round the worker completes every event it pulled. */
  lemma RoundCompletes(r: Round, w: nat)
    requires IsRound(r, w)
    ensures Mirrored(r.steps, w) >= |r.steps[0].events|
  {
    RoundOnTrack(r, w, |r.steps|);
    assert r.steps[..|r.steps|] == r.steps;
  }

  lemma PullSize(s: System, step: Step, w: nat)
    requires Inv(s) && step.Pull? && step.w == w && Enabled(s, step)
    ensures |step.events| == Min(step.batch, Backlog(s, w))
  {
    var k := s.workers[w];
    assert WorkerInv(s, k) && LogInv(s, k.peer);
    var a := CursorOf(s, k);
    PullGapless(s, k, step.batch, step.events, a);
    UnpulledAt(s, k, a);
  }

  /** A round brings min(batch, backlog) events and leaves at most backlog - batch. */
  lemma RoundShrinks(r: Round, w: nat)
    requires IsRound(r, w) && Inv(r.states[0])
    ensures w in r.states[0].workers && Inv(End(r)) && w in End(r).workers
    ensures |r.steps[0].events| == Min(r.steps[0].batch, Backlog(r.states[0], w))
    ensures Backlog(End(r), w) <= Max(0, Backlog(r.states[0], w) - r.steps[0].batch)
  {
    assert Enabled(r.states[0], r.steps[0]);
    PullSize(r.states[0], r.steps[0], w);
    RoundCompletes(r, w);
    QuietRunShrinks(r.states, r.steps, w);
  }

  // ---- as many rounds as it takes ----

  type Load = System -> Option<nat>

  /** The backlog of `w`, in states that keep the invariant. */
  ghost function LoadOf(w: nat): Load {
    (s: System) => if Inv(s) && w in s.workers then Some(Backlog(s, w)) else None
  }

  ghost predicate Falls(load: Load, s: System, t: System) {
    load(s).Some? ==> load(t).Some? && load(t).value <= Max(0, load(s).value - 1)
  }

  ghost predicate FallsAt(load: Load, marks: seq<System>, i: nat) {
    i + 1 < |marks| && Falls(load, marks[i], marks[i + 1])
  }

  lemma {:induction false} CountDown(load: Load, marks: seq<System>, k: nat)
    requires k < |marks| && load(marks[0]).Some?
    requires forall i: nat :: i < k ==> FallsAt(load, marks, i)
    ensures load(marks[k]).Some? && load(marks[k]).value <= Max(0, load(marks[0]).value - k)
    decreases k
  {
    if k > 0 {
      CountDown(load, marks, k - 1);
      assert FallsAt(load, marks, k - 1);
    }
  }

  lemma RoundFalls(r: Round, w: nat)
    requires IsRound(r, w)
    ensures Falls(LoadOf(w), r.states[0], End(r))
  {
    if Inv(r.states[0]) && w in r.states[0].workers {
      RoundShrinks(r, w);
      assert Enabled(r.states[0], r.steps[0]);
    }
  }

  ghost predicate RoundFrom(s: System, r: Round, t: System, w: nat) {
    IsRound(r, w) && r.states[0] == s && End(r) == t
  }

  /** `marks` are the states between successive rounds of worker `w`. */
  ghost predicate Rounds(marks: seq<System>, rounds: seq<Round>, w: nat) {
    |marks| == |rounds| + 1 && forall i :: 0 <= i < |rounds| ==> RoundFrom(marks[i], rounds[i], marks[i + 1], w)
  }

  /** Once local writes stop, as many rounds as there are unpulled records empty the backlog. */
  lemma RoundsDrain(marks: seq<System>, rounds: seq<Round>, w: nat)
    requires Rounds(marks, rounds, w) && Inv(marks[0]) && w in marks[0].workers && |rounds| >= Backlog(marks[0], w)
    ensures Inv(marks[|rounds|]) && w in marks[|rounds|].workers && Backlog(marks[|rounds|], w) == 0
  {
    forall i: nat | i < |rounds|
      ensures FallsAt(LoadOf(w), marks, i)
    {
      assert RoundFrom(marks[i], rounds[i], marks[i + 1], w);
      RoundFalls(rounds[i], w);
    }
    CountDown(LoadOf(w), marks, |rounds|);
  }

  // ---- rounds exist ----

  /** Worker `w` is up and holds the lease. */
  predicate Active(s: System, w: nat) {
    w in s.workers && s.workers[w].running && s.workers[w].lease && s.workers[w].site in s.logs
  }

  /** A run in which every step is quiet for `w` and its stream is read to the end. */
  ghost predicate CleanRun(states: seq<System>, steps: seq<Step>, w: nat) {
    && Follows(states, steps)
    && forall j :: 0 <= j < |steps| ==> QuietStep(steps[j], w) && ReadsToEnd(states[j], steps[j], w)
  }

  lemma Prepended(s: System, step: Step, states: seq<System>, steps: seq<Step>, w: nat)
    requires CleanRun(states, steps, w) && Enabled(s, step) && states[0] == Apply(s, step)
    requires QuietStep(step, w) && ReadsToEnd(s, step, w)
    ensures CleanRun([s] + states, [step] + steps, w)
  {
    var states', steps' := [s] + states, [step] + steps;
    forall j | 0 <= j < |steps'|
      ensures Enabled(states'[j], steps'[j]) && states'[j + 1] == Apply(states'[j], steps'[j])
      ensures QuietStep(steps'[j], w) && ReadsToEnd(states'[j], steps'[j], w)
    {
      if j > 0 {
        assert states'[j] == states[j - 1] && steps'[j] == steps[j - 1] && states'[j + 1] == states[j];
      }
    }
  }

  /** Completing the first event of a stream, whatever the filters decide, with a failing mirror write. */
  lemma CompleteOne(s: System, w: nat, verdicts: seq<bool>) returns (mid: System, t: System)
    requires Active(s, w) && s.workers[w].phase.Streaming? && s.workers[w].phase.rest != []
    requires |verdicts| == |s.workers[w].phase.rest[0].record.entry.operations|
    requires Intact(s.workers[w].phase.rest, s.workers[w].peer)
    ensures Enabled(s, Handle(w, verdicts)) && mid == Apply(s, Handle(w, verdicts))
    ensures Enabled(mid, Mirror(w, ZERO_STAMP, false)) && t == Apply(mid, Mirror(w, ZERO_STAMP, false))
    ensures Active(t, w) && t.workers[w].peer == s.workers[w].peer
    ensures t.workers[w].phase == Streaming(s.workers[w].phase.rest[1..])
  {
    IntactTail(s.workers[w].phase.rest, s.workers[w].peer);
    mid := Apply(s, Handle(w, verdicts));
    t := Apply(mid, Mirror(w, ZERO_STAMP, false));
  }

  /** From any intact stream the worker can work it off and come to rest. */
  lemma {:induction false} WorkOff(s: System, w: nat) returns (states: seq<System>, steps: seq<Step>)
    requires Active(s, w) && s.workers[w].phase.Streaming? && Intact(s.workers[w].phase.rest, s.workers[w].peer)
    ensures CleanRun(states, steps, w) && states[0] == s
    ensures Active(states[|steps|], w) && states[|steps|].workers[w].phase == Idle
    decreases |s.workers[w].phase.rest|
  {
    if s.workers[w].phase.rest == [] {
      var t := Apply(s, EndStream(w));
      var u := Apply(t, Save(w, true));
      states, steps := [s, t, u], [EndStream(w), Save(w, true)];
    } else {
      var verdicts := seq(|s.workers[w].phase.rest[0].record.entry.operations|, _ => true);
      var mid, t := CompleteOne(s, w, verdicts);
      states, steps := WorkOff(t, w);
      Prepended(mid, Mirror(w, ZERO_STAMP, false), states, steps, w);
      states, steps := [mid] + states, [Mirror(w, ZERO_STAMP, false)] + steps;
      Prepended(s, Handle(w, verdicts), states, steps, w);
      states, steps := [s] + states, [Handle(w, verdicts)] + steps;
    }
  }

  function Arrived(records: seq<Record>): (events: seq<Event>)
    ensures Records(events) == records
  {
    Map(records, (r: Record) => Good(r))
  }

  /** A running, idle worker with the lease can do a round of any batch size, and is then ready for the next. */
  lemma RoundExists(s: System, w: nat, batch: nat) returns (r: Round)
    requires Inv(s) && Active(s, w) && s.workers[w].phase == Idle && batch > 0
    ensures IsRound(r, w) && r.states[0] == s && r.steps[0].batch == batch
    ensures Inv(End(r)) && Active(End(r), w) && End(r).workers[w].phase == Idle
  {
    var k := s.workers[w];
    assert WorkerInv(s, k);
    var pull := Pull(w, batch, Arrived(SiteRecords(s.logs[k.peer], k.after, k.peer, batch)));
    PullIntact(s, pull);
    var states, steps := WorkOff(Apply(s, pull), w);
    Prepended(s, pull, states, steps, w);
    r := Round([s] + states, [pull] + steps);
    assert End(r) == states[|steps|];
    RoundShrinks(r, w);
  }

  lemma RoundsCons(s: System, r: Round, later: seq<System>, more: seq<Round>, w: nat)
    requires Rounds(later, more, w) && RoundFrom(s, r, later[0], w)
    ensures Rounds([s] + later, [r] + more, w)
  {
    var marks, rounds := [s] + later, [r] + more;
    forall i | 0 <= i < |rounds|
      ensures RoundFrom(marks[i], rounds[i], marks[i + 1], w)
    {
      if i > 0 {
        assert RoundFrom(later[i - 1], more[i - 1], later[i], w);
      }
    }
  }

  lemma {:induction false} RoundsExist(s: System, w: nat, batch: nat, n: nat)
    returns (marks: seq<System>, rounds: seq<Round>)
    requires Inv(s) && Active(s, w) && s.workers[w].phase == Idle && batch > 0
    ensures Rounds(marks, rounds, w) && marks[0] == s && |rounds| == n
    decreases n
  {
    if n == 0 {
      marks, rounds := [s], [];
    } else {
      var r := RoundExists(s, w, batch);
      var later, more := RoundsExist(End(r), w, batch, n - 1);
      marks, rounds := [s] + later, [r] + more;
      RoundsCons(s, r, later, more, w);
    }
  }

  /** So from every reachable state such a worker can be brought to have pulled everything. */
  lemma DrainExists(s: System, w: nat, batch: nat) returns (marks: seq<System>, rounds: seq<Round>)
    requires Inv(s) && Active(s, w) && s.workers[w].phase == Idle && batch > 0
    ensures Rounds(marks, rounds, w) && marks[0] == s
    ensures Inv(marks[|rounds|]) && w in marks[|rounds|].workers && Backlog(marks[|rounds|], w) == 0
  {
    marks, rounds := RoundsExist(s, w, batch, Backlog(s, w));
    RoundsDrain(marks, rounds, w);
  }
}
