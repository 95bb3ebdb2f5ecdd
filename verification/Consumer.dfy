/**
 * The checkpointing CDC consumer (crates/pelago-storage/src/consumer.rs): a high-water mark
 * in memory, a checkpoint in the store, and at-least-once delivery across crashes.
 */
module Consumer {
  import opened Common
  import opened ByteOrder
  import opened Encoding
  import opened Cdc

  function PollFrom(log: seq<Record>, hwm: Stamp, batchSize: nat): seq<Record> {
    ReadCdc(log, if hwm == ZERO_STAMP then None else Some(hwm), batchSize)
  }

  function Later(a: Stamp, b: Stamp): Stamp {
    if Less(a, b) then b else a
  }

  /** A missing checkpoint means zero; one of the wrong length is an error. */
  function LoadHwm(stored: Option<Bytes>): Result<Stamp, string> {
    if stored.None? then Ok(ZERO_STAMP)
    else if |stored.value| == 10 then Ok(stored.value)
    else Err("Invalid CDC checkpoint data")
  }

  /** The consumer object and the checkpoint cell it writes. */
  class CdcConsumer {
    var hwm: Stamp
    var stored: Option<Bytes>
    const batchSize: nat

    /** The state the consumer stands for, given the log and what was acknowledged so far. */
    ghost function AsState(log: seq<Record>, acked: Stamp): State
      reads this
    {
      State(log, hwm, if LoadHwm(stored).Ok? then LoadHwm(stored).value else ZERO_STAMP, acked)
    }

    constructor (checkpoint: Option<Bytes>, batchSize: nat)
      requires LoadHwm(checkpoint).Ok?
      ensures forall before: State :: before.saved == LoadHwm(checkpoint).value ==>
                AsState(before.log, before.acked) == Apply(before, Crash)
      ensures hwm == LoadHwm(checkpoint).value && stored == checkpoint && this.batchSize == batchSize
    {
      hwm := LoadHwm(checkpoint).value;
      stored := checkpoint;
      this.batchSize := batchSize;
    }

    method PollBatch(log: seq<Record>) returns (entries: seq<Record>)
      ensures entries == PollFrom(log, hwm, batchSize)
    {
      var after: Option<Stamp> := None;
      if hwm != ZERO_STAMP {
        after := Some(hwm);
      }
      entries := ReadCdc(log, after, batchSize);
    }

    method SaveHwm(writeOk: bool) returns (ok: bool)
      modifies this`stored
      ensures ok == writeOk
      ensures stored == if writeOk then Some(hwm) else old(stored)
      ensures forall log, acked :: AsState(log, acked) == Apply(old(AsState(log, acked)), Checkpoint(writeOk))
    {
      if !writeOk {
        return false;
      }
      stored := Some(hwm);
      ok := true;
    }

    /** `due` is whether the checkpoint interval has elapsed. */
    method AckThrough(vs: Stamp, due: bool, writeOk: bool) returns (ok: bool)
      modifies this
      ensures hwm == Later(old(hwm), vs)
      ensures stored == if due && writeOk then Some(hwm) else old(stored)
      ensures ok == (due ==> writeOk)
      ensures forall log, acked :: AsState(log, Later(acked, vs)) == Apply(old(AsState(log, acked)), Ack(vs, due && writeOk))
    {
      if Less(hwm, vs) {
        hwm := vs;
      }
      ok := true;
      if due {
        ok := SaveHwm(writeOk);
      }
    }

    method AckBatch(entries: seq<Record>, due: bool, writeOk: bool) returns (ok: bool)
      modifies this
      ensures entries == [] ==> ok && hwm == old(hwm) && stored == old(stored)
      ensures entries != [] ==>
                && hwm == Later(old(hwm), entries[|entries| - 1].stamp)
                && stored == (if due && writeOk then Some(hwm) else old(stored))
                && ok == (due ==> writeOk)
    {
      ok := true;
      if entries != [] {
        ok := AckThrough(entries[|entries| - 1].stamp, due, writeOk);
      }
    }
  }

  // ---- every run ----

  /** `acked` is the greatest stamp ever acknowledged, also before a crash. */
  datatype State = State(log: seq<Record>, hwm: Stamp, saved: Stamp, acked: Stamp)

  datatype Step =
    | Append(record: Record)
    | Ack(vs: Stamp, saves: bool)
    | Checkpoint(saves: bool)
    | Crash

  ghost predicate GoodLog(log: seq<Record>) {
    Ordered(log) && Readable(log) && forall i :: 0 <= i < |log| ==> Less(ZERO_STAMP, log[i].stamp)
  }

  /** The mark `vs` covers exactly the first `n` records. */
  predicate At(log: seq<Record>, vs: Stamp, n: nat) {
    n <= |log| && vs == if n == 0 then ZERO_STAMP else log[n - 1].stamp
  }

  ghost predicate OnLog(log: seq<Record>, vs: Stamp) {
    exists n :: At(log, vs, n)
  }

  ghost predicate Enabled(s: State, step: Step) {
    match step
    case Append(r) => GoodLog(s.log + [r])
    case Ack(vs, _) => OnLog(s.log, vs)
    case Checkpoint(_) => true
    case Crash => true
  }

  function Apply(s: State, step: Step): State {
    match step
    case Append(r) => s.(log := s.log + [r])
    case Ack(vs, saves) =>
      var hwm := Later(s.hwm, vs);
      s.(hwm := hwm, saved := if saves then hwm else s.saved, acked := Later(s.acked, vs))
    case Checkpoint(saves) => s.(saved := if saves then s.hwm else s.saved)
    case Crash => s.(hwm := s.saved)
  }

  function Run(s: State, steps: seq<Step>): State {
    if steps == [] then s else Apply(Run(s, steps[..|steps| - 1]), steps[|steps| - 1])
  }

  ghost predicate RunEnabled(s: State, steps: seq<Step>) {
    forall i :: 0 <= i < |steps| ==> Enabled(Run(s, steps[..i]), steps[i])
  }

  const Start: State := State([], ZERO_STAMP, ZERO_STAMP, ZERO_STAMP)

  ghost predicate Inv(s: State) {
    && GoodLog(s.log)
    && OnLog(s.log, s.hwm) && OnLog(s.log, s.saved) && OnLog(s.log, s.acked)
    && AtMost(s.saved, s.hwm) && AtMost(s.hwm, s.acked)
  }

  lemma LaterBounds(a: Stamp, b: Stamp)
    ensures AtMost(a, Later(a, b)) && AtMost(b, Later(a, b))
  {
    LessTrichotomy(a, b);
  }

  lemma LaterMonotone(a: Stamp, b: Stamp, c: Stamp)
    requires AtMost(a, b)
    ensures AtMost(Later(a, c), Later(b, c))
  {
    LessTrichotomy(b, c);
    if a != b && Less(b, c) {
      LessTransitive(a, b, c);
    }
  }

  lemma AtMostTransitive(a: Stamp, b: Stamp, c: Stamp)
    requires AtMost(a, b) && AtMost(b, c)
    ensures AtMost(a, c)
  {
    if a != b && b != c {
      LessTransitive(a, b, c);
    }
  }

  lemma OnLogGrows(log: seq<Record>, r: Record, vs: Stamp)
    requires OnLog(log, vs)
    ensures OnLog(log + [r], vs)
  {
    var n :| At(log, vs, n);
    assert At(log + [r], vs, n);
  }

  lemma StepKeepsInv(s: State, step: Step)
    requires Inv(s) && Enabled(s, step)
    ensures Inv(Apply(s, step))
    ensures step != Crash ==> AtMost(s.hwm, Apply(s, step).hwm)
  {
    match step
    case Append(r) =>
      OnLogGrows(s.log, r, s.hwm);
      OnLogGrows(s.log, r, s.saved);
      OnLogGrows(s.log, r, s.acked);
    case Ack(vs, _) =>
      LaterBounds(s.hwm, vs);
      LaterMonotone(s.hwm, s.acked, vs);
      AtMostTransitive(s.saved, s.hwm, Later(s.hwm, vs));
    case Checkpoint(_) =>
    case Crash =>
      AtMostTransitive(s.saved, s.hwm, s.acked);
  }

  /** In every run the saved mark never exceeds the in-memory mark, nor that the acknowledged one. */
  lemma {:induction false} RunKeepsInv(steps: seq<Step>)
    requires RunEnabled(Start, steps)
    ensures Inv(Run(Start, steps))
    decreases |steps|
  {
    if steps == [] {
      assert At([], ZERO_STAMP, 0);
    } else {
      var n := |steps| - 1;
      forall i | 0 <= i < n
        ensures Enabled(Run(Start, steps[..n][..i]), steps[..n][i])
      {
        assert steps[..n][..i] == steps[..i];
      }
      RunKeepsInv(steps[..n]);
      assert Enabled(Run(Start, steps[..n]), steps[n]);
      StepKeepsInv(Run(Start, steps[..n]), steps[n]);
    }
  }

  // ---- nothing unacknowledged is lost ----

  lemma PollSlice(log: seq<Record>, hwm: Stamp, batchSize: nat, n: nat)
    requires GoodLog(log) && At(log, hwm, n)
    ensures PollFrom(log, hwm, batchSize) == log[n..Min(n + batchSize, |log|)]
  {
    if n == 0 {
      FilterAll(log, IsVisible(None));
      ReadSlice(log, None, 0, batchSize);
    } else {
      LessIrreflexive(ZERO_STAMP);
      VisibleAfter(log, n - 1);
      ReadSlice(log, Some(hwm), n, batchSize);
    }
  }

  /** Poll a batch and acknowledge all of it. */
  function Round(s: State, batchSize: nat): State {
    var batch := PollFrom(s.log, s.hwm, batchSize);
    if batch == [] then s else Apply(s, Ack(batch[|batch| - 1].stamp, false))
  }

  function Rounds(s: State, batchSize: nat, n: nat): State
    decreases n
  {
    if n == 0 then s else Rounds(Round(s, batchSize), batchSize, n - 1)
  }

  lemma MarkOrder(log: seq<Record>, n: nat, m: nat)
    requires GoodLog(log) && n < m <= |log|
    ensures Less(if n == 0 then ZERO_STAMP else log[n - 1].stamp, log[m - 1].stamp)
  {
  }

  /** One round moves the mark over the next batch. */
  lemma RoundAdvances(s: State, batchSize: nat, n: nat)
    requires GoodLog(s.log) && At(s.log, s.hwm, n) && batchSize > 0
    ensures Round(s, batchSize).log == s.log
    ensures At(s.log, Round(s, batchSize).hwm, Min(n + batchSize, |s.log|))
  {
    PollSlice(s.log, s.hwm, batchSize, n);
    if n < |s.log| {
      MarkOrder(s.log, n, Min(n + batchSize, |s.log|));
    }
  }

  ghost predicate Returns(s: State, batchSize: nat, r: Record) {
    r in PollFrom(s.log, s.hwm, batchSize)
  }

  lemma PollReturns(s: State, batchSize: nat, i: nat, n: nat)
    requires GoodLog(s.log) && At(s.log, s.hwm, n) && n <= i < |s.log| && i < n + batchSize
    ensures Returns(s, batchSize, s.log[i])
  {
    PollSlice(s.log, s.hwm, batchSize, n);
    assert s.log[n..Min(n + batchSize, |s.log|)][i - n] == s.log[i];
  }

  // The argument apart from the log: positions move on by a batch per round until the record is in reach.

  type Positions = (State, nat) -> bool

  type Delivery = (State, nat) -> bool

  predicate MovesOn(at: Positions, round: State -> State, batchSize: nat, i: nat, s: State, n: nat) {
    at(s, n) && n + batchSize <= i ==> at(round(s), n + batchSize)
  }

  predicate Reaches(at: Positions, delivers: Delivery, batchSize: nat, i: nat, s: State, n: nat) {
    at(s, n) && n <= i < n + batchSize ==> delivers(s, 0)
  }

  predicate CountsRounds(delivers: Delivery, round: State -> State, s: State, k: nat) {
    delivers(round(s), k) ==> delivers(s, k + 1)
  }

  lemma {:induction false} RoundByRound(at: Positions, delivers: Delivery, round: State -> State, batchSize: nat, i: nat,
                                        s: State, n: nat)
    returns (k: nat)
    requires at(s, n) && batchSize > 0 && n <= i
    requires forall s: State, n: nat :: MovesOn(at, round, batchSize, i, s, n)
    requires forall s: State, n: nat :: Reaches(at, delivers, batchSize, i, s, n)
    requires forall s: State, k: nat :: CountsRounds(delivers, round, s, k)
    ensures delivers(s, k)
    decreases i - n
  {
    if i < n + batchSize {
      k := 0;
      assert Reaches(at, delivers, batchSize, i, s, n);
    } else {
      assert MovesOn(at, round, batchSize, i, s, n);
      var m := RoundByRound(at, delivers, round, batchSize, i, round(s), n + batchSize);
      k := m + 1;
      assert CountsRounds(delivers, round, s, m);
    }
  }

  ghost function AtOn(log: seq<Record>): Positions {
    (s: State, n: nat) => s.log == log && GoodLog(log) && At(log, s.hwm, n)
  }

  ghost function ReturnsAfter(batchSize: nat, r: Record): Delivery {
    (s: State, k: nat) => Returns(Rounds(s, batchSize, k), batchSize, r)
  }

  function RoundOf(batchSize: nat): State -> State {
    (s: State) => Round(s, batchSize)
  }

  lemma RoundMovesOn(log: seq<Record>, batchSize: nat, i: nat, s: State, n: nat)
    requires batchSize > 0 && i < |log|
    ensures MovesOn(AtOn(log), RoundOf(batchSize), batchSize, i, s, n)
  {
    if AtOn(log)(s, n) && n + batchSize <= i {
      RoundAdvances(s, batchSize, n);
    }
  }

  lemma PollReaches(log: seq<Record>, batchSize: nat, i: nat, s: State, n: nat)
    requires i < |log|
    ensures Reaches(AtOn(log), ReturnsAfter(batchSize, log[i]), batchSize, i, s, n)
  {
    if AtOn(log)(s, n) && n <= i < n + batchSize {
      PollReturns(s, batchSize, i, n);
    }
  }

  /** Records above the mark are delivered after finitely many rounds. */
  lemma Delivered(s: State, batchSize: nat, i: nat, n: nat) returns (k: nat)
    requires GoodLog(s.log) && At(s.log, s.hwm, n) && batchSize > 0 && n <= i < |s.log|
    ensures Returns(Rounds(s, batchSize, k), batchSize, s.log[i])
  {
    var at, delivers, round := AtOn(s.log), ReturnsAfter(batchSize, s.log[i]), RoundOf(batchSize);
    forall t: State, m: nat
      ensures MovesOn(at, round, batchSize, i, t, m)
      ensures Reaches(at, delivers, batchSize, i, t, m)
      ensures CountsRounds(delivers, round, t, m)
    {
      RoundMovesOn(s.log, batchSize, i, t, m);
      PollReaches(s.log, batchSize, i, t, m);
    }
    k := RoundByRound(at, delivers, round, batchSize, i, s, n);
  }

  lemma AboveMark(log: seq<Record>, vs: Stamp, n: nat, i: nat)
    requires GoodLog(log) && At(log, vs, n) && i < |log| && Less(vs, log[i].stamp)
    ensures n <= i
  {
    LessTrichotomy(vs, log[i].stamp);
  }

  /**
   * At least once: in any reachable state, an entry above everything ever acknowledged is
   * returned by some later poll, whatever crashes came before.
   */
  lemma UnackedIsDelivered(steps: seq<Step>, batchSize: nat, i: nat)
    requires RunEnabled(Start, steps) && batchSize > 0
    requires var s := Run(Start, steps);
             i < |s.log| && Less(s.acked, s.log[i].stamp)
    ensures var s := Run(Start, steps);
            exists k: nat :: Returns(Rounds(s, batchSize, k), batchSize, s.log[i])
  {
    var s := Run(Start, steps);
    RunKeepsInv(steps);
    AtMostLess(s.hwm, s.acked, s.log[i].stamp);
    var n :| At(s.log, s.hwm, n);
    AboveMark(s.log, s.hwm, n, i);
    var k := Delivered(s, batchSize, i, n);
  }

  // ---- what was acknowledged is not repeated ----

  /** The step writes the checkpoint. */
  predicate Saves(step: Step) {
    (step.Ack? || step.Checkpoint?) && step.saves
  }

  lemma StepKeepsSaved(s: State, step: Step)
    requires Inv(s) && Enabled(s, step)
    ensures AtMost(s.saved, Apply(s, step).saved)
    ensures Saves(step) ==> Apply(s, step).saved == Apply(s, step).hwm
  {
    if step.Ack? {
      LaterBounds(s.hwm, step.vs);
      AtMostTransitive(s.saved, s.hwm, Later(s.hwm, step.vs));
    }
  }

  lemma RunPrefix(steps: seq<Step>, n: nat)
    requires RunEnabled(Start, steps) && n <= |steps|
    ensures RunEnabled(Start, steps[..n])
  {
    forall i | 0 <= i < n
      ensures Enabled(Run(Start, steps[..n][..i]), steps[..n][i])
    {
      assert steps[..n][..i] == steps[..i];
    }
  }

  /** One step further in a run. */
  lemma RunStep(steps: seq<Step>, n: nat)
    requires RunEnabled(Start, steps) && n < |steps|
    ensures Inv(Run(Start, steps[..n])) && Enabled(Run(Start, steps[..n]), steps[n])
    ensures Run(Start, steps[..n + 1]) == Apply(Run(Start, steps[..n]), steps[n])
  {
    RunPrefix(steps, n);
    RunKeepsInv(steps[..n]);
    assert steps[..n + 1][..n] == steps[..n];
  }

  /** Along a run the checkpoint never goes back. */
  lemma {:induction false} RunKeepsSaved(steps: seq<Step>, n: nat, m: nat)
    requires RunEnabled(Start, steps) && n <= m <= |steps|
    ensures AtMost(Run(Start, steps[..n]).saved, Run(Start, steps[..m]).saved)
    decreases m - n
  {
    if n < m {
      RunKeepsSaved(steps, n, m - 1);
      RunStep(steps, m - 1);
      StepKeepsSaved(Run(Start, steps[..m - 1]), steps[m - 1]);
      AtMostTransitive(Run(Start, steps[..n]).saved, Run(Start, steps[..m - 1]).saved, Run(Start, steps[..m]).saved);
    }
  }

  lemma StepKeepsMark(steps: seq<Step>, n: nat)
    requires RunEnabled(Start, steps) && n < |steps| && steps[n] != Crash
    ensures AtMost(Run(Start, steps[..n]).hwm, Run(Start, steps[..n + 1]).hwm)
  {
    RunStep(steps, n);
    StepKeepsInv(Run(Start, steps[..n]), steps[n]);
  }

  /** Without a crash the mark in memory never goes back either. */
  lemma {:induction false} RunKeepsMark(steps: seq<Step>, n: nat, m: nat)
    requires RunEnabled(Start, steps) && n <= m <= |steps| && forall i :: n <= i < m ==> steps[i] != Crash
    ensures AtMost(Run(Start, steps[..n]).hwm, Run(Start, steps[..m]).hwm)
    decreases m - n
  {
    if n < m {
      RunKeepsMark(steps, n, m - 1);
      StepKeepsMark(steps, m - 1);
      AtMostTransitive(Run(Start, steps[..n]).hwm, Run(Start, steps[..m - 1]).hwm, Run(Start, steps[..m]).hwm);
    }
  }

  lemma SliceIndex(log: seq<Record>, n: nat, m: nat, r: Record) returns (i: nat)
    requires n <= m <= |log| && r in log[n..m]
    ensures n <= i < m && log[i] == r
  {
    var k :| 0 <= k < |log[n..m]| && log[n..m][k] == r;
    i := n + k;
  }

  lemma PolledAt(log: seq<Record>, hwm: Stamp, batchSize: nat, n: nat, r: Record)
    requires GoodLog(log) && At(log, hwm, n) && r in PollFrom(log, hwm, batchSize)
    ensures Less(hwm, r.stamp)
  {
    PollSlice(log, hwm, batchSize, n);
    var i := SliceIndex(log, n, Min(n + batchSize, |log|), r);
    MarkOrder(log, n, i + 1);
  }

  /** A poll returns records above the mark only. */
  lemma PollAbove(s: State, batchSize: nat, r: Record)
    requires Inv(s) && Returns(s, batchSize, r)
    ensures Less(s.hwm, r.stamp)
  {
    var n: nat :| At(s.log, s.hwm, n);
    PolledAt(s.log, s.hwm, batchSize, n, r);
  }

  lemma AboveThrough(a: Stamp, b: Stamp, c: Stamp, d: Stamp)
    requires AtMost(a, b) && AtMost(b, c) && Less(c, d)
    ensures Less(a, d)
  {
    AtMostTransitive(a, b, c);
    AtMostLess(a, c, d);
  }

  lemma SavedHere(steps: seq<Step>, n: nat)
    requires RunEnabled(Start, steps) && n < |steps| && Saves(steps[n])
    ensures Run(Start, steps[..n + 1]).saved == Run(Start, steps[..n + 1]).hwm
  {
    RunStep(steps, n);
    StepKeepsSaved(Run(Start, steps[..n]), steps[n]);
  }

  lemma SavedStays(steps: seq<Step>, n: nat, m: nat)
    requires RunEnabled(Start, steps) && n < m <= |steps| && Saves(steps[n])
    ensures AtMost(Run(Start, steps[..n + 1]).hwm, Run(Start, steps[..m]).saved)
  {
    SavedHere(steps, n);
    RunKeepsSaved(steps, n + 1, m);
  }

  lemma ReturnedAboveSaved(steps: seq<Step>, batchSize: nat, r: Record)
    requires RunEnabled(Start, steps) && Returns(Run(Start, steps), batchSize, r)
    ensures Less(Run(Start, steps).hwm, r.stamp) && AtMost(Run(Start, steps).saved, Run(Start, steps).hwm)
  {
    RunKeepsInv(steps);
    PollAbove(Run(Start, steps), batchSize, r);
  }

  /** What was acknowledged when the checkpoint was written is never returned again, whatever crashes follow. */
  lemma SavedIsNotRepeated(steps: seq<Step>, n: nat, batchSize: nat, r: Record)
    requires RunEnabled(Start, steps) && n < |steps| && Saves(steps[n])
    requires Returns(Run(Start, steps), batchSize, r)
    ensures Less(Run(Start, steps[..n + 1]).hwm, r.stamp)
  {
    assert steps[..|steps|] == steps;
    SavedStays(steps, n, |steps|);
    ReturnedAboveSaved(steps, batchSize, r);
    AboveThrough(Run(Start, steps[..n + 1]).hwm, Run(Start, steps).saved, Run(Start, steps).hwm, r.stamp);
  }

  /** Without a crash in between, nothing acknowledged is returned again, checkpoint or not. */
  lemma AckedIsNotRepeated(steps: seq<Step>, n: nat, batchSize: nat, r: Record)
    requires RunEnabled(Start, steps) && n < |steps| && steps[n].Ack?
    requires forall i :: n < i < |steps| ==> steps[i] != Crash
    requires Returns(Run(Start, steps), batchSize, r)
    ensures Less(steps[n].vs, r.stamp)
  {
    var m := |steps|;
    assert steps[..m] == steps;
    RunStep(steps, n);
    LaterBounds(Run(Start, steps[..n]).hwm, steps[n].vs);
    RunKeepsMark(steps, n + 1, m);
    ReturnedAboveSaved(steps, batchSize, r);
    AboveThrough(steps[n].vs, Run(Start, steps[..n + 1]).hwm, Run(Start, steps).hwm, r.stamp);
  }

  /** Any number of polls of size zero delivers nothing and leaves the state as it is. */
  lemma {:induction false} ZeroBatchesStall(s: State, n: nat, r: Record)
    ensures Rounds(s, 0, n) == s && !Returns(Rounds(s, 0, n), 0, r)
    decreases n
  {
    if n > 0 {
      ZeroBatchesStall(s, n - 1, r);
    }
  }
}
