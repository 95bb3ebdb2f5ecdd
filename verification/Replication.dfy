/**
 * Multi-site replication as a state machine (crates/pelago-server/src/replicator.rs pulling
 * through crates/pelago-api/src/replication_service.rs): any number of sites, any number of
 * workers per peer pair, leases, crashes, garbled events and failed writes.
 */
module Replication {
  import opened Common
  import opened ByteOrder
  import opened Cdc

  type Site = string

  /** One message of a pull stream; a garbled one has a bad versionstamp or no payload. */
  datatype Event = Good(record: Record) | Garbled(record: Record)

  datatype Phase =
    | Idle
    | Streaming(rest: seq<Event>)
    | Mirroring(vs: Stamp, entry: Entry, kept: seq<Operation>, rest: seq<Event>)
    | Saving

  datatype Worker = Worker(site: Site, peer: Site, running: bool, lease: bool, after: Option<Stamp>, phase: Phase)

  /** `handed` and `garbled` record, per (site, peer), which peer stamps were applied or arrived broken. */
  datatype System = System(logs: map<Site, seq<Record>>,
                           positions: map<(Site, Site), Option<Stamp>>,
                           workers: map<nat, Worker>,
                           handed: set<(Site, Site, Stamp)>,
                           garbled: set<(Site, Site, Stamp)>)

  datatype Step =
    | LocalWrite(at: Site, record: Record)
    | Start(w: nat, readOk: bool)
    | Crash(w: nat)
    | Lease(w: nat, held: bool)
    | Pull(w: nat, batch: nat, events: seq<Event>)
    | EndStream(w: nat)
    | Handle(w: nat, verdicts: seq<bool>)
    | Mirror(w: nat, stamp: Stamp, appendOk: bool)
    | Save(w: nat, writeOk: bool)

  // ---- the pieces of a step ----

  function Records(events: seq<Event>): (r: seq<Record>)
    ensures |r| == |events|
  {
    Map(events, (e: Event) => e.record)
  }

  /** The operations the ownership and last-writer-wins filters let through. */
  function Kept(ops: seq<Operation>, verdicts: seq<bool>): seq<Operation> {
    if ops == [] || verdicts == [] then []
    else (if verdicts[0] then [ops[0]] else []) + Kept(ops[1..], verdicts[1..])
  }

  /** The batch id travels as a plain string, so an empty one comes back as none. */
  function WireBatchId(b: Option<string>): Option<string> {
    if b == Some("") then None else b
  }

  function MirrorEntry(peer: Site, e: Entry, kept: seq<Operation>): Entry {
    Entry(peer, e.timestamp, WireBatchId(e.batchId), kept)
  }

  /** A commit gets a stamp above everything in the log. */
  ghost predicate CanAppend(log: seq<Record>, r: Record) {
    Ordered(log + [r]) && Readable(log + [r])
  }

  function LoadPosition(s: System, w: Worker): Option<Stamp> {
    if (w.site, w.peer) in s.positions then s.positions[(w.site, w.peer)] else None
  }

  ghost predicate Enabled(s: System, step: Step) {
    match step
    case LocalWrite(x, r) => x in s.logs && r.entry.site == x && CanAppend(s.logs[x], r)
    case Start(w, _) => w in s.workers && !s.workers[w].running
    case Crash(w) => w in s.workers
    case Lease(w, _) => w in s.workers && s.workers[w].running && s.workers[w].phase == Idle
    case Pull(w, batch, events) =>
      && w in s.workers && s.workers[w].running && s.workers[w].lease && s.workers[w].phase == Idle
      && batch > 0 && s.workers[w].peer in s.logs
      && Records(events) == SiteRecords(s.logs[s.workers[w].peer], s.workers[w].after, s.workers[w].peer, batch)
    case EndStream(w) => w in s.workers && s.workers[w].running && s.workers[w].phase.Streaming?
    case Handle(w, verdicts) =>
      && w in s.workers && s.workers[w].running && s.workers[w].phase.Streaming? && s.workers[w].phase.rest != []
      && |verdicts| == |s.workers[w].phase.rest[0].record.entry.operations|
    case Mirror(w, stamp, appendOk) =>
      && w in s.workers && s.workers[w].running && s.workers[w].phase.Mirroring? && s.workers[w].site in s.logs
      && (appendOk && s.workers[w].phase.kept != [] ==>
            CanAppend(s.logs[s.workers[w].site],
                      Record(stamp, MirrorEntry(s.workers[w].peer, s.workers[w].phase.entry, s.workers[w].phase.kept))))
    case Save(w, _) => w in s.workers && s.workers[w].running && s.workers[w].phase == Saving
  }

  /** One event of the stream: garbled events change nothing, foreign ones only move the cursor. */
  function HandleEvent(w: Worker, verdicts: seq<bool>): Worker
    requires w.phase.Streaming? && w.phase.rest != []
  {
    var e, tail := w.phase.rest[0], w.phase.rest[1..];
    if e.Garbled? then w.(phase := Streaming(tail))
    else if e.record.entry.site != w.peer then w.(after := Some(e.record.stamp), phase := Streaming(tail))
    else w.(phase := Mirroring(e.record.stamp, e.record.entry, Kept(e.record.entry.operations, verdicts), tail))
  }

  function Apply(s: System, step: Step): System
    requires Enabled(s, step)
  {
    match step
    case LocalWrite(x, r) => s.(logs := s.logs[x := s.logs[x] + [r]])
    case Start(w, readOk) =>
      var k := s.workers[w];
      s.(workers := s.workers[w := k.(running := true, phase := Idle, after := if readOk then LoadPosition(s, k) else None)])
    case Crash(w) => s.(workers := s.workers[w := s.workers[w].(running := false, lease := false, phase := Idle, after := None)])
    case Lease(w, held) => s.(workers := s.workers[w := s.workers[w].(lease := held)])
    case Pull(w, _, events) => s.(workers := s.workers[w := s.workers[w].(phase := Streaming(events))])
    case EndStream(w) => s.(workers := s.workers[w := s.workers[w].(phase := Saving)])
    case Handle(w, verdicts) =>
      var k := s.workers[w];
      var e := k.phase.rest[0];
      var mark := {(k.site, k.peer, e.record.stamp)};
      s.(workers := s.workers[w := HandleEvent(k, verdicts)],
         garbled := if e.Garbled? then s.garbled + mark else s.garbled,
         handed := if e.Good? && e.record.entry.site == k.peer then s.handed + mark else s.handed)
    case Mirror(w, stamp, appendOk) =>
      var k := s.workers[w];
      var p := k.phase;
      s.(workers := s.workers[w := k.(after := Some(p.vs), phase := Streaming(p.rest))],
         logs := if p.kept != [] && appendOk
                 then s.logs[k.site := s.logs[k.site] + [Record(stamp, MirrorEntry(k.peer, p.entry, p.kept))]]
                 else s.logs)
    case Save(w, writeOk) =>
      var k := s.workers[w];
      s.(workers := s.workers[w := k.(phase := Idle)],
         positions := if writeOk then s.positions[(k.site, k.peer) := k.after] else s.positions)
  }

  // ---- invariants ----

  predicate Handled(s: System, x: Site, y: Site, vs: Stamp) {
    (x, y, vs) in s.handed || (x, y, vs) in s.garbled
  }

  /** The cursor `after` stands behind exactly the first `n` records. */
  predicate At(log: seq<Record>, after: Option<Stamp>, n: nat) {
    n <= |log| && after == if n == 0 then None else Some(log[n - 1].stamp)
  }

  /** Every record of site `y` among the first `n` of its log was handed to apply at `x`, or arrived garbled. */
  ghost predicate AllHandled(s: System, x: Site, y: Site, n: nat) {
    y in s.logs && n <= |s.logs[y]|
    && forall i :: 0 <= i < n && s.logs[y][i].entry.site == y ==> Handled(s, x, y, s.logs[y][i].stamp)
  }

  /** The cursor position is safe to resume from. */
  ghost predicate SafeCursor(s: System, x: Site, y: Site, after: Option<Stamp>) {
    exists n :: CursorAt(s, x, y, after, n)
  }

  /** `rest` is what follows, with no gap, of the peer's own records behind position `n`. */
  ghost predicate Gapless(s: System, x: Site, y: Site, rest: seq<Event>, n: nat) {
    AllHandled(s, x, y, n) && Records(rest) <= FromSite(s.logs[y][n..], y)
  }

  predicate Subsequence(a: seq<Operation>, b: seq<Operation>) {
    a == [] || (b != [] && ((a[0] == b[0] && Subsequence(a[1..], b[1..])) || Subsequence(a, b[1..])))
  }

  /** The worker's stream picks up, at or behind its cursor position `a`, without a gap. */
  ghost predicate PhaseInv(s: System, w: Worker, a: nat) {
    match w.phase
    case Idle => true
    case Saving => true
    case Streaming(rest) => exists n :: a <= n && Gapless(s, w.site, w.peer, rest, n)
    case Mirroring(vs, entry, kept, rest) =>
      && Subsequence(kept, entry.operations)
      && exists n :: a < n && Gapless(s, w.site, w.peer, rest, n)
                     && s.logs[w.peer][n - 1] == Record(vs, entry) && entry.site == w.peer
  }

  ghost predicate CursorAt(s: System, x: Site, y: Site, after: Option<Stamp>, n: nat) {
    AllHandled(s, x, y, n) && At(s.logs[y], after, n)
  }

  ghost predicate WorkerInv(s: System, w: Worker) {
    && w.site in s.logs && w.peer in s.logs && w.site != w.peer
    && exists a :: CursorAt(s, w.site, w.peer, w.after, a) && PhaseInv(s, w, a)
  }

  /** Same timestamp, same batch id, a subsequence of the operations. */
  predicate Mirrors(r: Entry, e: Entry) {
    r.timestamp == e.timestamp && r.batchId == WireBatchId(e.batchId) && Subsequence(r.operations, e.operations)
  }

  /** Some own record of site `y` that `r` is a mirror of. */
  ghost predicate HasOrigin(s: System, r: Entry, y: Site) {
    y in s.logs && exists i :: 0 <= i < |s.logs[y]| && s.logs[y][i].entry.site == y && Mirrors(r, s.logs[y][i].entry)
  }

  ghost predicate LogInv(s: System, x: Site)
    requires x in s.logs
  {
    && Ordered(s.logs[x]) && Readable(s.logs[x])
    && forall i :: 0 <= i < |s.logs[x]| && s.logs[x][i].entry.site != x ==>
         HasOrigin(s, s.logs[x][i].entry, s.logs[x][i].entry.site)
  }

  ghost predicate HandedInv(s: System) {
    forall h :: h in s.handed ==>
      h.1 in s.logs && exists i :: 0 <= i < |s.logs[h.1]| && s.logs[h.1][i].stamp == h.2 && s.logs[h.1][i].entry.site == h.1
  }

  ghost predicate Inv(s: System) {
    && (forall x :: x in s.logs ==> LogInv(s, x))
    && (forall w :: w in s.workers ==> WorkerInv(s, s.workers[w]))
    && (forall p :: p in s.positions ==> SafeCursor(s, p.0, p.1, s.positions[p]))
    && HandedInv(s)
  }

  // ---- framing: logs only grow, marks are only added ----

  ghost predicate Grows(s: System, t: System) {
    && s.logs.Keys == t.logs.Keys
    && (forall x :: x in s.logs ==> s.logs[x] <= t.logs[x])
    && s.handed <= t.handed && s.garbled <= t.garbled
  }

  lemma AllHandledGrows(s: System, t: System, x: Site, y: Site, n: nat)
    requires Grows(s, t) && AllHandled(s, x, y, n)
    ensures AllHandled(t, x, y, n)
  {
    assert forall i :: 0 <= i < n ==> t.logs[y][i] == s.logs[y][i];
  }

  lemma CursorGrows(s: System, t: System, x: Site, y: Site, after: Option<Stamp>, n: nat)
    requires Grows(s, t) && CursorAt(s, x, y, after, n)
    ensures CursorAt(t, x, y, after, n)
  {
    AllHandledGrows(s, t, x, y, n);
  }

  lemma GaplessGrows(s: System, t: System, x: Site, y: Site, rest: seq<Event>, n: nat)
    requires Grows(s, t) && Gapless(s, x, y, rest, n)
    ensures Gapless(t, x, y, rest, n)
  {
    AllHandledGrows(s, t, x, y, n);
    var more := t.logs[y][|s.logs[y]|..];
    assert t.logs[y][n..] == s.logs[y][n..] + more;
    FilterAppend(s.logs[y][n..], more, IsFrom(y));
  }

  lemma PhaseInvGrows(s: System, t: System, w: Worker, a: nat)
    requires Grows(s, t) && PhaseInv(s, w, a)
    ensures PhaseInv(t, w, a)
  {
    match w.phase
    case Idle =>
    case Saving =>
    case Streaming(rest) =>
      var n :| a <= n && Gapless(s, w.site, w.peer, rest, n);
      GaplessGrows(s, t, w.site, w.peer, rest, n);
    case Mirroring(vs, entry, kept, rest) =>
      var n :| a < n && Gapless(s, w.site, w.peer, rest, n)
               && s.logs[w.peer][n - 1] == Record(vs, entry) && entry.site == w.peer;
      GaplessGrows(s, t, w.site, w.peer, rest, n);
      assert t.logs[w.peer][n - 1] == s.logs[w.peer][n - 1];
  }

  lemma WorkerInvGrows(s: System, t: System, w: Worker)
    requires Grows(s, t) && WorkerInv(s, w)
    ensures WorkerInv(t, w)
  {
    var a :| CursorAt(s, w.site, w.peer, w.after, a) && PhaseInv(s, w, a);
    CursorGrows(s, t, w.site, w.peer, w.after, a);
    PhaseInvGrows(s, t, w, a);
  }

  lemma CursorOf(s: System, k: Worker) returns (a: nat)
    requires WorkerInv(s, k)
    ensures CursorAt(s, k.site, k.peer, k.after, a) && PhaseInv(s, k, a)
  {
    a :| CursorAt(s, k.site, k.peer, k.after, a) && PhaseInv(s, k, a);
  }

  lemma HasOriginGrows(s: System, t: System, r: Entry, y: Site)
    requires Grows(s, t) && HasOrigin(s, r, y)
    ensures HasOrigin(t, r, y)
  {
    var i :| 0 <= i < |s.logs[y]| && s.logs[y][i].entry.site == y && Mirrors(r, s.logs[y][i].entry);
    assert t.logs[y][i] == s.logs[y][i];
  }

  lemma LogInvSame(s: System, t: System, x: Site)
    requires Grows(s, t) && x in s.logs && LogInv(s, x) && t.logs[x] == s.logs[x]
    ensures LogInv(t, x)
  {
    forall i | 0 <= i < |t.logs[x]| && t.logs[x][i].entry.site != x
      ensures HasOrigin(t, t.logs[x][i].entry, t.logs[x][i].entry.site)
    {
      HasOriginGrows(s, t, s.logs[x][i].entry, s.logs[x][i].entry.site);
    }
  }

  lemma LogInvAppend(s: System, t: System, x: Site, r: Record)
    requires Grows(s, t) && x in s.logs && LogInv(s, x) && t.logs[x] == s.logs[x] + [r]
    requires CanAppend(s.logs[x], r)
    requires r.entry.site != x ==> HasOrigin(t, r.entry, r.entry.site)
    ensures LogInv(t, x)
  {
    forall i | 0 <= i < |t.logs[x]| && t.logs[x][i].entry.site != x
      ensures HasOrigin(t, t.logs[x][i].entry, t.logs[x][i].entry.site)
    {
      if i < |s.logs[x]| {
        HasOriginGrows(s, t, s.logs[x][i].entry, s.logs[x][i].entry.site);
      }
    }
  }

  lemma HandedGrows(s: System, t: System)
    requires Grows(s, t) && HandedInv(s) && t.handed == s.handed
    ensures HandedInv(t)
  {
    forall h | h in t.handed
      ensures h.1 in t.logs
      ensures exists i :: 0 <= i < |t.logs[h.1]| && t.logs[h.1][i].stamp == h.2 && t.logs[h.1][i].entry.site == h.1
    {
      var i :| 0 <= i < |s.logs[h.1]| && s.logs[h.1][i].stamp == h.2 && s.logs[h.1][i].entry.site == h.1;
      assert t.logs[h.1][i] == s.logs[h.1][i];
    }
  }

  ghost predicate LogsKept(s: System, t: System) {
    forall x :: x in t.logs ==> (x in s.logs && t.logs[x] == s.logs[x]) || LogInv(t, x)
  }

  ghost predicate WorkersKept(s: System, t: System) {
    forall w :: w in t.workers ==> (w in s.workers && t.workers[w] == s.workers[w]) || WorkerInv(t, t.workers[w])
  }

  ghost predicate PositionsKept(s: System, t: System) {
    forall p :: p in t.positions ==>
      (p in s.positions && t.positions[p] == s.positions[p]) || SafeCursor(t, p.0, p.1, t.positions[p])
  }

  lemma OneWorkerChanged(s: System, t: System, w: nat)
    requires w in t.workers && t.workers == s.workers[w := t.workers[w]] && WorkerInv(t, t.workers[w])
    ensures WorkersKept(s, t)
  {
  }

  lemma OneLogChanged(s: System, t: System, x: Site)
    requires x in t.logs && t.logs == s.logs[x := t.logs[x]] && LogInv(t, x)
    ensures LogsKept(s, t)
  {
  }

  lemma OnePositionChanged(s: System, t: System, p: (Site, Site), after: Option<Stamp>)
    requires t.positions == s.positions[p := after] && SafeCursor(t, p.0, p.1, after)
    ensures PositionsKept(s, t)
  {
  }

  /** What a step must show of itself; everything it does not touch is framed. */
  lemma InvByFrame(s: System, t: System)
    requires Inv(s) && Grows(s, t)
    requires t.logs == s.logs || LogsKept(s, t)
    requires t.workers == s.workers || WorkersKept(s, t)
    requires t.positions == s.positions || PositionsKept(s, t)
    requires t.handed == s.handed || HandedInv(t)
    ensures Inv(t)
  {
    forall x | x in t.logs
      ensures LogInv(t, x)
    {
      if t.logs[x] == s.logs[x] {
        LogInvSame(s, t, x);
      }
    }
    forall w | w in t.workers
      ensures WorkerInv(t, t.workers[w])
    {
      if w in s.workers && t.workers[w] == s.workers[w] {
        WorkerInvGrows(s, t, s.workers[w]);
      }
    }
    forall p | p in t.positions
      ensures SafeCursor(t, p.0, p.1, t.positions[p])
    {
      if p in s.positions && t.positions[p] == s.positions[p] {
        var n :| CursorAt(s, p.0, p.1, s.positions[p], n);
        CursorGrows(s, t, p.0, p.1, s.positions[p], n);
      }
    }
    if t.handed == s.handed {
      HandedGrows(s, t);
    }
  }

  // ---- each step keeps the invariant ----

  /** A step that moves one worker and touches no log and no position. */
  lemma InvByWorker(s: System, t: System, w: nat)
    requires Inv(s) && w in s.workers && Grows(s, t) && t.logs == s.logs && t.positions == s.positions
    requires w in t.workers && t.workers == s.workers[w := t.workers[w]] && WorkerInv(t, t.workers[w])
    requires t.handed == s.handed || HandedInv(t)
    ensures Inv(t)
  {
    OneWorkerChanged(s, t, w);
    InvByFrame(s, t);
  }

  lemma LocalWriteKeeps(s: System, x: Site, r: Record)
    requires Inv(s) && Enabled(s, LocalWrite(x, r))
    ensures Inv(Apply(s, LocalWrite(x, r)))
  {
    var t := Apply(s, LocalWrite(x, r));
    LogInvAppend(s, t, x, r);
    InvByFrame(s, t);
  }

  /** Loading the stored position, or failing to, leaves the worker with a safe cursor. */
  lemma RestartKeeps(s: System, w: nat, step: Step)
    requires Inv(s) && Enabled(s, step) && ((step.Start? && step.w == w) || step == Crash(w))
    ensures Inv(Apply(s, step))
  {
    var t := Apply(s, step);
    var k := t.workers[w];
    assert WorkerInv(s, s.workers[w]);
    if k.after.None? {
      assert CursorAt(t, k.site, k.peer, k.after, 0) && PhaseInv(t, k, 0);
    } else {
      assert SafeCursor(s, k.site, k.peer, k.after);
      var n :| CursorAt(s, k.site, k.peer, k.after, n);
      CursorGrows(s, t, k.site, k.peer, k.after, n);
      assert PhaseInv(t, k, n);
    }
    InvByWorker(s, t, w);
  }

  lemma VisibleAt(log: seq<Record>, after: Option<Stamp>, n: nat)
    requires Ordered(log) && Readable(log) && At(log, after, n)
    ensures VisibleRecords(log, after) == log[n..]
  {
    if n == 0 {
      FilterAll(log, IsVisible(None));
    } else {
      VisibleAfter(log, n - 1);
    }
  }

  /** A pull returns, without a gap, what follows the cursor. */
  lemma PullGapless(s: System, k: Worker, batch: nat, events: seq<Event>, a: nat)
    requires batch > 0 && CursorAt(s, k.site, k.peer, k.after, a) && LogInv(s, k.peer)
    requires Records(events) == SiteRecords(s.logs[k.peer], k.after, k.peer, batch)
    ensures Gapless(s, k.site, k.peer, events, a)
    ensures |events| == Min(batch, |FromSite(s.logs[k.peer][a..], k.peer)|)
  {
    VisibleAt(s.logs[k.peer], k.after, a);
  }

  /** The lease, pull and end-of-stream steps change only the flag or the phase of one worker. */
  lemma PhaseStepKeeps(s: System, w: nat, step: Step)
    requires Inv(s) && Enabled(s, step) && (step.Lease? || step.Pull? || step.EndStream?) && step.w == w
    ensures Inv(Apply(s, step))
  {
    var t := Apply(s, step);
    var k, k' := s.workers[w], t.workers[w];
    assert WorkerInv(s, k);
    var a := CursorOf(s, k);
    CursorGrows(s, t, k.site, k.peer, k.after, a);
    if step.Pull? {
      PullGapless(s, k, step.batch, step.events, a);
      GaplessGrows(s, t, k.site, k.peer, step.events, a);
    }
    assert PhaseInv(t, k', a);
    InvByWorker(s, t, w);
  }

  lemma SaveKeeps(s: System, w: nat, writeOk: bool)
    requires Inv(s) && Enabled(s, Save(w, writeOk))
    ensures Inv(Apply(s, Save(w, writeOk)))
  {
    var t := Apply(s, Save(w, writeOk));
    var k := s.workers[w];
    assert WorkerInv(s, k);
    var a := CursorOf(s, k);
    CursorGrows(s, t, k.site, k.peer, k.after, a);
    assert PhaseInv(t, t.workers[w], a);
    OneWorkerChanged(s, t, w);
    if writeOk {
      OnePositionChanged(s, t, (k.site, k.peer), k.after);
    }
    InvByFrame(s, t);
  }

  /** The next own record of site `y` at or after position `n`. */
  lemma {:induction false} NextOwn(log: seq<Record>, y: Site, n: nat) returns (m: nat)
    requires n <= |log| && FromSite(log[n..], y) != []
    ensures n <= m < |log| && log[m].entry.site == y
    ensures forall i :: n <= i < m ==> log[i].entry.site != y
    ensures FromSite(log[n..], y) == [log[m]] + FromSite(log[m + 1..], y)
    decreases |log| - n
  {
    assert log[n..][1..] == log[n + 1..];
    if log[n].entry.site == y {
      m := n;
    } else {
      m := NextOwn(log, y, n + 1);
    }
  }

  lemma {:induction false} KeptSubsequence(ops: seq<Operation>, verdicts: seq<bool>)
    ensures Subsequence(Kept(ops, verdicts), ops)
    decreases |ops|
  {
    if ops != [] && verdicts != [] {
      KeptSubsequence(ops[1..], verdicts[1..]);
      var rest := Kept(ops[1..], verdicts[1..]);
      if verdicts[0] {
        assert Kept(ops, verdicts)[1..] == rest;
      } else {
        assert Kept(ops, verdicts) == rest;
      }
    }
  }

  /** The head of a gapless stream is the peer's next own record; consuming it stays gapless. */
  lemma ConsumeHead(s: System, x: Site, y: Site, rest: seq<Event>, n: nat) returns (m: nat)
    requires Gapless(s, x, y, rest, n) && rest != []
    ensures n < m <= |s.logs[y]| && s.logs[y][m - 1] == rest[0].record && rest[0].record.entry.site == y
    ensures forall t: System :: Grows(s, t) && t.logs[y] == s.logs[y] && Handled(t, x, y, rest[0].record.stamp) ==>
              Gapless(t, x, y, rest[1..], m)
  {
    var log := s.logs[y];
    assert Records(rest)[0] == FromSite(log[n..], y)[0];
    var i := NextOwn(log, y, n);
    m := i + 1;
    assert Records(rest[1..]) == Records(rest)[1..];
    assert FromSite(log[n..], y)[1..] == FromSite(log[m..], y);
    assert Records(rest[1..]) <= FromSite(log[m..], y);
    forall t: System | Grows(s, t) && t.logs[y] == log && Handled(t, x, y, rest[0].record.stamp)
      ensures Gapless(t, x, y, rest[1..], m)
    {
      AllHandledGrows(s, t, x, y, n);
    }
  }

  lemma HandledWorker(s: System, t: System, k: Worker, verdicts: seq<bool>, a: nat, n: nat)
    requires k.phase.Streaming? && k.phase.rest != [] && k.site in s.logs && k.peer in s.logs && k.site != k.peer
    requires CursorAt(s, k.site, k.peer, k.after, a) && a <= n && Gapless(s, k.site, k.peer, k.phase.rest, n)
    requires Grows(s, t) && t.logs == s.logs && Handled(t, k.site, k.peer, k.phase.rest[0].record.stamp)
    ensures WorkerInv(t, HandleEvent(k, verdicts))
    ensures HasRecord(s, k.peer, k.phase.rest[0].record)
  {
    var rest, k' := k.phase.rest, HandleEvent(k, verdicts);
    CursorGrows(s, t, k.site, k.peer, k.after, a);
    var m := ConsumeHead(s, k.site, k.peer, rest, n);
    KeptSubsequence(rest[0].record.entry.operations, verdicts);
    assert Gapless(t, k.site, k.peer, rest[1..], m);
    assert PhaseInv(t, k', a);
  }

  ghost predicate HasRecord(s: System, y: Site, r: Record) {
    y in s.logs && r.entry.site == y && exists i :: 0 <= i < |s.logs[y]| && s.logs[y][i] == r
  }

  lemma HandedStep(s: System, t: System, k: Worker, r: Record)
    requires HandedInv(s) && Grows(s, t) && t.logs == s.logs
    requires t.handed <= s.handed + {(k.site, k.peer, r.stamp)}
    requires HasRecord(s, k.peer, r)
    ensures HandedInv(t)
  {
  }

  /** The source-site filter makes the mismatch branch unreachable. */
  lemma HandleKeeps(s: System, w: nat, verdicts: seq<bool>)
    requires Inv(s) && Enabled(s, Handle(w, verdicts))
    ensures Inv(Apply(s, Handle(w, verdicts)))
    ensures s.workers[w].phase.rest[0].record.entry.site == s.workers[w].peer
  {
    var t := Apply(s, Handle(w, verdicts));
    var k := s.workers[w];
    assert WorkerInv(s, k);
    var a := CursorOf(s, k);
    var n :| a <= n && Gapless(s, k.site, k.peer, k.phase.rest, n);
    var m := ConsumeHead(s, k.site, k.peer, k.phase.rest, n);
    HandledWorker(s, t, k, verdicts, a, n);
    HandedStep(s, t, k, k.phase.rest[0].record);
    InvByWorker(s, t, w);
  }

  lemma MirroredWorker(s: System, t: System, k: Worker, a: nat, n: nat)
    requires k.phase.Mirroring? && k.site in s.logs && k.peer in s.logs && k.site != k.peer
    requires a < n && Gapless(s, k.site, k.peer, k.phase.rest, n)
    requires s.logs[k.peer][n - 1] == Record(k.phase.vs, k.phase.entry)
    requires Grows(s, t)
    ensures WorkerInv(t, k.(after := Some(k.phase.vs), phase := Streaming(k.phase.rest)))
  {
    GaplessGrows(s, t, k.site, k.peer, k.phase.rest, n);
    var k' := k.(after := Some(k.phase.vs), phase := Streaming(k.phase.rest));
    assert CursorAt(t, k.site, k.peer, k'.after, n);
    assert PhaseInv(t, k', n);
  }

  lemma MirroredRecord(s: System, t: System, k: Worker, n: nat, stamp: Stamp)
    requires k.phase.Mirroring? && k.peer in s.logs && Subsequence(k.phase.kept, k.phase.entry.operations)
    requires 0 < n <= |s.logs[k.peer]| && s.logs[k.peer][n - 1] == Record(k.phase.vs, k.phase.entry)
    requires k.phase.entry.site == k.peer && Grows(s, t)
    ensures HasOrigin(t, MirrorEntry(k.peer, k.phase.entry, k.phase.kept), k.peer)
  {
    assert t.logs[k.peer][n - 1].entry == k.phase.entry;
    assert Mirrors(MirrorEntry(k.peer, k.phase.entry, k.phase.kept), k.phase.entry);
  }

  lemma MirrorFacts(s: System, k: Worker) returns (a: nat, n: nat)
    requires WorkerInv(s, k) && k.phase.Mirroring?
    ensures Subsequence(k.phase.kept, k.phase.entry.operations)
    ensures a < n && CursorAt(s, k.site, k.peer, k.after, a) && Gapless(s, k.site, k.peer, k.phase.rest, n)
    ensures s.logs[k.peer][n - 1] == Record(k.phase.vs, k.phase.entry) && k.phase.entry.site == k.peer
  {
    a :| CursorAt(s, k.site, k.peer, k.after, a) && PhaseInv(s, k, a);
    n :| a < n && Gapless(s, k.site, k.peer, k.phase.rest, n)
         && s.logs[k.peer][n - 1] == Record(k.phase.vs, k.phase.entry) && k.phase.entry.site == k.peer;
  }

  /** A step that moves one worker and appends to its own site's log. */
  lemma InvByAppend(s: System, t: System, w: nat, x: Site)
    requires Inv(s) && w in s.workers && Grows(s, t) && t.positions == s.positions && t.handed == s.handed
    requires w in t.workers && t.workers == s.workers[w := t.workers[w]] && WorkerInv(t, t.workers[w])
    requires x in s.logs && t.logs == s.logs[x := t.logs[x]] && LogInv(t, x)
    ensures Inv(t)
  {
    OneWorkerChanged(s, t, w);
    OneLogChanged(s, t, x);
    InvByFrame(s, t);
  }

  lemma MirrorKeeps(s: System, w: nat, stamp: Stamp, appendOk: bool)
    requires Inv(s) && Enabled(s, Mirror(w, stamp, appendOk))
    ensures Inv(Apply(s, Mirror(w, stamp, appendOk)))
  {
    var t := Apply(s, Mirror(w, stamp, appendOk));
    var k := s.workers[w];
    var p := k.phase;
    assert WorkerInv(s, k);
    var a, n := MirrorFacts(s, k);
    MirroredWorker(s, t, k, a, n);
    if p.kept != [] && appendOk {
      MirroredRecord(s, t, k, n, stamp);
      LogInvAppend(s, t, k.site, Record(stamp, MirrorEntry(k.peer, p.entry, p.kept)));
      InvByAppend(s, t, w, k.site);
    } else {
      InvByWorker(s, t, w);
    }
  }

  lemma StepKeepsInv(s: System, step: Step)
    requires Inv(s) && Enabled(s, step)
    ensures Inv(Apply(s, step))
  {
    match step
    case LocalWrite(x, r) => LocalWriteKeeps(s, x, r);
    case Start(w, _) => RestartKeeps(s, w, step);
    case Crash(w) => RestartKeeps(s, w, step);
    case Lease(w, _) => PhaseStepKeeps(s, w, step);
    case Pull(w, _, _) => PhaseStepKeeps(s, w, step);
    case EndStream(w) => PhaseStepKeeps(s, w, step);
    case Handle(w, verdicts) => HandleKeeps(s, w, verdicts);
    case Mirror(w, stamp, appendOk) => MirrorKeeps(s, w, stamp, appendOk);
    case Save(w, writeOk) => SaveKeeps(s, w, writeOk);
  }
}
