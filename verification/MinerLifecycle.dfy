/** Whole runs of the miner: stop and drain from any state, a batch from start to done, and nothing in between. */
module MinerLifecycle {
  import opened Options
  import opened Sha256Spec
  import opened Sha256Core
  import opened HashEngine
  import opened ResultFifo
  import opened MinerControl
  import opened MiningBatch
  import opened BatchDelivery

  ghost predicate EmptyFifo(f: FifoView) {
    f == EMPTY.(clearing := f.clearing)
  }

  /** Nothing is running, queued, in the result register or on its way. */
  ghost predicate Silent(s: Sys) {
    && s.ctl.load.stage == LOAD_IDLE && s.ctl.pulses.engineStart == Nothing
    && !s.ctl.status.running && !s.ctl.status.resultValid
    && Resting(s.e0) && Resting(s.e1) && Resting(s.e2)
    && EmptyFifo(s.f0) && EmptyFifo(s.f1)
  }

  predicate Starting(w: Write) {
    w.WriteControl? && w.start
  }

  lemma EmptyFifoStays(depth: nat, base: nat, f: FifoView, i: FifoIn)
    requires EmptyFifo(f) && |i.ports.valid| == 2 == |i.ports.nonce| && !i.ports.valid[0] && !i.ports.valid[1]
    ensures EmptyFifo(FifoStep(depth, base, f, i))
  {
    NoHits(base, i.ports, 0);
  }

  /** With empty collectors and an empty register the arbiter fetches nothing. */
  lemma SilentControl(s: Sys, w: Write)
    requires s.ctl.load.stage == LOAD_IDLE && !s.ctl.status.running && !s.ctl.status.resultValid && !Starting(w)
    requires EmptyFifo(s.f0) && EmptyFifo(s.f1)
    ensures var c := ControlStep(s.ctl, w, SeenBy(s));
            && c.load.stage == LOAD_IDLE && c.pulses.engineStart == Nothing
            && !c.status.running && !c.status.resultValid
  {
    hide LaneBusy;
  }

  /** Silence lasts until the next start write, whatever else is written. */
  lemma SilenceLasts(p: Params, s: Sys, w: Write)
    requires Silent(s) && !Starting(w)
    ensures Silent(SysStep(p, s, w))
  {
    hide SysStep, ControlStep, EngineStep, FifoStep, SeenBy, EmptyFifo, Ready;
    SysStepParts(p, s, w);
    var t := SysStep(p, s, w);
    assert LaneOf(t, 0) == t.e0 && LaneOf(t, 1) == t.e1 && LaneOf(t, 2) == t.e2;
    SilentControl(s, w);
    RestStep(Cfg(p), s.e0, LaneIn(s.ctl, 0));
    RestStep(Cfg(p), s.e1, LaneIn(s.ctl, 1));
    RestStep(Cfg(p), s.e2, LaneIn(s.ctl, 2));
    EmptyFifoStays(p.depth, 0, s.f0, CollectorIn(s, 0));
    EmptyFifoStays(p.depth, 2, s.f1, CollectorIn(s, 1));
  }

  lemma {:induction false} SilentRun(p: Params, s: Sys, ws: seq<Write>)
    requires Silent(s) && forall k :: 0 <= k < |ws| ==> !Starting(ws[k])
    ensures Silent(SysRun(p, s, ws))
  {
    hide SysStep, Silent;
    if ws != [] {
      SilentRun(p, s, ws[..|ws| - 1]);
      SilenceLasts(p, SysRun(p, s, ws[..|ws| - 1]), ws[|ws| - 1]);
    }
  }

  // ----- stop -----

  /** A lane m clocks after the stop write took effect. The core still finishes what it had begun. */
  ghost predicate LaneStopped(fourPhase: bool, m: nat, e: EngineView) {
    && (m >= 1 ==> e.lane.stage == IDLE && !e.lane.coreStart && !e.lane.resultValid)
    && (m >= 2 ==> !e.lane.done)
    && (m >= 1 && e.core.work.Busy? ==> e.core.work.age + 1 >= m)
    && (m > Latency(fourPhase) ==> e.core.work == Sha256Core.Idle)
  }

  lemma LaneStops(cfg: Config, m: nat, e: EngineView, i: EngineIn)
    requires LaneStopped(cfg.fourPhase, m, e) && (if m == 0 then i.stop else !i.start)
    ensures LaneStopped(cfg.fourPhase, m + 1, EngineStep(cfg, e, i))
  {
    hide CoreInput, Compress, CompareWord;
  }

  /** The miner m clocks after the stop write took effect. */
  ghost predicate StoppedAt(p: Params, m: nat, s: Sys) {
    && s.ctl.load.stage == LOAD_IDLE && !s.ctl.status.running && s.ctl.pulses.engineStart == Nothing
    && (m == 0 ==> s.ctl.pulses.stop && s.ctl.pulses.engineStop)
    && LaneStopped(p.fourPhase, m, s.e0) && LaneStopped(p.fourPhase, m, s.e1) && LaneStopped(p.fourPhase, m, s.e2)
    && (m == 1 ==> s.f0.clearing && s.f1.clearing)
    && (m >= 2 ==> EmptyFifo(s.f0) && EmptyFifo(s.f1))
  }

  lemma StopControl(c: Control, w: Write, seen: Seen)
    requires Stops(w) || (c.load.stage == LOAD_IDLE && !c.status.running && !Starting(w))
    ensures var d := ControlStep(c, w, seen);
            && d.load.stage == LOAD_IDLE && !d.status.running && d.pulses.engineStart == Nothing
            && (Stops(w) ==> d.pulses.stop && d.pulses.engineStop)
  {
    hide Fetch;
  }

  lemma StopBegins(p: Params, s: Sys, w: Write)
    requires Stops(w)
    ensures StoppedAt(p, 0, SysStep(p, s, w))
  {
    hide SysStep, ControlStep, EngineStep, FifoStep, SeenBy;
    SysStepParts(p, s, w);
    StopControl(s.ctl, w, SeenBy(s));
  }

  lemma ClearFollows(depth: nat, base: nat, f: FifoView, i: FifoIn)
    requires |i.ports.valid| == |i.ports.nonce|
    ensures FifoStep(depth, base, f, i).clearing == i.clear
    ensures f.clearing ==> EmptyFifo(FifoStep(depth, base, f, i))
  {
    hide Hits;
  }

  lemma StopContinues(p: Params, m: nat, s: Sys, w: Write)
    requires StoppedAt(p, m, s) && !Starting(w)
    ensures StoppedAt(p, m + 1, SysStep(p, s, w))
  {
    hide SysStep, ControlStep, EngineStep, FifoStep, SeenBy, EmptyFifo;
    SysStepParts(p, s, w);
    var t := SysStep(p, s, w);
    assert LaneOf(t, 0) == t.e0 && LaneOf(t, 1) == t.e1 && LaneOf(t, 2) == t.e2;
    StopControl(s.ctl, w, SeenBy(s));
    LaneStops(Cfg(p), m, s.e0, LaneIn(s.ctl, 0));
    LaneStops(Cfg(p), m, s.e1, LaneIn(s.ctl, 1));
    LaneStops(Cfg(p), m, s.e2, LaneIn(s.ctl, 2));
    ClearFollows(p.depth, 0, s.f0, CollectorIn(s, 0));
    ClearFollows(p.depth, 2, s.f1, CollectorIn(s, 1));
    if m >= 2 {
      EmptyFifoStays(p.depth, 0, s.f0, CollectorIn(s, 0));
      EmptyFifoStays(p.depth, 2, s.f1, CollectorIn(s, 1));
    }
  }

  lemma {:induction false} StopRun(p: Params, s: Sys, w: Write, ws: seq<Write>)
    requires Stops(w) && forall k :: 0 <= k < |ws| ==> !Starting(ws[k])
    ensures StoppedAt(p, |ws|, SysRun(p, SysStep(p, s, w), ws))
  {
    hide SysStep, StoppedAt;
    if ws == [] {
      StopBegins(p, s, w);
    } else {
      var n := |ws| - 1;
      StopRun(p, s, w, ws[..n]);
      StopContinues(p, n, SysRun(p, SysStep(p, s, w), ws[..n]), ws[n]);
    }
  }

  /** Two clocks after the stop the collectors are flushed, so a clear write then empties the register for good. */
  lemma {:induction false} ClearedForGood(p: Params, s: Sys, w: Write, ws: seq<Write>, i: nat)
    requires Stops(w) && forall k :: 0 <= k < |ws| ==> !Starting(ws[k])
    requires 2 <= i < |ws| && ws[i] == WriteControl(false, false, true)
    ensures !SysRun(p, SysStep(p, s, w), ws).ctl.status.resultValid
  {
    hide SysStep, StoppedAt, EmptyFifo;
    var n := |ws| - 1;
    var u := SysRun(p, SysStep(p, s, w), ws[..n]);
    StopRun(p, s, w, ws[..n]);
    FlushedMeans(p, n, u);
    if i < n {
      ClearedForGood(p, s, w, ws[..n], i);
    }
    EmptyStaysEmpty(p, u, ws[n]);
  }

  lemma FlushedMeans(p: Params, m: nat, s: Sys)
    requires StoppedAt(p, m, s) && m >= 2
    ensures EmptyFifo(s.f0) && EmptyFifo(s.f1)
  {
    hide LaneStopped;
  }

  lemma EmptyStaysEmpty(p: Params, s: Sys, w: Write)
    requires EmptyFifo(s.f0) && EmptyFifo(s.f1) && !Starting(w)
    requires s.ctl.status.resultValid ==> w == WriteControl(false, false, true)
    ensures !SysStep(p, s, w).ctl.status.resultValid
  {
    hide EngineStep, FifoStep, LaneBusy, NextLauncher;
  }

  /**
   * The firmware's stop sequence, from any state of the miner whatsoever: a stop write, then more than one core latency
   * of clocks without a start, among them a clear write at least two clocks after the stop. The miner is then silent,
   * whether the core drains before or after the clear write. The result register may hold a stale result until then.
   */
  lemma StopSequenceSilences(p: Params, s: Sys, ws: seq<Write>, i: nat)
    requires |ws| > Latency(p.fourPhase) && forall k :: 0 <= k < |ws| ==> !Starting(ws[k])
    requires 2 <= i < |ws| && ws[i] == WriteControl(false, false, true)
    ensures Silent(SysRun(p, SysStep(p, s, WriteControl(false, true, false)), ws))
  {
    hide SysStep, SysRun, StoppedAt, EmptyFifo;
    var stop := WriteControl(false, true, false);
    StopRun(p, s, stop, ws);
    StoppedMeans(p, |ws|, SysRun(p, SysStep(p, s, stop), ws));
    ClearedForGood(p, s, stop, ws, i);
  }

  lemma StoppedMeans(p: Params, m: nat, s: Sys)
    requires StoppedAt(p, m, s) && m > Latency(p.fourPhase)
    ensures s.ctl.load.stage == LOAD_IDLE && !s.ctl.status.running && s.ctl.pulses.engineStart == Nothing
    ensures Resting(s.e0) && Resting(s.e1) && Resting(s.e2) && EmptyFifo(s.f0) && EmptyFifo(s.f1)
  {
  }

  /** Why the clear comes last: in the clock of a clear write the arbiter still fetches, so the register is empty
      afterwards exactly if it was full before or the collectors had nothing to show. */
  lemma ClearAloneRefetches(s: Sys, clear: Write)
    requires clear == WriteControl(false, false, true)
    ensures ControlStep(s.ctl, clear, SeenBy(s)).status.resultValid
       <==> !s.ctl.status.resultValid && (s.f0.queue != [] || s.f1.queue != [])
  {
    hide LaneBusy;
  }

  // ----- a batch -----

  lemma StartControl(s: Sys, w: Write)
    requires Silent(s) && w == WriteControl(true, false, false)
    ensures var c := ControlStep(s.ctl, w, SeenBy(s));
            && ControlAt(s.ctl.job, 0, c) && c.pulses.pop == Nothing
            && c.status.running && !c.status.nonceDone && !c.status.overflow && !c.status.resultValid
  {
    hide LaneBusy, ControlAt;
    ControlStarts(s.ctl, w, SeenBy(s));
  }

  lemma EmptyFlow(f: FifoView, c: nat, st: Status)
    requires EmptyFifo(f) && !st.resultValid
    ensures FlowHolds([], c, f, st, Nothing, [])
  {
  }

  lemma BatchStarts(p: Params, s: Sys, w: Write)
    requires Silent(s) && w == WriteControl(true, false, false)
    ensures BatchAt(p, s.ctl.job, 0, SysStep(p, s, w), [])
  {
    hide SysStep, ControlStep, EngineStep, FifoStep, SeenBy, Ready, FlowHolds, ControlAt, LaneEnd, Quota;
    SysStepParts(p, s, w);
    var t := SysStep(p, s, w);
    assert LaneOf(t, 0) == t.e0 && LaneOf(t, 1) == t.e1 && LaneOf(t, 2) == t.e2;
    StartControl(s, w);
    RestStep(Cfg(p), s.e0, LaneIn(s.ctl, 0));
    RestStep(Cfg(p), s.e1, LaneIn(s.ctl, 1));
    RestStep(Cfg(p), s.e2, LaneIn(s.ctl, 2));
    EmptyFifoStays(p.depth, 0, s.f0, CollectorIn(s, 0));
    EmptyFifoStays(p.depth, 2, s.f1, CollectorIn(s, 1));
    EmptyFlow(t.f0, 0, t.ctl.status);
    EmptyFlow(t.f1, 1, t.ctl.status);
  }

  /** The results acknowledged along a run. */
  ghost function Acked(p: Params, s: Sys, ws: seq<Write>): seq<Result> {
    if ws == [] then []
    else
      var n := |ws| - 1;
      NextAcked(SysRun(p, s, ws[..n]).ctl.status, ws[n], Acked(p, s, ws[..n]))
  }

  ghost predicate AllGentle(ws: seq<Write>) {
    forall k :: 0 <= k < |ws| ==> Gentle(ws[k])
  }

  const START := WriteControl(true, false, false)

  /** Every run of a batch from a silent miner, under any pattern of acknowledgements, follows the closed form. */
  lemma {:induction false} BatchRun(p: Params, s: Sys, ws: seq<Write>)
    requires Silent(s) && AllGentle(ws)
    ensures var t := SysStep(p, s, START);
            BatchAt(p, s.ctl.job, |ws|, SysRun(p, t, ws), Acked(p, t, ws))
  {
    hide SysStep, BatchAt, Silent;
    if ws == [] {
      BatchStarts(p, s, START);
    } else {
      var n := |ws| - 1;
      var t := SysStep(p, s, START);
      BatchRun(p, s, ws[..n]);
      BatchStep(p, s.ctl.job, n, SysRun(p, t, ws[..n]), ws[n], Acked(p, t, ws[..n]));
    }
  }

  // ----- completion -----

  lemma NoLatePulse(p: Params, j: Job, c: nat, n: nat)
    requires n >= BatchEnd(p, j)
    ensures PulseList(p, j, c, n) == []
  {
    hide Meets, NonceAt, Quota;
  }

  /** A collector k clocks after the last report: the stages have run empty and any overflow is flagged. */
  ghost predicate Settled(k: nat, f: FifoView) {
    && !f.clearing
    && (k >= 1 ==> f.stage1 == [] && !f.overflow1)
    && (k >= 2 ==> f.stage2 == None && !f.overflow2)
  }

  lemma Settles(depth: nat, c: nat, k: nat, f: FifoView, i: FifoIn)
    requires Settled(k, f) && |i.ports.valid| == |i.ports.nonce| && Hits(2 * c, i.ports, 0) == [] && !i.clear
    ensures Settled(k + 1, FifoStep(depth, 2 * c, f, i))
    ensures k >= 2 ==> var g := FifoStep(depth, 2 * c, f, i);
              g.overflow == f.overflow && (f.queue == [] ==> g.queue == [])
  {
    hide Hits;
  }

  /** The miner k clocks after a clock in which done was visible, with nothing written meanwhile: k >= 3 clocks later
      an empty result register means empty collectors, and a low overflow flag means that none was raised. */
  ghost predicate SettledAt(k: nat, s: Sys) {
    && Settled(k + 1, s.f0) && Settled(k + 1, s.f1)
    && (k >= 3 && !s.ctl.status.overflow ==> !s.f0.overflow && !s.f1.overflow)
    && (k >= 3 && !s.ctl.status.resultValid ==> s.f0.queue == [] && s.f1.queue == [])
  }

  lemma SettledControl(s: Sys)
    ensures var st := ControlStep(s.ctl, NoWrite, SeenBy(s)).status;
            && (!st.overflow ==> !s.f0.overflow && !s.f1.overflow)
            && (!st.resultValid ==> s.f0.queue == [] && s.f1.queue == [])
  {
    hide LaneBusy;
  }

  lemma SettledStep(p: Params, j: Job, n: nat, k: nat, s: Sys, acked: seq<Result>)
    requires BatchAt(p, j, n, s, acked) && n > BatchEnd(p, j) && SettledAt(k, s)
    ensures SettledAt(k + 1, SysStep(p, s, NoWrite))
  {
    hide SysStep, LaneAt, LauncherAt, ControlStep, EngineStep, FifoStep, Hits, PulseList, PortsOf, SeenBy, FlowHolds,
         FrontAt, Quota, LaneEnd;
    SysStepParts(p, s, NoWrite);
    SettledControl(s);
    PortsShowPulses(p, j, n, s, 0);
    PortsShowPulses(p, j, n, s, 1);
    NoLatePulse(p, j, 0, n);
    NoLatePulse(p, j, 1, n);
    Settles(p.depth, 0, k + 1, s.f0, CollectorIn(s, 0));
    Settles(p.depth, 1, k + 1, s.f1, CollectorIn(s, 1));
  }

  lemma DoneSettles(p: Params, j: Job, n: nat, s: Sys, acked: seq<Result>)
    requires BatchAt(p, j, n, s, acked) && s.ctl.status.nonceDone
    ensures n > BatchEnd(p, j) && SettledAt(0, s)
  {
    hide LaneAt, LauncherAt, FlowHolds, PulseList, Quota;
    CompletionTime(p, j, n);
    NoLatePulse(p, j, 0, n - 1);
    NoLatePulse(p, j, 1, n - 1);
  }

  ghost predicate NoWrites(ws: seq<Write>) {
    forall k :: 0 <= k < |ws| ==> ws[k] == NoWrite
  }

  lemma {:induction false} SettledRun(p: Params, s: Sys, ws: seq<Write>, idle: seq<Write>)
    requires Silent(s) && AllGentle(ws) && NoWrites(idle)
    requires SysRun(p, SysStep(p, s, START), ws).ctl.status.nonceDone
    ensures var t := SysStep(p, s, START);
            && SettledAt(|idle|, SysRun(p, t, ws + idle))
            && BatchAt(p, s.ctl.job, |ws + idle|, SysRun(p, t, ws + idle), Acked(p, t, ws + idle))
            && |ws + idle| > BatchEnd(p, s.ctl.job)
  {
    hide SysStep, BatchAt, Silent, SettledAt, BatchEnd;
    var t, j := SysStep(p, s, START), s.ctl.job;
    BatchRun(p, s, ws + idle);
    if idle == [] {
      assert ws + [] == ws;
      DoneSettles(p, j, |ws|, SysRun(p, t, ws), Acked(p, t, ws));
    } else {
      var n := |idle| - 1;
      SettledRun(p, s, ws, idle[..n]);
      var before := ws + idle[..n];
      assert (ws + idle)[..|ws| + n] == before && (ws + idle)[|ws| + n] == NoWrite;
      SettledStep(p, j, |before|, n, SysRun(p, t, before), Acked(p, t, before));
    }
  }

  /** Done seen in one clock and, three or more idle clocks later, no result: then everything that was reported has been
      acknowledged, in order for each collector, unless overflow is flagged, and in that case something was lost. */
  lemma DoneAndEmptyMeansDelivered(p: Params, s: Sys, ws: seq<Write>, idle: seq<Write>)
    requires Silent(s) && AllGentle(ws) && NoWrites(idle) && |idle| >= 3
    requires SysRun(p, SysStep(p, s, START), ws).ctl.status.nonceDone
    requires !SysRun(p, SysStep(p, s, START), ws + idle).ctl.status.resultValid
    ensures var n, acked := |ws + idle|, Acked(p, SysStep(p, s, START), ws + idle);
            && n > BatchEnd(p, s.ctl.job)
            && Delivered(p, s.ctl.job, n, SysRun(p, SysStep(p, s, START), ws + idle).ctl.status.overflow, acked)
  {
    hide SysStep, SysRun, Acked, BatchAt, Silent, BatchEnd, Delivered;
    SettledRun(p, s, ws, idle);
    var t := SysStep(p, s, START);
    EmptyMeansDelivered(p, s.ctl.job, |ws + idle|, |idle|, SysRun(p, t, ws + idle), Acked(p, t, ws + idle));
  }

  /** All that was reported before clock n is acknowledged, in order; or, after an overflow, less than that. */
  ghost predicate Delivered(p: Params, j: Job, n: nat, overflow: bool, acked: seq<Result>) {
    var made0, made1 := Produced(p, j, 0, n), Produced(p, j, 1, n);
    && AllClustered(acked)
    && (if overflow then |acked| < |made0| + |made1| else OfCluster(acked, 0) == made0 && OfCluster(acked, 1) == made1)
  }

  lemma EmptyMeansDelivered(p: Params, j: Job, n: nat, k: nat, s: Sys, acked: seq<Result>)
    requires BatchAt(p, j, n, s, acked) && SettledAt(k, s) && k >= 3 && !s.ctl.status.resultValid
    ensures Delivered(p, j, n, s.ctl.status.overflow, acked)
  {
    hide LaneAt, ControlAt, Produced, OfCluster, PulseList, BatchEnd;
    assert OfCluster(acked, 0) + [] + [] == OfCluster(acked, 0);
    assert OfCluster(acked, 1) + [] + [] == OfCluster(acked, 1);
    ClustersCount(acked);
  }

  lemma {:induction false} ClustersCount(rs: seq<Result>)
    requires AllClustered(rs)
    ensures |rs| == |OfCluster(rs, 0)| + |OfCluster(rs, 1)|
  {
    if rs != [] {
      ClustersCount(rs[..|rs| - 1]);
    }
  }
}
