/** The whole miner of rtl/bitcoin_miner_axi.sv: control block, three lanes and two result collectors, clocked
    together. */
module MiningBatch {
  import opened Options
  import opened Words
  import opened HashEngine
  import opened ResultFifo
  import opened MinerControl

  datatype Params = Params(fourPhase: bool, depth: nat)

  datatype Sys = Sys(ctl: Control, e0: EngineView, e1: EngineView, e2: EngineView, f0: FifoView, f1: FifoView)

  function Cfg(p: Params): Config {
    Config(p.fourPhase, 3)
  }

  function LaneOf(s: Sys, i: LaneIndex): EngineView {
    if i == 0 then s.e0 else if i == 1 then s.e1 else s.e2
  }

  predicate LaneBusy(e: EngineView) {
    e.lane.stage != IDLE || e.core.work.Busy?
  }

  /** The wires from the control block to lane i. */
  function LaneIn(c: Control, i: LaneIndex): EngineIn {
    EngineIn(c.pulses.engineStart == Only(i), c.pulses.engineStop, c.job.midstate, c.job.tail, c.job.target,
             c.load.laneStart[i], c.load.laneCount[i])
  }

  /** The wires from the lanes to collector c. The second port of collector 1 has no lane. */
  function PortsOf(s: Sys, c: nat): (p: Ports)
    ensures |p.valid| == |p.nonce|
  {
    if c == 0 then Ports([s.e0.lane.resultValid, s.e1.lane.resultValid], [s.e0.lane.resultNonce, s.e1.lane.resultNonce])
    else Ports([s.e2.lane.resultValid, false], [s.e2.lane.resultNonce, 0])
  }

  function CollectorIn(s: Sys, c: nat): FifoIn {
    var p := s.ctl.pulses;
    FifoIn(p.stop || p.start || p.clear, p.pop == Only(c), PortsOf(s, c))
  }

  function HeadOf(f: FifoView): Option<Result> {
    if f.queue == [] then None else Some(f.queue[0])
  }

  function SeenBy(s: Sys): Seen {
    Seen(LaneBusy(s.e0) || LaneBusy(s.e1) || LaneBusy(s.e2),
         s.e0.lane.done && s.e1.lane.done && s.e2.lane.done,
         [HeadOf(s.f0), HeadOf(s.f1)],
         s.f0.overflow || s.f1.overflow)
  }

  /** One clock edge of the miner, with the register write that takes effect in it. */
  function SysStep(p: Params, s: Sys, w: Write): Sys {
    Sys(ControlStep(s.ctl, w, SeenBy(s)),
        EngineStep(Cfg(p), s.e0, LaneIn(s.ctl, 0)),
        EngineStep(Cfg(p), s.e1, LaneIn(s.ctl, 1)),
        EngineStep(Cfg(p), s.e2, LaneIn(s.ctl, 2)),
        FifoStep(p.depth, 0, s.f0, CollectorIn(s, 0)),
        FifoStep(p.depth, 2, s.f1, CollectorIn(s, 1)))
  }

  lemma SysStepParts(p: Params, s: Sys, w: Write)
    ensures var t := SysStep(p, s, w);
            && t.ctl == ControlStep(s.ctl, w, SeenBy(s))
            && (forall i: LaneIndex :: LaneOf(t, i) == EngineStep(Cfg(p), LaneOf(s, i), LaneIn(s.ctl, i)))
            && t.f0 == FifoStep(p.depth, 0, s.f0, CollectorIn(s, 0))
            && t.f1 == FifoStep(p.depth, 2, s.f1, CollectorIn(s, 1))
  {
    hide ControlStep, EngineStep, FifoStep;
  }

  function SysRun(p: Params, s: Sys, ws: seq<Write>): Sys {
    if ws == [] then s else SysStep(p, SysRun(p, s, ws[..|ws| - 1]), ws[|ws| - 1])
  }

  lemma {:induction false} SysRunAppend(p: Params, s: Sys, a: seq<Write>, b: seq<Write>)
    ensures SysRun(p, s, a + b) == SysRun(p, SysRun(p, s, a), b)
  {
    hide SysStep;
    if b == [] {
      assert a + b == a;
    } else {
      var n := |b| - 1;
      SysRunAppend(p, s, a, b[..n]);
      assert (a + b)[..|a| + n] == a + b[..n] && (a + b)[|a| + n] == b[n];
    }
  }

  // ----- work split -----

  /** The share of lane i in a batch of count nonces, as the launcher computes it. */
  function Quota(count: Word, i: LaneIndex): Word {
    count / 3 + (if i < count % 3 then 1 else 0)
  }

  /** `engine_work_count`, the generic formula, agrees for three lanes. */
  lemma QuotaIsWorkCount(count: Word, i: LaneIndex)
    ensures Quota(count, i) == if count > i then (count - 1 - i) / 3 + 1 else 0
  {
    assert count == 3 * (count / 3) + count % 3;
  }

  function LaneJobOf(j: Job, i: LaneIndex): LaneJob {
    LaneJob(j.midstate, j.tail, j.target, Add(j.nonceStart, i), Quota(j.nonceCount, i))
  }

  /** The j-th nonce word of a batch. */
  function BatchNonce(j: Job, n: nat): Word {
    (j.nonceStart + n) % 0x1_0000_0000
  }

  lemma {:induction false} NonceAtClosed(p: Params, j: Job, i: LaneIndex, k: nat)
    ensures NonceAt(Cfg(p), LaneJobOf(j, i), k) == BatchNonce(j, i + 3 * k)
  {
    if k > 0 {
      NonceAtClosed(p, j, i, k - 1);
      AddWraps(j.nonceStart + (i + 3 * (k - 1)), 3);
    }
  }

  /** Position n of a batch belongs to lane n mod 3 at index n / 3, and to no other. */
  lemma LanesPartitionBatch(count: Word, n: nat, i: LaneIndex, k: nat)
    ensures n < count <==> n / 3 < Quota(count, n % 3)
    ensures n == i + 3 * k <==> i == n % 3 && k == n / 3
  {
    assert count == 3 * (count / 3) + count % 3;
    assert n == 3 * (n / 3) + n % 3;
  }

  /** No nonce word is visited twice in a batch. */
  lemma BatchNoncesDistinct(j: Job, m: nat, n: nat)
    requires m < j.nonceCount && n < j.nonceCount && BatchNonce(j, m) == BatchNonce(j, n)
    ensures m == n
  {
  }

  // ----- launch -----

  /** The clock, counted from the start write, at which lane i has just accepted its job. */
  function LaunchTime(i: LaneIndex): nat {
    36 + 3 * i
  }

  /** The launcher n clocks after the start write. */
  ghost predicate LauncherAt(j: Job, n: nat, l: Launcher) {
    && (n < 32 ==> l.stage == LOAD_DIVIDE && l.bits == 32 - n && l.lane == 0 && DividerAt(j.nonceCount, n, l))
    && (n >= 32 ==> l.div == j.nonceCount / 3 && l.rem == j.nonceCount % 3)
    && (32 <= n < 41 ==> l.lane == (n - 32) / 3)
    && (n == 32 || n == 35 || n == 38 ==> l.stage == LOAD_PREP)
    && (n == 33 || n == 36 || n == 39
        ==> l.stage == LOAD_DECODE && l.startLane == l.lane && l.startCount == Quota(j.nonceCount, l.lane))
    && (n == 34 || n == 37 || n == 40 ==> l.stage == LOAD_START && l.startOnehot == StartOf(j, l.lane))
    && (32 < n < 41 && l.stage != LOAD_PREP ==> l.startLast == (l.lane == 2))
    && (n >= 41 ==> l.stage == LOAD_IDLE)
    && (n >= 33 ==> l.laneStart[0] == Add(j.nonceStart, 0) && l.laneCount[0] == Quota(j.nonceCount, 0))
    && (n >= 36 ==> l.laneStart[1] == Add(j.nonceStart, 1) && l.laneCount[1] == Quota(j.nonceCount, 1))
    && (n >= 39 ==> l.laneStart[2] == Add(j.nonceStart, 2) && l.laneCount[2] == Quota(j.nonceCount, 2))
  }

  function StartOf(j: Job, i: nat): OneHot {
    if i < 3 && Quota(j.nonceCount, i) != 0 then Only(i) else Nothing
  }

  /** The start pulses: one per lane with work, three clocks apart. */
  function EngineStartAt(j: Job, n: nat): OneHot {
    if n == 35 then StartOf(j, 0) else if n == 38 then StartOf(j, 1) else if n == 41 then StartOf(j, 2) else Nothing
  }

  /** Writes that leave a batch alone: acknowledgements, and no write at all. */
  predicate Gentle(w: Write) {
    w.NoWrite? || w.WriteResultStatus?
  }

  ghost predicate ControlAt(j: Job, n: nat, c: Control) {
    && c.job == j && LauncherAt(j, n, c.load)
    && c.pulses.start == (n == 0) && !c.pulses.stop && !c.pulses.clear && !c.pulses.engineStop
    && c.pulses.engineStart == EngineStartAt(j, n)
  }

  lemma ControlStarts(c: Control, w: Write, seen: Seen)
    requires Starts(c, w) && !w.stop && !w.clear
    ensures ControlAt(c.job, 0, ControlStep(c, w, seen))
  {
    hide NextStatus, Fetch;
    DividerStarts(c.job.nonceCount, NextLauncher(c, w));
  }

  lemma LauncherStep(j: Job, n: nat, l: Launcher)
    requires LauncherAt(j, n, l)
    ensures LauncherAt(j, n + 1, LoadStep(j, l))
  {
    if n < 32 {
      hide DivideBit, DividerAt;
      DividerContinues(j.nonceCount, n, l);
      DivideBitFrame(l);
      if n == 31 {
        DividerEnds(j.nonceCount, DivideBit(l));
      }
    } else if n < 41 {
      QuotaOfLane(j, l);
    }
  }

  lemma DivideBitFrame(l: Launcher)
    ensures var m := DivideBit(l);
            && m.lane == l.lane && m.laneStart == l.laneStart && m.laneCount == l.laneCount
            && (l.bits > 0 ==> m.bits == l.bits - 1)
            && m.stage == if l.bits == 1 then LOAD_PREP else l.stage
  {
  }

  lemma QuotaOfLane(j: Job, l: Launcher)
    requires l.div == j.nonceCount / 3 && l.rem == j.nonceCount % 3 && l.lane < 3
    ensures LaneQuota(l) == Quota(j.nonceCount, l.lane)
  {
  }

  lemma ControlContinues(j: Job, n: nat, c: Control, w: Write, seen: Seen)
    requires ControlAt(j, n, c) && Gentle(w)
    ensures ControlAt(j, n + 1, ControlStep(c, w, seen))
  {
    hide NextStatus, Fetch, DividerAt, LoadStep;
    LauncherStep(j, n, c.load);
  }

  // ----- lanes -----

  ghost predicate Resting(e: EngineView) {
    Ready(e) && !e.lane.done && !e.lane.resultValid
  }

  lemma RestStep(cfg: Config, e: EngineView, i: EngineIn)
    requires Resting(e) && (!i.start || i.nonceCount == 0)
    ensures Resting(EngineStep(cfg, e, i))
  {
    hide CoreInput;
  }

  /** Lane i, n clocks after the start write. */
  ghost predicate LaneAt(p: Params, j: Job, i: LaneIndex, n: nat, e: EngineView) {
    if Quota(j.nonceCount, i) == 0 || n < LaunchTime(i) then Resting(e)
    else OnSchedule(Cfg(p), LaneJobOf(j, i), n - LaunchTime(i), e)
  }

  lemma LaneContinues(p: Params, j: Job, i: LaneIndex, n: nat, e: EngineView, c: Control)
    requires LaneAt(p, j, i, n, e) && ControlAt(j, n, c)
    ensures LaneAt(p, j, i, n + 1, EngineStep(Cfg(p), e, LaneIn(c, i)))
  {
    hide EngineStep, OnSchedule, Ready, DividerAt;
    var lj, x := LaneJobOf(j, i), LaneIn(c, i);
    LaneInAt(j, i, n, c);
    if Quota(j.nonceCount, i) == 0 || n + 1 < LaunchTime(i) {
      RestStep(Cfg(p), e, x);
    } else if n + 1 == LaunchTime(i) {
      LaneAccepts(Cfg(p), e, x);
    } else {
      ScheduleStep(Cfg(p), lj, n - LaunchTime(i), e, x);
    }
  }

  lemma LaneAccepts(cfg: Config, e: EngineView, x: EngineIn)
    requires Resting(e) && x.start && !x.stop && x.nonceCount != 0
    ensures OnSchedule(cfg, JobOf(x), 0, EngineStep(cfg, e, x))
  {
    hide EngineStep, Running;
    StartRuns(cfg, e, x);
    assert 0 < Period(cfg.fourPhase) * x.nonceCount;
  }

  /** A lane is started exactly one clock before its launch time, with its part of the batch. */
  lemma LaneInAt(j: Job, i: LaneIndex, n: nat, c: Control)
    requires ControlAt(j, n, c)
    ensures var x := LaneIn(c, i);
            && !x.stop && (x.start <==> n + 1 == LaunchTime(i) && Quota(j.nonceCount, i) != 0)
            && (x.start ==> JobOf(x) == LaneJobOf(j, i))
  {
    hide DividerAt;
  }

  /** Lane i reports a share in clock n of the batch. */
  predicate Pulse(p: Params, j: Job, i: LaneIndex, n: nat) {
    var lj, l := LaneJobOf(j, i), Period(p.fourPhase);
    n >= LaunchTime(i) &&
    var t := n - LaunchTime(i);
    t < l * lj.count && t % l == l - 1 && Meets(lj, NonceAt(Cfg(p), lj, t / l))
  }

  function PulseNonce(p: Params, j: Job, i: LaneIndex, n: nat): Word
    requires n >= LaunchTime(i)
  {
    NonceAt(Cfg(p), LaneJobOf(j, i), (n - LaunchTime(i)) / Period(p.fourPhase))
  }

  /** The end of lane i's work, counted from the start write; 41 for a lane without work. */
  function LaneEnd(p: Params, j: Job, i: LaneIndex): nat {
    if Quota(j.nonceCount, i) == 0 then 41 else LaunchTime(i) + Period(p.fourPhase) * Quota(j.nonceCount, i)
  }

  lemma LaneOutputs(p: Params, j: Job, i: LaneIndex, n: nat, e: EngineView)
    requires LaneAt(p, j, i, n, e)
    ensures e.lane.resultValid <==> Pulse(p, j, i, n)
    ensures e.lane.resultValid ==> e.lane.resultNonce == PulseNonce(p, j, i, n)
    ensures LaneBusy(e) <==> Quota(j.nonceCount, i) != 0 && LaunchTime(i) <= n < LaneEnd(p, j, i)
    ensures e.lane.done <==> Quota(j.nonceCount, i) != 0 && n == LaneEnd(p, j, i)
  {
    hide Meets, CmpHolds, Inner, Outer;
  }

  /** Launches are three clocks apart and periods are 527 or 655 clocks: two lanes never report together. */
  lemma NoCollision(p: Params, j: Job, i: LaneIndex, k: LaneIndex, n: nat)
    requires i != k && Pulse(p, j, i, n)
    ensures !Pulse(p, j, k, n)
  {
    hide Meets, NonceAt, LaneJobOf;
    var a, b := n - LaunchTime(i), n - LaunchTime(k);
    if b >= 0 {
      LastClocksApart(p.fourPhase, a, b);
    }
  }

  lemma LastClocksApart(fourPhase: bool, a: nat, b: nat)
    requires a != b && -6 <= a - b <= 6
    ensures var l := Period(fourPhase); !(a % l == l - 1 && b % l == l - 1)
  {
    if fourPhase {
      assert a == 527 * (a / 527) + a % 527 && b == 527 * (b / 527) + b % 527;
    } else {
      assert a == 655 * (a / 655) + a % 655 && b == 655 * (b / 655) + b % 655;
    }
  }

  lemma NeverAllDone(p: Params, j: Job)
    requires Quota(j.nonceCount, 0) != 0 && Quota(j.nonceCount, 1) != 0
    ensures LaneEnd(p, j, 0) != LaneEnd(p, j, 1)
  {
    var a: int, b: int := Quota(j.nonceCount, 0), Quota(j.nonceCount, 1);
    if p.fourPhase {
      assert 36 + 527 * a != 39 + 527 * b;
    } else {
      assert 36 + 655 * a != 39 + 655 * b;
    }
  }
}
