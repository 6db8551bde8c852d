/** A run in which the firmware's end-of-range test passes although results were lost. */
module LostResults {
  import opened Words
  import opened Arithmetic
  import opened Positional
  import opened Sha256Message
  import opened Sha256Core
  import opened ShareHash
  import opened HashEngine
  import opened ResultFifo
  import opened MinerControl
  import opened MiningBatch
  import opened BatchDelivery
  import opened MinerLifecycle
  import opened BatchShares
  import opened HeaderRanges
  import opened RegisterLoad
  import opened ReadPort
  import opened ResultPoll
  import opened BatchReadout
  import LongDivision

  const ALL_ONES: Target :=
    [0xffff_ffff, 0xffff_ffff, 0xffff_ffff, 0xffff_ffff, 0xffff_ffff, 0xffff_ffff, 0xffff_ffff, 0xffff_ffff]

  /** Range k of a header with the all-ones target, the saturated target of a small enough difficulty. */
  function LossJob(header: seq<Byte>, k: nat): Job
    requires |header| == 80
  {
    RangeJob(Job(Midstate(header), TailWords(header), ALL_ONES, 0, 0), k)
  }

  const RESTING := EngineView(
    Lane(IDLE, IDLE, false, false, ZERO, [0, 0, 0, 0], ALL_ONES, 0, 0, ZERO, Cmp(0, false, false), false, false, 0),
    CoreView(Sha256Core.Idle, false, ZERO))

  /** The miner out of reset, with its job registers written. */
  function ResetMiner(j: Job): Sys {
    Sys(Control(j, Launcher(LOAD_IDLE, 0, 0, 0, 0, 0, 0, false, Nothing, [0, 0, 0], [0, 0, 0]),
                Status(false, false, false, false, Result(0, 0)),
                Pulses(false, false, false, Nothing, false, Nothing)),
        RESTING, RESTING, RESTING, EMPTY, EMPTY)
  }

  lemma ResetIsSilent(j: Job)
    ensures Silent(ResetMiner(j))
  {
  }

  // ----- every nonce is reported -----

  lemma EveryNonceMeets(lj: LaneJob, x: Word)
    requires lj.target == ALL_ONES
    ensures Meets(lj, x)
  {
    hide ReversedWords, Outer, Value;
    LongDivision.AllOnes(ALL_ONES);
    LongDivision.ValueBound(ReversedWords(Outer(lj, x)));
    LongDivision.Capacity256();
  }

  lemma {:induction false} EveryNonceReported(p: Params, j: Job, i: LaneIndex, k: nat)
    requires j.target == ALL_ONES
    ensures |LaneShares(p, j, i, k)| == k
  {
    hide Meets;
    if k > 0 {
      EveryNonceReported(p, j, i, k - 1);
      EveryNonceMeets(LaneJobOf(j, i), BatchNonce(j, i + 3 * (k - 1)));
    }
  }

  lemma {:induction false} ThreeLanes(rs: seq<Result>)
    requires forall k :: 0 <= k < |rs| ==> rs[k].engine < 3
    ensures |rs| == |OfLane(rs, 0)| + |OfLane(rs, 1)| + |OfLane(rs, 2)|
  {
    if rs != [] {
      ThreeLanes(rs[..|rs| - 1]);
    }
  }

  /** How many reports there have been before clock n. */
  lemma ReportCounts(p: Params, j: Job, n: nat)
    requires j.target == ALL_ONES
    ensures |Produced(p, j, 0, n)| == Reported(p, j, 0, n) + Reported(p, j, 1, n)
    ensures |Produced(p, j, 1, n)| == Reported(p, j, 2, n)
  {
    hide Produced, OfLane, LaneShares, Reported;
    forall c | 0 <= c < 2
      ensures |Produced(p, j, c, n)|
           == |OfLane(Produced(p, j, c, n), 0)| + |OfLane(Produced(p, j, c, n), 1)| + |OfLane(Produced(p, j, c, n), 2)|
    {
      var rs := Produced(p, j, c, n);
      forall k | 0 <= k < |rs|
        ensures rs[k].engine < 3
      {
        ProducedEngines(p, j, c, n, rs[k]);
      }
      ThreeLanes(rs);
    }
    forall i: LaneIndex
      ensures |OfLane(Produced(p, j, i / 2, n), i)| == Reported(p, j, i, n)
      ensures OfLane(Produced(p, j, 1 - i / 2, n), i) == []
    {
      ProducedByLane(p, j, i, n);
      EveryNonceReported(p, j, i, Reported(p, j, i, n));
      ProducedElsewhere(p, j, 1 - i / 2, i, n);
    }
    assert |OfLane(Produced(p, j, 0 / 2, n), 0)| == Reported(p, j, 0, n);
    assert |OfLane(Produced(p, j, 1 / 2, n), 1)| == Reported(p, j, 1, n);
    assert |OfLane(Produced(p, j, 2 / 2, n), 2)| == Reported(p, j, 2, n);
  }

  // ----- bursts -----

  /** The clock of lane 0's report on its nonce m. Lanes 1 and 2 follow three and six clocks later. */
  function Burst(p: Params, m: nat): nat {
    35 + Period(p.fourPhase) * (m + 1)
  }

  lemma BurstNext(p: Params, m: nat)
    ensures Burst(p, m + 1) == Burst(p, m) + Period(p.fourPhase)
  {
  }

  /** Around a burst each lane has reported m nonces, and after its own report one more. */
  lemma ReportedAt(p: Params, j: Job, i: LaneIndex, m: nat, q: nat)
    requires q <= 9 && m + 1 <= Quota(j.nonceCount, i)
    ensures Reported(p, j, i, Burst(p, m) + q) == m + if q >= 3 * i + 1 then 1 else 0
  {
    hide Quota;
    var l, c := Period(p.fourPhase), Quota(j.nonceCount, i);
    var t := Burst(p, m) + q - LaunchTime(i);
    MulDistributes(m, 1, l);
    assert l * (m + 1) == m * l + l;
    if q >= 3 * i + 1 {
      DivModIs(t, l, m + 1, q - 3 * i - 1);
    } else {
      DivModIs(t, l, m, l + q - 3 * i - 1);
    }
    if m + 1 < c {
      MulLess(m + 1, c, l);
    }
  }

  /** Between the last report of a burst and the next burst no lane reports. */
  lemma QuietAfterBurst(p: Params, j: Job, m: nat)
    ensures Quiet(p, j, Burst(p, m) + 7, Burst(p, m + 1))
  {
    hide PulseList;
    BurstNext(p, m);
    forall n | Burst(p, m) + 7 <= n < Burst(p, m + 1)
      ensures QuietAt(p, j, n)
    {
      NoPulseThen(p, j, 0, m, n);
      NoPulseThen(p, j, 1, m, n);
      NoPulseThen(p, j, 2, m, n);
      NoPulses(p, j, n);
    }
  }

  lemma NoPulseThen(p: Params, j: Job, i: LaneIndex, m: nat, n: nat)
    requires Burst(p, m) + 7 <= n < Burst(p, m) + Period(p.fourPhase)
    ensures !Pulse(p, j, i, n)
  {
    hide Meets, NonceAt, LaneJobOf;
    var l, t := Period(p.fourPhase), n - LaunchTime(i);
    DivModIs(t, l, m + 1, t - l * (m + 1));
  }

  lemma NoPulses(p: Params, j: Job, n: nat)
    requires !Pulse(p, j, 0, n) && !Pulse(p, j, 1, n) && !Pulse(p, j, 2, n)
    ensures QuietAt(p, j, n)
  {
    hide Pulse;
  }

  // ----- keeping up -----

  /** A range of the firmware with the all-ones target. */
  ghost predicate IsLossJob(j: Job) {
    j.target == ALL_ONES && j.nonceCount == RANGE
  }

  /** Nonces of a range for each of lanes 1 and 2; lane 0 has one more. */
  const SHARE: nat := 5592405

  lemma Quotas()
    ensures Quota(RANGE, 0) == SHARE + 1 && Quota(RANGE, 1) == SHARE && Quota(RANGE, 2) == SHARE
  {
  }

  lemma MadeAt(p: Params, j: Job, m: nat, q: nat)
    requires IsLossJob(j) && m < SHARE && q <= 9
    ensures |Produced(p, j, 0, Burst(p, m) + q)| == 2 * m + (if q >= 1 then 1 else 0) + (if q >= 4 then 1 else 0)
    ensures |Produced(p, j, 1, Burst(p, m) + q)| == m + if q >= 7 then 1 else 0
  {
    hide Produced, Reported, Quota, Burst;
    Quotas();
    ReportCounts(p, j, Burst(p, m) + q);
    ReportedAt(p, j, 0, m, q);
    ReportedAt(p, j, 1, m, q);
    ReportedAt(p, j, 2, m, q);
  }

  /** Everything reported before burst m has been acknowledged when the burst begins. */
  ghost predicate CaughtUp(p: Params, s: Sys, ws: seq<Write>, m: nat) {
    && Silent(s) && IsLossJob(s.ctl.job) && m < SHARE && AllGentle(ws) && |ws| == Burst(p, m)
    && |Acked(p, SysStep(p, s, START), ws)| == 3 * m
  }

  lemma CaughtUpMeans(p: Params, s: Sys, ws: seq<Write>, m: nat)
    requires CaughtUp(p, s, ws, m)
    ensures var t := SysStep(p, s, START);
            var u, acked := SysRun(p, t, ws), Acked(p, t, ws);
            && BatchAt(p, s.ctl.job, |ws|, u, acked) && Clean(u.f0) && Clean(u.f1) && !u.ctl.status.overflow
            && |OfCluster(acked, 0)| == 2 * m && |OfCluster(acked, 1)| == m
  {
    hide SysStep, SysRun, Acked, BatchAt, Silent, Produced, OfCluster, Burst, Clean, Left;
    BatchRun(p, s, ws);
    MadeAt(p, s.ctl.job, m, 0);
    LeftBounds(p, s.ctl.job, |ws|, SysRun(p, SysStep(p, s, START), ws), Acked(p, SysStep(p, s, START), ws));
  }

  lemma PauseAcks(p: Params, t: Sys, ws: seq<Write>, k: nat)
    ensures Acked(p, t, ws + Pause(k)) == Acked(p, t, ws)
  {
    hide SysRun, Acked;
    RunAppend(p, t, ws, Pause(k));
    PauseAcksNothing(p, SysRun(p, t, ws), k);
  }

  lemma PauseNext(p: Params, t: Sys, ws: seq<Write>, k: nat)
    ensures SysRun(p, t, ws + Pause(k + 1)) == SysStep(p, SysRun(p, t, ws + Pause(k)), NoWrite)
  {
    hide SysStep;
    assert (ws + Pause(k + 1))[..|ws| + k] == ws + Pause(k);
  }

  /** Rings of four take a burst without an overflow if they were empty before it. */
  lemma {:induction false} BurstClean(p: Params, s: Sys, ws: seq<Write>, m: nat, q: nat)
    requires CaughtUp(p, s, ws, m) && p.depth == 4 && q <= 9
    ensures var u := SysRun(p, SysStep(p, s, START), ws + Pause(q)); Clean(u.f0) && Clean(u.f1)
  {
    hide SysStep, SysRun, Acked, BatchAt, Silent, Produced, OfCluster, Burst, Clean, Left;
    var t, j := SysStep(p, s, START), s.ctl.job;
    CaughtUpMeans(p, s, ws, m);
    if q == 0 {
      assert ws + Pause(0) == ws;
    } else {
      BurstClean(p, s, ws, m, q - 1);
      var v, v' := ws + Pause(q - 1), ws + Pause(q);
      var u := SysRun(p, t, v);
      BatchRun(p, s, v);
      BatchRun(p, s, v');
      PauseAcks(p, t, ws, q - 1);
      PauseNext(p, t, ws, q - 1);
      MadeAt(p, j, m, q - 1);
      LeftBounds(p, j, |v|, u, Acked(p, t, v));
      OverflowMeansFull(p, j, |v|, u, NoWrite, Acked(p, t, v));
      CleanFlags(u);
      OverflowMeansFull(p, j, |v'|, SysRun(p, t, v'), NoWrite, Acked(p, t, v'));
    }
  }

  lemma CleanFlags(s: Sys)
    ensures (Clean(s.f0) ==> !s.f0.overflow) && (Clean(s.f1) ==> !s.f1.overflow)
  {
  }

  lemma QuietSettles(p: Params, j: Job, n: nat, s: Sys, acked: seq<Result>, k: nat)
    requires BatchAt(p, j, n, s, acked) && n >= 2 && QuietAt(p, j, n) && Settled(k, s.f0) && Settled(k, s.f1)
    ensures var u := SysStep(p, s, NoWrite); Settled(k + 1, u.f0) && Settled(k + 1, u.f1)
  {
    hide SysStep, BatchAt, ControlStep, EngineStep, FifoStep, Hits, PulseList, PortsOf, SeenBy, Settled;
    SysStepParts(p, s, NoWrite);
    LanesOfBatch(p, j, n, s, acked);
    PopsOfBatch(p, j, n, s, acked);
    Settles(p.depth, 0, k, s.f0, CollectorIn(s, 0));
    Settles(p.depth, 1, k, s.f1, CollectorIn(s, 1));
  }

  lemma NotClearing(p: Params, j: Job, n: nat, s: Sys, acked: seq<Result>)
    requires BatchAt(p, j, n, s, acked) && n >= 2
    ensures Settled(0, s.f0) && Settled(0, s.f1)
  {
    hide LaneAt, ControlAt, FlowHolds, FrontAt, BatchEnd;
  }

  /** Nine clocks into the burst its three results are there to be read. */
  lemma AfterBurst(p: Params, s: Sys, ws: seq<Write>, m: nat)
    requires CaughtUp(p, s, ws, m) && p.depth == 4
    ensures var t := SysStep(p, s, START);
            && ReadAt(p, s.ctl.job, t, ws + Pause(9)) && Unread(SysRun(p, t, ws + Pause(9))) == 3
            && |Acked(p, t, ws + Pause(9))| == 3 * m
  {
    hide SysStep, SysRun, Acked, BatchAt, Silent, Produced, OfCluster, Burst, Clean, Left, QuietAt, Settled, Unread;
    var t, j := SysStep(p, s, START), s.ctl.job;
    var n := |ws|;
    LongBurst(p, m);
    BatchRun(p, s, ws + Pause(7));
    BatchRun(p, s, ws + Pause(8));
    BatchRun(p, s, ws + Pause(9));
    QuietAfterBurst(p, j, m);
    NotClearing(p, j, n + 7, SysRun(p, t, ws + Pause(7)), Acked(p, t, ws + Pause(7)));
    QuietSettles(p, j, n + 7, SysRun(p, t, ws + Pause(7)), Acked(p, t, ws + Pause(7)), 0);
    PauseNext(p, t, ws, 7);
    QuietSettles(p, j, n + 8, SysRun(p, t, ws + Pause(8)), Acked(p, t, ws + Pause(8)), 1);
    PauseNext(p, t, ws, 8);
    PauseAcks(p, t, ws, 9);
    CaughtUpMeans(p, s, ws, m);
    BurstClean(p, s, ws, m, 9);
    MadeAt(p, j, m, 9);
    var u := SysRun(p, t, ws + Pause(9));
    UnreadIsLeft(p, j, n + 9, u, Acked(p, t, ws + Pause(9)));
    LeftBounds(p, j, n + 9, u, Acked(p, t, ws + Pause(9)));
  }

  lemma LongBurst(p: Params, m: nat)
    ensures Burst(p, m) >= 35 && Burst(p, m + 1) == Burst(p, m) + Period(p.fourPhase) >= Burst(p, m) + 527
  {
    BurstNext(p, m);
  }

  /** Turns of the loop that have caught up with all bursts before burst m. */
  ghost predicate KeptUp(p: Params, s: Sys, turns: seq<Turn>, wait: nat, m: nat) {
    CaughtUp(p, s, Polled([], turns, wait), m) && PollSees(p, SysRun(p, SysStep(p, s, START), []), turns)
  }

  lemma PolledWaits(turns: seq<Turn>, wait: nat, k: nat)
    ensures Polled([], turns, wait) + Pause(k) == Polled([], turns, wait + k)
  {
    hide PollWrites;
    PauseJoin(wait, k);
  }

  /** Three turns for each burst, at any pace of up to fifty clocks a read, keep up. */
  lemma NextBurst(p: Params, s: Sys, turns: seq<Turn>, wait: nat, m: nat, pace: nat)
    returns (turns': seq<Turn>, wait': nat)
    requires KeptUp(p, s, turns, wait, m) && p.depth == 4 && m + 1 < SHARE && 0 < pace <= 50
    ensures KeptUp(p, s, turns', wait', m + 1)
  {
    hide SysStep, SysRun, Acked, ReadAt, Unread, QuietAt, PollSees, Silent, Burst, Polled, IsLossJob;
    var t, j := SysStep(p, s, START), s.ctl.job;
    AfterBurst(p, s, Polled([], turns, wait), m);
    PolledWaits(turns, wait, 9);
    QuietAfterBurst(p, j, m);
    LongBurst(p, m);
    ThreeTurns(pace);
    turns', wait' := AllTurns(p, j, t, [], turns, wait + 9, pace, 3, 3 * m);
    var ws := Polled([], turns', wait');
    var more := Burst(p, m + 1) - |ws|;
    Waits(p, j, t, ws, more);
    PolledWaits(turns', wait', more);
    wait' := wait' + more;
    ReadIsGentle(p, j, t, Polled([], turns', wait'));
  }

  lemma ThreeTurns(pace: nat)
    ensures TurnsTime(3, pace) == 9 * pace + 3
  {
    assert TurnsTime(1, pace) == TurnTime(pace) + TurnsTime(0, pace);
    assert TurnsTime(2, pace) == TurnTime(pace) + TurnsTime(1, pace);
  }

  lemma ReadIsGentle(p: Params, j: Job, t: Sys, ws: seq<Write>)
    requires ReadAt(p, j, t, ws)
    ensures AllGentle(ws)
  {
    hide SysRun, Acked, ReadingOut;
  }

  lemma {:induction false} KeepUp(p: Params, s: Sys, m: nat, pace: nat) returns (turns: seq<Turn>, wait: nat)
    requires Silent(s) && IsLossJob(s.ctl.job) && p.depth == 4 && m < SHARE && 0 < pace <= 50
    ensures KeptUp(p, s, turns, wait, m)
  {
    hide SysStep, SysRun, Acked, Silent, IsLossJob, PollWrites;
    if m == 0 {
      turns, wait := [], Burst(p, 0);
      NoTurns(wait);
      PauseAcksNothing(p, SysStep(p, s, START), wait);
    } else {
      turns, wait := KeepUp(p, s, m - 1, pace);
      turns, wait := NextBurst(p, s, turns, wait, m - 1, pace);
    }
  }

  lemma NoTurns(wait: nat)
    ensures Polled([], [], wait) == Pause(wait)
  {
  }

  // ----- the last poll -----

  lemma AllMade(p: Params, j: Job, n: nat)
    requires IsLossJob(j) && n > BatchEnd(p, j)
    ensures |Produced(p, j, 0, n)| == 2 * SHARE + 1 && |Produced(p, j, 1, n)| == SHARE
    ensures |Made(p, j, n)| == RANGE
  {
    hide Produced, Reported, Quota, BatchEnd;
    Quotas();
    ReportCounts(p, j, n);
    AllReported(p, j, 0, n);
    AllReported(p, j, 1, n);
    AllReported(p, j, 2, n);
  }

  /** How long the miner is left alone. */
  ghost function Stall(p: Params, j: Job): nat {
    BatchEnd(p, j) + 4
  }

  /** Left alone until well after its end, a batch is ready to be read out. */
  lemma LeftAlone(p: Params, s: Sys, ws: seq<Write>)
    requires Silent(s) && AllGentle(ws)
    ensures var t, late := SysStep(p, s, START), ws + Pause(Stall(p, s.ctl.job));
            && ReadAt(p, s.ctl.job, t, late) && |late| > BatchEnd(p, s.ctl.job) && Acked(p, t, late) == Acked(p, t, ws)
  {
    hide SysStep, SysRun, Acked, BatchAt, Silent, BatchEnd, SettledAt, Settled;
    var t, j := SysStep(p, s, START), s.ctl.job;
    var n := BatchEnd(p, j) + 1;
    BatchRun(p, s, ws + Pause(n));
    DoneOfBatch(p, j, |ws| + n, SysRun(p, t, ws + Pause(n)), Acked(p, t, ws + Pause(n)));
    SettledRun(p, s, ws + Pause(n), Pause(3));
    PauseJoin(n, 3);
    assert ws + Pause(n) + Pause(3) == ws + Pause(n + 3);
    SettledAtMeans(SysRun(p, t, ws + Pause(n + 3)));
    PauseAcks(p, t, ws, n + 3);
  }

  lemma DoneOfBatch(p: Params, j: Job, n: nat, s: Sys, acked: seq<Result>)
    requires BatchAt(p, j, n, s, acked)
    ensures s.ctl.status.nonceDone <==> n > BatchEnd(p, j)
  {
    hide LaneAt, ControlAt, FlowHolds, FrontAt, BatchEnd;
  }

  lemma SettledAtMeans(s: Sys)
    requires SettledAt(3, s)
    ensures Settled(2, s.f0) && Settled(2, s.f1)
  {
  }

  /** What the last poll finds: at most eight results where more were reported. */
  ghost predicate FewLeft(p: Params, s: Sys, before: seq<Write>) {
    var t := SysStep(p, s, START);
    var u := Unread(SysRun(p, t, before + Pause(Stall(p, s.ctl.job))));
    u <= 8 && |Acked(p, t, before)| + u < RANGE
  }

  /** A poll that is held up after its first read, and then reads all there is. */
  lemma LastPoll(p: Params, s: Sys, before: seq<Write>, pace: nat, empty: nat) returns (turns: seq<Turn>, done: nat)
    requires Silent(s) && AllGentle(before) && pace > 0 && empty > 0 && FewLeft(p, s, before)
    ensures var t := SysStep(p, s, START);
            var all := before + PollWrites(turns) + Pause(done);
            && |turns| <= 8 && PollSees(p, SysRun(p, t, before), turns) && AllGentle(all)
                && |all| > BatchEnd(p, s.ctl.job)
            && FinishedSeen(p, SysRun(p, t, before), turns, done, empty)
            && !SysRun(p, t, all + Pause(empty)).ctl.status.resultValid
            && |Acked(p, t, all + Pause(empty))| < RANGE
  {
    hide SysStep, SysRun, Acked, ReadAt, Unread, Quiet, PollSees, Silent, BatchEnd, PollWrites, TurnsTime;
    var t, j := SysStep(p, s, START), s.ctl.job;
    var d := Stall(p, j);
    LeftAlone(p, s, before);
    NoPolls(before, d);
    var u, a := Unread(SysRun(p, t, before + Pause(d))), |Acked(p, t, before)|;
    NothingSeen(p, SysRun(p, t, before));
    var n := |Polled(before, [], d)|;
    LateQuiet(p, j, n, n + TurnsTime(u, pace));
    var wait;
    turns, wait := AllTurns(p, j, t, before, [], d, pace, u, a);
    var ws := Polled(before, turns, wait);
    done := wait + 1;
    LateQuiet(p, j, |ws|, |ws| + 1 + empty);
    Shorter(p, j, |ws|, 1, 1 + empty);
    Waits(p, j, t, ws, 1);
    Waits(p, j, t, ws, 1 + empty);
    PauseJoin(wait, 1);
    PauseJoin(1, empty);
    var all := before + PollWrites(turns) + Pause(done);
    assert all == ws + Pause(1) && all + Pause(empty) == ws + Pause(1 + empty);
    ReadIsGentle(p, j, t, all);
    ReadIsDone(p, j, t, all);
    FinishShown(p, t, before, turns, done, empty);
  }

  lemma Shorter(p: Params, j: Job, a: nat, k: nat, n: nat)
    requires Quiet(p, j, a, a + n) && k <= n
    ensures Quiet(p, j, a, a + k)
  {
    hide QuietAt;
  }

  lemma NoPolls(ws: seq<Write>, wait: nat)
    ensures Polled(ws, [], wait) == ws + Pause(wait)
  {
  }

  lemma NothingSeen(p: Params, s: Sys)
    ensures PollSees(p, s, [])
  {
  }

  lemma ReadIsDone(p: Params, j: Job, t: Sys, ws: seq<Write>)
    requires ReadAt(p, j, t, ws) && |ws| > BatchEnd(p, j)
    ensures SysRun(p, t, ws).ctl.status.nonceDone
  {
    hide SysRun, Acked, BatchAt, BatchEnd, Settled;
    DoneOfBatch(p, j, |ws|, SysRun(p, t, ws), Acked(p, t, ws));
  }

  lemma FinishShown(p: Params, t: Sys, before: seq<Write>, turns: seq<Turn>, done: nat, empty: nat)
    requires var all := before + PollWrites(turns) + Pause(done);
             SysRun(p, t, all).ctl.status.nonceDone && !SysRun(p, t, all + Pause(empty)).ctl.status.resultValid
    ensures FinishedSeen(p, SysRun(p, t, before), turns, done, empty)
  {
    hide SysRun, Acked, PollWrites;
    var ws := before + PollWrites(turns);
    RunAppend(p, t, before, PollWrites(turns));
    RunAppend(p, t, ws, Pause(done));
    RunAppend(p, t, ws, Pause(done) + Pause(empty));
    assert ws + (Pause(done) + Pause(empty)) == ws + Pause(done) + Pause(empty);
  }

  /** Rings of up to three entries: nothing needs to be read before the last poll. */
  lemma FewLeftAtOnce(p: Params, s: Sys)
    requires Silent(s) && IsLossJob(s.ctl.job) && p.depth <= 3
    ensures FewLeft(p, s, [])
  {
    hide SysStep, SysRun, Silent, BatchAt, Settled, BatchEnd;
    var t, j := SysStep(p, s, START), s.ctl.job;
    LeftAlone(p, s, []);
    var late := [] + Pause(Stall(p, j));
    PopsOfBatch(p, j, |late|, SysRun(p, t, late), Acked(p, t, late));
  }

  /** Rings of four: with the last three bursts unread, cluster 0 holds five of seven results and cluster 1 three. */
  lemma FewLeftAfterwards(p: Params, s: Sys, ws: seq<Write>)
    requires CaughtUp(p, s, ws, SHARE - 3) && p.depth == 4
    ensures FewLeft(p, s, ws)
  {
    hide SysStep, SysRun, Acked, Silent, BatchAt, Settled, BatchEnd, Produced, OfCluster, Burst, Clean, Left, Unread;
    var t, j := SysStep(p, s, START), s.ctl.job;
    LeftAlone(p, s, ws);
    CaughtUpMeans(p, s, ws, SHARE - 3);
    var late := ws + Pause(Stall(p, j));
    var u, acked := SysRun(p, t, late), Acked(p, t, late);
    UnreadIsLeft(p, j, |late|, u, acked);
    LeftBounds(p, j, |late|, u, acked);
    AllMade(p, j, |late|);
    PopsOfBatch(p, j, |late|, u, acked);
    LeftOfFull(p, j, |late|, u, acked);
  }

  lemma LeftOfFull(p: Params, j: Job, n: nat, s: Sys, acked: seq<Result>)
    requires ReadingOut(p, j, n, s, acked)
    ensures Left(s, 0) <= |s.f0.queue| + 1
  {
    hide BatchAt;
  }

  /** What of the reads before the last poll is known: they are turns of the loop, and each saw a result. */
  ghost predicate LossBefore(p: Params, s: Sys, earlier: seq<Turn>, wait: nat) {
    var t, before := SysStep(p, s, START), PollWrites(earlier) + Pause(wait);
    && PollSees(p, t, earlier) && AllGentle(before) && FewLeft(p, s, before)
    && !SysRun(p, t, before).ctl.status.overflow
  }

  lemma LossPrepared(p: Params, s: Sys, pace: nat) returns (earlier: seq<Turn>, wait: nat)
    requires Silent(s) && IsLossJob(s.ctl.job) && p.depth <= 4 && 0 < pace <= 50
    ensures LossBefore(p, s, earlier, wait)
  {
    hide SysStep, Silent, IsLossJob, FewLeft, PollSees, Acked, Burst;
    var t := SysStep(p, s, START);
    if p.depth == 4 {
      earlier, wait := KeepUp(p, s, SHARE - 3, pace);
      var ws := PollWrites(earlier) + Pause(wait);
      assert Polled([], earlier, wait) == ws;
      CaughtUpMeans(p, s, ws, SHARE - 3);
      FewLeftAfterwards(p, s, ws);
    } else {
      earlier, wait := [], 0;
      NothingSeen(p, t);
      assert PollWrites([]) + Pause(0) == [];
      StartLowersOverflow(p, s);
      FewLeftAtOnce(p, s);
    }
  }

  lemma StartLowersOverflow(p: Params, s: Sys)
    requires Silent(s)
    ensures !SysStep(p, s, START).ctl.status.overflow
  {
    hide ControlStep, EngineStep, FifoStep, ControlAt, SeenBy;
    StartControl(s, START);
  }

  /** The clocks of the whole run. */
  function WholeRun(earlier: seq<Turn>, wait: nat, turns: seq<Turn>, done: nat): seq<Write> {
    PollWrites(earlier) + Pause(wait) + PollWrites(turns) + Pause(done)
  }

  /**
   * Results lost without notice. For every header and each of its ranges there is a run from a silent miner as follows.
   * The firmware polls, at any pace up to fifty clocks a read, and STATUS bit 3 reads 0 when its last poll begins. That
   * poll sees and acknowledges at most eight results, for which there are slots, and its end-of-range test passes:
   * STATUS bit 2 reads 1 and RESULT_STATUS bit 0 reads 0. Yet results are missing. Bit 1 of RESULT_STATUS reads 1, and
   * the next `start_range` clears it.
   */
  lemma OverflowGoesUnnoticed(p: Params, header: seq<Byte>, k: nat, pace: nat, empty: nat)
    returns (s: Sys, earlier: seq<Turn>, wait: nat, turns: seq<Turn>, done: nat)
    requires |header| == 80 && p.depth <= 4 && 0 < pace <= 50 && empty >= 3
    ensures Silent(s) && s.ctl.job == LossJob(header, k)
    ensures var t := SysStep(p, s, START);
            var last := SysRun(p, t, PollWrites(earlier) + Pause(wait));
            && PollSees(p, t, earlier) && ReadReg(last.ctl.status, 0x004) / 8 % 2 == 0
            && |turns| <= 8 && PollSees(p, last, turns) && FinishedSeen(p, last, turns, done, empty)
    ensures var t, run := SysStep(p, s, START), WholeRun(earlier, wait, turns, done) + Pause(empty);
            && ReadReg(SysRun(p, t, run).ctl.status, 0x098) == 2
            && !ExactlyTheShares(s.ctl.job, header, Acked(p, t, run))
            && NextRangeForgets(p, SysRun(p, t, run))
  {
    hide SysStep, SysRun, Acked, Silent, Midstate, TailWords, ExactlyTheShares, Unread, BatchEnd, Emptied, Made,
         PollSees,
         FinishedSeen, PollWrites, NextRangeForgets, FewLeft;
    var j := LossJob(header, k);
    s := ResetMiner(j);
    ResetIsSilent(j);
    var t := SysStep(p, s, START);
    earlier, wait := LossPrepared(p, s, pace);
    turns, done := LastPoll(p, s, PollWrites(earlier) + Pause(wait), pace, empty);
    LossShown(p, s, header, WholeRun(earlier, wait, turns, done), empty);
  }

  /** A range of which fewer results were acknowledged than it has nonces, seen done and empty. */
  lemma LossShown(p: Params, s: Sys, header: seq<Byte>, ws: seq<Write>, empty: nat)
    requires IsLossJob(s.ctl.job) && AllGentle(ws) && |ws| > BatchEnd(p, s.ctl.job) && empty >= 3 && Silent(s)
    requires !SysRun(p, SysStep(p, s, START), ws + Pause(empty)).ctl.status.resultValid
    requires |Acked(p, SysStep(p, s, START), ws + Pause(empty))| < RANGE
    requires |header| == 80 && s.ctl.job.midstate == Midstate(header) && s.ctl.job.tail == TailWords(header)
    ensures var t, run := SysStep(p, s, START), ws + Pause(empty);
            && ReadReg(SysRun(p, t, run).ctl.status, 0x098) == 2
            && !ExactlyTheShares(s.ctl.job, header, Acked(p, t, run))
            && NextRangeForgets(p, SysRun(p, t, run))
  {
    hide SysStep, SysRun, Acked, Silent, Midstate, TailWords, ExactlyTheShares, BatchEnd, Emptied, Made,
         NextRangeForgets,
         BatchAt, SettledAt, Delivered;
    var t, j, run := SysStep(p, s, START), s.ctl.job, ws + Pause(empty);
    BatchRun(p, s, ws);
    DoneOfBatch(p, j, |ws|, SysRun(p, t, ws), Acked(p, t, ws));
    DoneAndEmptyMeansDelivered(p, s, ws, Pause(empty));
    AllMade(p, j, |run|);
    DeliveredIsExact(p, j, |run|, SysRun(p, t, run).ctl.status.overflow, Acked(p, t, run), header);
    SettledRun(p, s, ws, Pause(empty));
    DoneAndEmptyRests(p, j, |run|, empty, SysRun(p, t, run), Acked(p, t, run));
    RestForgets(p, SysRun(p, t, run));
  }

  /** After the register writes and the start write of any next range the overflow flag is down. */
  ghost predicate NextRangeForgets(p: Params, s: Sys) {
    forall load: seq<Write>, r: Job :: Effective(load) == RangeWrites(r) ==>
      !SysStep(p, SysRun(p, s, load), START).ctl.status.overflow
  }

  lemma RestForgets(p: Params, s: Sys)
    requires Emptied(s)
    ensures NextRangeForgets(p, s)
  {
    hide SysStep, SysRun, Effective, RangeWrites, Emptied, Silent;
    forall load: seq<Write>, r: Job | Effective(load) == RangeWrites(r)
      ensures !SysStep(p, SysRun(p, s, load), START).ctl.status.overflow
    {
      RangeBegins(p, s, load, r);
      StartLowersOverflow(p, SysRun(p, s, load));
    }
  }
}
