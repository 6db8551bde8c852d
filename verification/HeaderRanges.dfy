/** The ranges of one header: each begins where the one before was seen done and empty, without a stop in between. */
module HeaderRanges {
  import opened Words
  import opened Sha256Message
  import opened ShareHash
  import opened HashEngine
  import opened ResultFifo
  import opened MinerControl
  import opened MiningBatch
  import opened BatchDelivery
  import opened MinerLifecycle
  import opened GenuineResults
  import opened RegisterLoad

  // ----- between two ranges -----

  /** Empty stages and an empty ring; the overflow flag may still be up. */
  ghost predicate Hollow(f: FifoView) {
    f == EMPTY.(clearing := f.clearing, overflow := f.overflow)
  }

  /** Nothing is running, queued, in the result register or on its way. A collector may still flag an overflow. */
  ghost predicate Emptied(s: Sys) {
    && s.ctl.load.stage == LOAD_IDLE && s.ctl.pulses.engineStart == Nothing
    && !s.ctl.status.running && !s.ctl.status.resultValid
    && Resting(s.e0) && Resting(s.e1) && Resting(s.e2)
    && Hollow(s.f0) && Hollow(s.f1)
  }

  /** A lane after the end of the batch. */
  lemma LaneRests(p: Params, j: Job, i: LaneIndex, n: nat, e: EngineView)
    requires LaneAt(p, j, i, n, e) && n > LaneEnd(p, j, i)
    ensures Resting(e)
  {
    hide Meets, NonceAt, Quota, Running;
  }

  /** A batch seen done and, three or more idle clocks later, empty: the miner is at rest, and silent unless overflow is
      flagged. */
  lemma DoneAndEmptyRests(p: Params, j: Job, n: nat, k: nat, s: Sys, acked: seq<Result>)
    requires BatchAt(p, j, n, s, acked) && SettledAt(k, s) && k >= 3 && n > BatchEnd(p, j) && !s.ctl.status.resultValid
    ensures Emptied(s) && (!s.ctl.status.overflow ==> Silent(s))
  {
    hide LaneAt, Quota, Produced, OfCluster, PulseList, Resting;
    CompletionTime(p, j, n);
    LaneRests(p, j, 0, n, s.e0);
    LaneRests(p, j, 1, n, s.e1);
    LaneRests(p, j, 2, n, s.e2);
    LoadIdleAt(j, n, s.ctl.load);
  }

  lemma HollowStays(depth: nat, base: nat, f: FifoView, i: FifoIn)
    requires Hollow(f) && |i.ports.valid| == 2 == |i.ports.nonce| && !i.ports.valid[0] && !i.ports.valid[1]
    ensures var g := FifoStep(depth, base, f, i);
            Hollow(g) && g.clearing == i.clear && (f.clearing || !f.overflow ==> !g.overflow)
  {
    NoHits(base, i.ports, 0);
  }

  lemma EmptiedControl(s: Sys, w: Write)
    requires Emptied(s) && !Starting(w)
    ensures var c := ControlStep(s.ctl, w, SeenBy(s));
            && c.load.stage == LOAD_IDLE && c.pulses.engineStart == Nothing
            && !c.status.running && !c.status.resultValid && (w == CLEAR ==> c.pulses.clear)
  {
    hide LaneBusy, Resting;
  }

  /** An emptied miner, m clocks after a clear write took effect: two clocks flush the collectors. */
  ghost predicate ClearedAt(m: nat, s: Sys) {
    && Emptied(s)
    && (m == 0 ==> s.ctl.pulses.clear)
    && (m == 1 ==> s.f0.clearing && s.f1.clearing)
    && (m >= 2 ==> !s.f0.overflow && !s.f1.overflow)
  }

  lemma EmptiedStep(p: Params, s: Sys, w: Write, m: nat)
    requires Emptied(s) && !Starting(w)
    ensures Emptied(SysStep(p, s, w)) && (w == CLEAR ==> ClearedAt(0, SysStep(p, s, w)))
    ensures ClearedAt(m, s) ==> ClearedAt(m + 1, SysStep(p, s, w))
  {
    hide SysStep, ControlStep, EngineStep, FifoStep, SeenBy, Hollow, Ready;
    SysStepParts(p, s, w);
    var t := SysStep(p, s, w);
    assert LaneOf(t, 0) == t.e0 && LaneOf(t, 1) == t.e1 && LaneOf(t, 2) == t.e2;
    EmptiedControl(s, w);
    RestStep(Cfg(p), s.e0, LaneIn(s.ctl, 0));
    RestStep(Cfg(p), s.e1, LaneIn(s.ctl, 1));
    RestStep(Cfg(p), s.e2, LaneIn(s.ctl, 2));
    HollowStays(p.depth, 0, s.f0, CollectorIn(s, 0));
    HollowStays(p.depth, 2, s.f1, CollectorIn(s, 1));
  }

  lemma {:induction false} EmptiedRun(p: Params, s: Sys, ws: seq<Write>, i: nat)
    requires Emptied(s) && NoStart(ws)
    ensures Emptied(SysRun(p, s, ws))
    ensures i < |ws| && ws[i] == CLEAR ==> ClearedAt(|ws| - 1 - i, SysRun(p, s, ws))
  {
    hide SysStep, Emptied, ClearedAt;
    if ws != [] {
      var n := |ws| - 1;
      EmptiedRun(p, s, ws[..n], i);
      EmptiedStep(p, SysRun(p, s, ws[..n]), ws[n], if i < n then n - 1 - i else 0);
    }
  }

  lemma ClearedIsSilent(m: nat, s: Sys)
    requires ClearedAt(m, s) && m >= 2
    ensures Silent(s)
  {
    hide Resting;
  }

  /** The first write of a run, and how many clocks follow it at least. */
  lemma {:induction false} FirstWrite(ws: seq<Write>, w: Write, rest: seq<Write>) returns (i: nat)
    requires Effective(ws) == [w] + rest
    ensures i < |ws| && ws[i] == w && |ws| - 1 - i >= |rest|
  {
    var n := |ws| - 1;
    var e := Effective(ws[..n]);
    if ws[n] == NoWrite {
      assert e + [] == e;
      i := FirstWrite(ws[..n], w, rest);
    } else if e == [] {
      assert [] + [ws[n]] == [ws[n]] == [w] + rest;
      assert ([w] + rest)[0] == w && |[w] + rest| == 1 + |rest|;
      i := n;
    } else {
      var r := rest[..|rest| - 1];
      assert e == Effective(ws)[..|e|] == [w] + r;
      i := FirstWrite(ws[..n], w, r);
    }
  }

  lemma RangeNoStart(r: Job)
    ensures NoStart(RangeWrites(r))
  {
  }

  /** `start_range` between two ranges: whether or not an overflow was flagged, the clear write flushes the collectors
      before the start write, and only the nonce registers change. */
  lemma RangeBegins(p: Params, s: Sys, load: seq<Write>, r: Job)
    requires Emptied(s) && Effective(load) == RangeWrites(r)
    ensures var t := SysRun(p, s, load);
            Silent(t) && t.ctl.job == s.ctl.job.(nonceStart := r.nonceStart, nonceCount := r.nonceCount)
  {
    hide SysStep, SysRun, Emptied, ClearedAt, Silent, JobAfter, Effective;
    RangeNoStart(r);
    EffectiveNoStart(load);
    var rest := [WriteNonceStart(r.nonceStart), WriteNonceCount(r.nonceCount)];
    assert RangeWrites(r) == [CLEAR] + rest;
    var i := FirstWrite(load, CLEAR, rest);
    EmptiedRun(p, s, load, i);
    ClearedIsSilent(|load| - 1 - i, SysRun(p, s, load));
    JobRun(p, s, load);
    IdleClocksFree(s.ctl.job, load);
    RangeLoads(s.ctl.job, r);
  }

  // ----- the ranges of a header -----

  /** Nonces per range. */
  const RANGE: Word := 0x100_0000

  /** The registers for range k of a header. */
  function RangeJob(r: Job, k: nat): Job {
    r.(nonceStart := RANGE * k % 0x1_0000_0000, nonceCount := RANGE)
  }

  /** One range: the writes before the start write, the clocks until done is seen, and those until the result status is
      seen empty. */
  datatype Range = Range(load: seq<Write>, ws: seq<Write>, idle: seq<Write>)

  ghost function Started(p: Params, s: Sys, x: Range): Sys {
    SysStep(p, SysRun(p, s, x.load), START)
  }

  ghost function AfterRange(p: Params, s: Sys, x: Range): Sys {
    SysRun(p, Started(p, s, x), x.ws + x.idle)
  }

  ghost function RangeAcked(p: Params, s: Sys, x: Range): seq<Result> {
    Acked(p, Started(p, s, x), x.ws + x.idle)
  }

  /** The nonce registers are written before every range but the first, whose registers a job change has written. */
  ghost predicate LoadOk(x: Range, r: Job, k: nat) {
    Effective(x.load) == if k == 0 then [] else RangeWrites(RangeJob(r, k))
  }

  /** What the firmware sees of a range before it goes on to the next. */
  ghost predicate RangeSeen(p: Params, s: Sys, x: Range, r: Job, k: nat) {
    && LoadOk(x, r, k) && AllGentle(x.ws) && NoWrites(x.idle) && |x.idle| >= 3
    && SysRun(p, Started(p, s, x), x.ws).ctl.status.nonceDone && !AfterRange(p, s, x).ctl.status.resultValid
  }

  ghost function AfterRanges(p: Params, s: Sys, xs: seq<Range>): Sys {
    if xs == [] then s else AfterRange(p, AfterRanges(p, s, xs[..|xs| - 1]), xs[|xs| - 1])
  }

  ghost predicate RangesSeen(p: Params, s: Sys, xs: seq<Range>, r: Job) {
    forall k :: 0 <= k < |xs| ==> RangeSeen(p, AfterRanges(p, s, xs[..k]), xs[k], r, k)
  }

  /** Where range k begins: after a job change, or where the range before it was left. */
  ghost predicate RestsBefore(s: Sys, r: Job, k: nat) {
    if k == 0 then Silent(s) && s.ctl.job == RangeJob(r, 0) else Emptied(s) && s.ctl.job == RangeJob(r, k - 1)
  }

  /** Every range starts from a silent miner with its own job, also after an overflow in the range before. */
  lemma RangeStarts(p: Params, s: Sys, x: Range, r: Job, k: nat)
    requires RestsBefore(s, r, k) && LoadOk(x, r, k)
    ensures Silent(SysRun(p, s, x.load)) && SysRun(p, s, x.load).ctl.job == RangeJob(r, k)
  {
    hide SysRun, Silent, Emptied, Effective, LoadWrites, RangeWrites, JobAfter;
    if k == 0 {
      EffectiveNoStart(x.load);
      SilentRun(p, s, x.load);
      JobRun(p, s, x.load);
      IdleClocksFree(s.ctl.job, x.load);
      EmptyJob(s.ctl.job);
    } else {
      RangeBegins(p, s, x.load, RangeJob(r, k));
    }
  }

  lemma RangeEnds(p: Params, s: Sys, x: Range, r: Job, k: nat)
    requires RestsBefore(s, r, k) && RangeSeen(p, s, x, r, k)
    ensures RestsBefore(AfterRange(p, s, x), r, k + 1)
  {
    hide SysStep, SysRun, Silent, Emptied, Acked, BatchAt, SettledAt, BatchEnd, LoadOk;
    RangeStarts(p, s, x, r, k);
    var u := SysRun(p, s, x.load);
    SettledRun(p, u, x.ws, x.idle);
    DoneAndEmptyRests(p, RangeJob(r, k), |x.ws + x.idle|, |x.idle|, AfterRange(p, s, x), RangeAcked(p, s, x));
    BatchJob(p, RangeJob(r, k), |x.ws + x.idle|, AfterRange(p, s, x), RangeAcked(p, s, x));
  }

  lemma BatchJob(p: Params, j: Job, n: nat, s: Sys, acked: seq<Result>)
    requires BatchAt(p, j, n, s, acked)
    ensures s.ctl.job == j
  {
    hide LaneAt, FlowHolds, FrontAt, LauncherAt;
  }

  lemma {:induction false} RangesRest(p: Params, s: Sys, xs: seq<Range>, r: Job)
    requires Silent(s) && s.ctl.job == RangeJob(r, 0) && RangesSeen(p, s, xs, r)
    ensures RestsBefore(AfterRanges(p, s, xs), r, |xs|)
  {
    hide RangeSeen, Silent, AfterRange, RestsBefore;
    if xs == [] {
      RestsFirst(s, r);
    } else {
      var n := |xs| - 1;
      SeenPrefix(p, s, xs, r, n);
      RangesRest(p, s, xs[..n], r);
      RangeEnds(p, AfterRanges(p, s, xs[..n]), xs[n], r, n);
    }
  }

  lemma RestsFirst(s: Sys, r: Job)
    requires Silent(s) && s.ctl.job == RangeJob(r, 0)
    ensures RestsBefore(s, r, 0)
  {
  }

  lemma SeenPrefix(p: Params, s: Sys, xs: seq<Range>, r: Job, n: nat)
    requires RangesSeen(p, s, xs, r) && n <= |xs|
    ensures RangesSeen(p, s, xs[..n], r)
  {
    hide RangeSeen, AfterRanges;
    forall k | 0 <= k < n
      ensures RangeSeen(p, AfterRanges(p, s, xs[..n][..k]), xs[..n][k], r, k)
    {
      assert xs[..n][..k] == xs[..k];
    }
  }

  /** In range k, whatever happened in the ranges before, a result that the register shows is a share of the header. */
  lemma RangeShowsShares(p: Params, s: Sys, xs: seq<Range>, r: Job, x: Range, ws: seq<Write>, header: seq<Byte>)
    requires Silent(s) && s.ctl.job == RangeJob(r, 0)
    requires RangesSeen(p, s, xs, r) && LoadOk(x, r, |xs|) && AllGentle(ws)
    requires |header| == 80 && r.midstate == Midstate(header) && r.tail == TailWords(header)
    ensures var st := SysRun(p, Started(p, AfterRanges(p, s, xs), x), ws).ctl.status;
            st.resultValid ==> IsShare(header, st.result.nonce, r.target)
  {
    hide SysStep, SysRun, Silent, IsShare, Midstate, TailWords, RangesSeen, AfterRanges, LoadOk, RestsBefore;
    RangesRest(p, s, xs, r);
    var t := AfterRanges(p, s, xs);
    RangeStarts(p, t, x, r, |xs|);
    ShownResultIsShare(p, SysRun(p, t, x.load), ws, header);
  }
}
