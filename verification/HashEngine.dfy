/** One mining lane: the nonce loop of rtl/bitcoin_hash_engine.sv around the core of rtl/bitcoin_sha256_core.sv. */
module HashEngine {
  import opened Words
  import opened Positional
  import opened Sha256Spec
  import opened Sha256Message
  import opened Sha256Core
  import opened ShareHash

  datatype Stage = IDLE | LAUNCH | PASS1 | PASS2 | COMPARE | CHECK

  type Index8 = i: int | 0 <= i < 8

  /** The comparison of digest and target words, most significant first: next index, already less, already greater. */
  datatype Cmp = Cmp(idx: Index8, lt: bool, gt: bool)

  datatype Config = Config(fourPhase: bool, stride: Word)

  datatype EngineIn = EngineIn(start: bool, stop: bool, midstate: State, tail: Tail, target: Target,
                               nonceStart: Word, nonceCount: Word)

  /** The registers of the lane itself. */
  datatype Lane = Lane(stage: Stage, launchNext: Stage, coreStart: bool, firstPass: bool,
                       midstate: State, tail: Tail, target: Target, nonce: Word, remaining: Word,
                       digest: State, cmp: Cmp, done: bool, resultValid: bool, resultNonce: Word)

  datatype EngineView = EngineView(lane: Lane, core: CoreView)

  const ZERO := State(0, 0, 0, 0, 0, 0, 0, 0)

  /** The block and chaining value wired to the core. */
  function CoreInput(l: Lane): CoreJob {
    if l.firstPass then CoreJob(l.midstate, FirstBlock(l.tail, l.nonce)) else CoreJob(IV, SecondBlock(l.digest))
  }

  /** One clock edge of the lane: the lane and its core both see the old values. */
  function EngineStep(cfg: Config, v: EngineView, i: EngineIn): EngineView {
    EngineView(LaneStep(cfg, v.lane, v.core.done, v.core.digest, i),
               CoreStep(cfg.fourPhase, v.core, v.lane.coreStart, CoreInput(v.lane)))
  }

  function LaneStep(cfg: Config, l: Lane, coreDone: bool, coreDigest: State, i: EngineIn): Lane {
    var w := l.(coreStart := false, done := false, resultValid := false);
    if i.stop then w.(stage := IDLE, done := l.stage != IDLE)
    else match l.stage
      case IDLE => if i.start && i.nonceCount != 0 then Load(w, i) else w
      case LAUNCH => w.(coreStart := true, stage := l.launchNext)
      case PASS1 =>
        if coreDone then w.(digest := coreDigest, firstPass := false, launchNext := PASS2, stage := LAUNCH) else w
      case PASS2 =>
        if coreDone then w.(digest := coreDigest, cmp := Cmp(0, false, false), stage := COMPARE) else w
      case COMPARE => CompareWord(w)
      case CHECK => NextNonce(cfg, w)
  }

  /** A start latches the whole job. */
  function Load(l: Lane, i: EngineIn): Lane {
    l.(midstate := i.midstate, tail := i.tail, target := i.target, nonce := i.nonceStart, remaining := i.nonceCount,
       digest := ZERO, cmp := Cmp(0, false, false), firstPass := true, launchNext := PASS1, stage := LAUNCH)
  }

  /** One word of the comparison; the eighth one decides. */
  function CompareWord(l: Lane): Lane {
    var c := l.cmp;
    var d, t := ReversedWords(l.digest)[c.idx], l.target[c.idx];
    var undecided := !c.lt && !c.gt;
    var lt, gt := c.lt || (undecided && d < t), c.gt || (undecided && d > t);
    if c.idx < 7 then l.(cmp := Cmp(c.idx + 1, lt, gt))
    else if c.lt || (!c.gt && d <= t) then
      l.(cmp := Cmp(7, lt, gt), stage := CHECK, resultValid := true, resultNonce := l.nonce)
    else l.(cmp := Cmp(7, lt, gt), stage := CHECK)
  }

  function NextNonce(cfg: Config, l: Lane): Lane {
    if l.remaining <= 1 then l.(done := true, stage := IDLE)
    else l.(remaining := l.remaining - 1, nonce := Add(l.nonce, cfg.stride),
            firstPass := true, launchNext := PASS1, stage := LAUNCH)
  }

  /** The lane hardware: its registers and its core. */
  class Engine {
    const cfg: Config
    const core: Core
    var lane: Lane

    ghost predicate Valid()
      reads this, core, core.ring
    {
      core.Valid() && core.fourPhase == cfg.fourPhase
    }

    ghost function View(): EngineView
      reads this, core
    {
      EngineView(lane, core.View())
    }

    constructor (cfg: Config)
      ensures Valid() && fresh(core) && fresh(core.ring) && this.cfg == cfg
      ensures Ready(View())
    {
      this.cfg := cfg;
      core := new Core(cfg.fourPhase);
      lane := Lane(IDLE, IDLE, false, true, ZERO, [0, 0, 0, 0], [0, 0, 0, 0, 0, 0, 0, 0], 0, 0,
                   ZERO, Cmp(0, false, false), false, false, 0);
    }

    /** One rising clock edge. */
    method Clock(i: EngineIn)
      requires Valid()
      modifies this, core, core.ring
      ensures Valid()
      ensures View() == EngineStep(cfg, old(View()), i)
    {
      hide Core.Valid, CoreStep, LaneStep;
      var start, job := lane.coreStart, CoreInput(lane);
      lane := LaneStep(cfg, lane, core.done, core.digest, i);
      core.Clock(start, job.block, job.chain);
    }
  }

  /** An idle lane with an idle core: `busy_o` is low. */
  ghost predicate Ready(v: EngineView) {
    v.lane.stage == IDLE && !v.lane.coreStart && v.core.work == Sha256Core.Idle
  }

  /** What a start hands to the lane. */
  datatype LaneJob = LaneJob(midstate: State, tail: Tail, target: Target, start: Word, count: Word)

  /** The k-th nonce word of a job, by repeated wrapping addition of the stride. */
  function NonceAt(cfg: Config, job: LaneJob, k: nat): Word {
    if k == 0 then job.start else Add(NonceAt(cfg, job, k - 1), cfg.stride)
  }

  function Inner(job: LaneJob, nonce: Word): State {
    FirstPass(job.midstate, job.tail, nonce)
  }

  function Outer(job: LaneJob, nonce: Word): State {
    SecondPass(Inner(job, nonce))
  }

  function DigestValue(d: State): nat {
    Value(TWO32, ReversedWords(d))
  }

  /** The digest of a nonce, read as the hardware reads it, is at or below the target. */
  predicate Meets(job: LaneJob, nonce: Word) {
    DigestValue(Outer(job, nonce)) <= Value(TWO32, job.target)
  }

  /** Clocks per nonce. */
  function Period(fourPhase: bool): nat {
    2 * Latency(fourPhase) + 15
  }

  /** The comparison registers summarise the words before idx. */
  ghost predicate CmpHolds(c: Cmp, d: Target, t: Target) {
    && (c.lt <==> Value(TWO32, d[..c.idx]) < Value(TWO32, t[..c.idx]))
    && (c.gt <==> Value(TWO32, d[..c.idx]) > Value(TWO32, t[..c.idx]))
  }

  /** The registers of a lane u clocks into the k-th nonce of a job. */
  ghost predicate Running(cfg: Config, job: LaneJob, k: nat, u: nat, v: EngineView) {
    var n := Latency(cfg.fourPhase);
    var l, c := v.lane, v.core;
    var x := NonceAt(cfg, job, k);
    && k < job.count && u < Period(cfg.fourPhase)
    && l.midstate == job.midstate && l.tail == job.tail && l.target == job.target
    && l.nonce == x && l.remaining == job.count - k && !l.done
    && (l.coreStart <==> u == 1 || u == n + 4)
    && (l.resultValid <==> u == 2 * n + 14 && Meets(job, x))
    && (l.resultValid ==> l.resultNonce == x)
    && StageHolds(n, u, l)
    && CoreHolds(n, u, job, x, c)
    && (n + 3 <= u <= 2 * n + 5 ==> l.digest == Inner(job, x))
    && (2 * n + 6 <= u <= 2 * n + 13 ==>
          && l.digest == Outer(job, x) && l.cmp.idx == u - 2 * n - 6
          && CmpHolds(l.cmp, ReversedWords(l.digest), job.target))
  }

  ghost predicate StageHolds(n: nat, u: nat, l: Lane) {
    if u == 0 then l.stage == LAUNCH && l.launchNext == PASS1 && l.firstPass
    else if u <= n + 2 then l.stage == PASS1 && l.firstPass
    else if u == n + 3 then l.stage == LAUNCH && l.launchNext == PASS2 && !l.firstPass
    else if u <= 2 * n + 5 then l.stage == PASS2 && !l.firstPass
    else if u <= 2 * n + 13 then l.stage == COMPARE
    else l.stage == CHECK
  }

  ghost predicate CoreHolds(n: nat, u: nat, job: LaneJob, x: Word, c: CoreView) {
    && (c.done <==> u == n + 2 || u == 2 * n + 5)
    && (u == n + 2 ==> c.digest == Inner(job, x))
    && (u == 2 * n + 5 ==> c.digest == Outer(job, x))
    && c.work == if 2 <= u < n + 2 then Busy(CoreJob(job.midstate, FirstBlock(job.tail, x)), u - 2)
                 else if n + 5 <= u < 2 * n + 5 then Busy(CoreJob(IV, SecondBlock(Inner(job, x))), u - n - 5)
                 else Sha256Core.Idle
  }

  /** The lane has just finished: one done pulse, then idle. */
  ghost predicate Finished(v: EngineView) {
    Ready(v) && v.lane.done && !v.lane.resultValid
  }

  ghost predicate Accepts(v: EngineView, i: EngineIn) {
    Ready(v) && i.start && !i.stop && i.nonceCount != 0
  }

  function JobOf(i: EngineIn): LaneJob {
    LaneJob(i.midstate, i.tail, i.target, i.nonceStart, i.nonceCount)
  }

  lemma CmpExtends(d: Target, t: Target, i: nat)
    requires i < 8
    ensures var p, q := Value(TWO32, d[..i]), Value(TWO32, t[..i]);
            Value(TWO32, d[..i + 1]) < Value(TWO32, t[..i + 1]) <==> p < q || (p == q && d[i] < t[i])
  {
    assert d[..i + 1] == d[..i] + [d[i]] && t[..i + 1] == t[..i] + [t[i]];
    ValueSnoc(TWO32, d[..i], d[i]);
    ValueSnoc(TWO32, t[..i], t[i]);
    CompareDigit(TWO32, Value(TWO32, d[..i]), Value(TWO32, t[..i]), d[i], t[i]);
  }

  lemma CmpContinues(l: Lane)
    requires l.cmp.idx < 7 && CmpHolds(l.cmp, ReversedWords(l.digest), l.target)
    ensures var m := CompareWord(l);
            && m == l.(cmp := m.cmp) && m.cmp.idx == l.cmp.idx + 1
            && CmpHolds(m.cmp, ReversedWords(l.digest), l.target)
  {
    hide Value, ReversedWords;
    CmpExtends(ReversedWords(l.digest), l.target, l.cmp.idx);
    CmpExtends(l.target, ReversedWords(l.digest), l.cmp.idx);
  }

  lemma CmpDecides(l: Lane)
    requires l.cmp.idx == 7 && CmpHolds(l.cmp, ReversedWords(l.digest), l.target)
    ensures var m := CompareWord(l);
            var hit := Value(TWO32, ReversedWords(l.digest)) <= Value(TWO32, l.target);
            && m == l.(cmp := m.cmp, stage := CHECK, resultValid := m.resultValid, resultNonce := m.resultNonce)
            && m.resultValid == (l.resultValid || hit) && (hit ==> m.resultNonce == l.nonce)
  {
    hide Value, ReversedWords;
    var d := ReversedWords(l.digest);
    CmpExtends(l.target, d, 7);
    assert d[..8] == d && l.target[..8] == l.target;
  }

  lemma StartRuns(cfg: Config, v: EngineView, i: EngineIn)
    requires Accepts(v, i)
    ensures Running(cfg, JobOf(i), 0, 0, EngineStep(cfg, v, i))
  {
    hide Compress, Meets, Inner, Outer, CompareWord, FirstBlock, SecondBlock;
  }

  /** Within one nonce, whatever the start input does. */
  lemma RunStep(cfg: Config, job: LaneJob, k: nat, u: nat, v: EngineView, i: EngineIn)
    requires Running(cfg, job, k, u, v) && !i.stop && u + 1 < Period(cfg.fourPhase)
    ensures Running(cfg, job, k, u + 1, EngineStep(cfg, v, i))
  {
    hide Compress, CompareWord, FirstBlock, SecondBlock, ReversedWords, Value;
    var n := Latency(cfg.fourPhase);
    var w := v.lane.(coreStart := false, done := false, resultValid := false);
    if u == 2 * n + 5 {
      assert CmpHolds(Cmp(0, false, false), ReversedWords(v.core.digest), job.target);
    } else if 2 * n + 6 <= u < 2 * n + 13 {
      CmpContinues(w);
    } else if u == 2 * n + 13 {
      CmpDecides(w);
    }
  }

  /** The last clock of a nonce: on to the next one, or done. */
  lemma NonceEnds(cfg: Config, job: LaneJob, k: nat, v: EngineView, i: EngineIn)
    requires Running(cfg, job, k, Period(cfg.fourPhase) - 1, v) && !i.stop
    ensures var w := EngineStep(cfg, v, i);
            if k + 1 < job.count then Running(cfg, job, k + 1, 0, w) else Finished(w)
  {
    hide Compress, CompareWord, FirstBlock, SecondBlock, ReversedWords, Value, Meets;
  }

  /** The states of a lane along a sequence of inputs. */
  function EngineRun(cfg: Config, v: EngineView, ins: seq<EngineIn>): EngineView {
    if ins == [] then v else EngineStep(cfg, EngineRun(cfg, v, ins[..|ins| - 1]), ins[|ins| - 1])
  }

  ghost predicate NoStop(ins: seq<EngineIn>) {
    forall j :: 0 <= j < |ins| ==> !ins[j].stop
  }

  /** Where a lane is t clocks after accepting a job. */
  ghost predicate OnSchedule(cfg: Config, job: LaneJob, t: nat, v: EngineView) {
    var p := Period(cfg.fourPhase);
    if t < p * job.count then Running(cfg, job, t / p, t % p, v)
    else if t == p * job.count then Finished(v)
    else Ready(v) && !v.lane.done && !v.lane.resultValid
  }

  lemma PeriodArithmetic(fourPhase: bool, n: nat, t: nat)
    requires t < Period(fourPhase) * n
    ensures var p := Period(fourPhase);
            && t / p < n
            && (t % p + 1 < p ==> t + 1 < p * n && (t + 1) / p == t / p && (t + 1) % p == t % p + 1)
            && (t % p + 1 == p && t / p + 1 < n ==> t + 1 < p * n && (t + 1) / p == t / p + 1 && (t + 1) % p == 0)
            && (t % p + 1 == p && t / p + 1 == n ==> t + 1 == p * n)
  {
    if fourPhase {
      assert t == 527 * (t / 527) + t % 527;
    } else {
      assert t == 655 * (t / 655) + t % 655;
    }
  }

  /** One clock of the schedule, at any time after the job was accepted. The lane must not be restarted once done. */
  lemma {:induction false} ScheduleStep(cfg: Config, job: LaneJob, t: nat, v: EngineView, i: EngineIn)
    requires OnSchedule(cfg, job, t, v) && !i.stop
    requires t >= Period(cfg.fourPhase) * job.count ==> !i.start
    ensures OnSchedule(cfg, job, t + 1, EngineStep(cfg, v, i))
  {
    hide Running, CompareWord, CoreInput, Compress;
    var p := Period(cfg.fourPhase);
    if t < p * job.count {
      PeriodArithmetic(cfg.fourPhase, job.count, t);
      if t % p + 1 < p {
        RunStep(cfg, job, t / p, t % p, v, i);
      } else {
        NonceEnds(cfg, job, t / p, v, i);
      }
    }
  }

  /** Every run of a lane that is started while not busy and never stopped follows the closed form, whatever its
      data. */
  lemma {:induction false} EngineFollowsSchedule(cfg: Config, v: EngineView, first: EngineIn, ins: seq<EngineIn>)
    requires Accepts(v, first) && NoStop(ins)
    requires forall j :: Period(cfg.fourPhase) * first.nonceCount <= j < |ins| ==> !ins[j].start
    ensures OnSchedule(cfg, JobOf(first), |ins|, EngineRun(cfg, EngineStep(cfg, v, first), ins))
  {
    hide Running, EngineStep;
    var job := JobOf(first);
    if ins == [] {
      assert 0 < Period(cfg.fourPhase) * job.count;
      StartRuns(cfg, v, first);
    } else {
      var n := |ins| - 1;
      EngineFollowsSchedule(cfg, v, first, ins[..n]);
      ScheduleStep(cfg, job, n, EngineRun(cfg, EngineStep(cfg, v, first), ins[..n]), ins[n]);
    }
  }

  /** A job whose registers the firmware loaded from a header. */
  ghost predicate FromHeader(job: LaneJob, header: seq<Byte>)
    requires |header| == 80
  {
    job.midstate == Midstate(header) && job.tail == TailWords(header)
  }

  lemma MeetsIsShare(job: LaneJob, header: seq<Byte>, nonce: Word)
    requires |header| == 80 && FromHeader(job, header)
    ensures Meets(job, nonce) <==> IsShare(header, nonce, job.target)
  {
    hide FirstPass, SecondPass, ReversedWords, Value, LeValue, DigestBytes, Sha256d, Midstate, TailWords, WithNonce;
    TwoPassesAreSha256d(header, nonce);
    ReversedWordsValue(Outer(job, nonce));
  }

  /** What the outputs of a lane are t clocks after it accepted a job. */
  ghost predicate ReportsShares(cfg: Config, job: LaneJob, header: seq<Byte>, t: nat, l: Lane)
    requires |header| == 80
  {
    var p := Period(cfg.fourPhase);
    var x := NonceAt(cfg, job, t / p);
    && (l.resultValid <==> t < p * job.count && t % p == p - 1 && IsShare(header, x, job.target))
    && (l.resultValid ==> l.resultNonce == x)
    && (l.done <==> t == p * job.count)
  }

  /**
   * A lane pulses a result exactly at the last clock of the nonces that are shares of the header: the pulse at clock t
   * names nonce number t / Period, and it comes if and only if that nonce is a share by the firmware's definition.
   */
  lemma PulsesExactlyTheShares(cfg: Config, v: EngineView, first: EngineIn, ins: seq<EngineIn>, header: seq<Byte>)
    requires Accepts(v, first) && NoStop(ins)
    requires forall j :: Period(cfg.fourPhase) * first.nonceCount <= j < |ins| ==> !ins[j].start
    requires |header| == 80 && FromHeader(JobOf(first), header)
    ensures ReportsShares(cfg, JobOf(first), header, |ins|, EngineRun(cfg, EngineStep(cfg, v, first), ins).lane)
  {
    hide EngineStep, EngineRun, IsShare, FromHeader;
    EngineFollowsSchedule(cfg, v, first, ins);
    ScheduleReports(cfg, JobOf(first), header, |ins|, EngineRun(cfg, EngineStep(cfg, v, first), ins));
  }

  lemma ScheduleReports(cfg: Config, job: LaneJob, header: seq<Byte>, t: nat, v: EngineView)
    requires |header| == 80 && FromHeader(job, header) && OnSchedule(cfg, job, t, v)
    ensures ReportsShares(cfg, job, header, t, v.lane)
  {
    hide Meets, IsShare, CoreHolds, StageHolds, CmpHolds, Inner, Outer, FromHeader, ReversedWords;
    MeetsIsShare(job, header, NonceAt(cfg, job, t / Period(cfg.fourPhase)));
  }

  /** A core that still has at least two clocks to go on an abandoned job. */
  ghost predicate Undrained(fourPhase: bool, c: CoreView) {
    c.work.Busy? && c.work.age + 1 < Latency(fourPhase)
  }

  /** Why a stop needs a drain, exactly: a lane started while idle is on schedule at its first hashing clock if and only
      if its core was drained when the start was accepted. */
  lemma StartNeedsDrain(cfg: Config, v: EngineView, i: EngineIn, i2: EngineIn)
    requires v.lane.stage == IDLE && !v.lane.coreStart && i.start && !i.stop && i.nonceCount != 0 && !i2.stop
    ensures Running(cfg, JobOf(i), 0, 1, EngineStep(cfg, EngineStep(cfg, v, i), i2))
        <==> !Undrained(cfg.fourPhase, v.core)
  {
    hide Compress, Meets, Inner, Outer, CompareWord, FirstBlock, SecondBlock;
  }

  /** A lane in its first pass behind an abandoned compression of the given age, which ends in a done pulse. */
  ghost predicate Waiting(fourPhase: bool, job: CoreJob, age: nat, v: EngineView) {
    && v.lane.stage == PASS1
    && (if age < Latency(fourPhase) then v.core.work == Busy(job, age) && !v.core.done
        else v.core.done && v.core.digest == Compress(job.chain, job.block))
  }

  lemma {:induction false} WaitEnds(cfg: Config, job: CoreJob, age: nat, v: EngineView, ins: seq<EngineIn>)
    requires Waiting(cfg.fourPhase, job, age, v) && age <= Latency(cfg.fourPhase) && NoStop(ins)
    requires |ins| == Latency(cfg.fourPhase) - age + 1
    ensures EngineRun(cfg, v, ins).lane.digest == Compress(job.chain, job.block)
    decreases |ins|
  {
    hide Compress, CoreInput, CompareWord;
    EngineRunFirst(cfg, v, ins);
    if age < Latency(cfg.fourPhase) {
      WaitEnds(cfg, job, age + 1, EngineStep(cfg, v, ins[0]), ins[1..]);
    } else {
      assert ins[1..] == [];
    }
  }

  /** And otherwise, whatever the age of the abandoned compression when the start is accepted, its digest becomes the
      new job's first-pass digest. */
  lemma StaleDigestTaken(cfg: Config, v: EngineView, i: EngineIn, ins: seq<EngineIn>)
    requires v.lane.stage == IDLE && Undrained(cfg.fourPhase, v.core) && i.start && !i.stop && i.nonceCount != 0
    requires NoStop(ins) && |ins| == Latency(cfg.fourPhase) - v.core.work.age
    ensures var stale := v.core.work.job;
            EngineRun(cfg, EngineStep(cfg, v, i), ins).lane.digest == Compress(stale.chain, stale.block)
  {
    hide Compress, CoreInput, CompareWord;
    var w := EngineStep(cfg, v, i);
    EngineRunFirst(cfg, w, ins);
    WaitEnds(cfg, v.core.work.job, v.core.work.age + 2, EngineStep(cfg, w, ins[0]), ins[1..]);
  }

  lemma {:induction false} EngineRunFirst(cfg: Config, v: EngineView, ins: seq<EngineIn>)
    requires ins != []
    ensures EngineRun(cfg, v, ins) == EngineRun(cfg, EngineStep(cfg, v, ins[0]), ins[1..])
  {
    hide EngineStep;
    var n := |ins| - 1;
    if n > 0 {
      EngineRunFirst(cfg, v, ins[..n]);
      assert ins[..n][1..] == ins[1..][..n - 1];
    }
  }
}
