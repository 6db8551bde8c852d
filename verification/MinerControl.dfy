/** The control block of rtl/bitcoin_miner_axi.sv: launcher, result arbiter and status, for three lanes. */
module MinerControl {
  import opened Options
  import opened Words
  import opened Arithmetic
  import opened Sha256Spec
  import opened ShareHash
  import opened ResultFifo

  /** A register write taking effect in this clock (`write_apply`). */
  datatype Write =
    | NoWrite
    | WriteMidstate(i: nat, w: Word)
    | WriteTail(i: nat, w: Word)
    | WriteTarget(i: nat, w: Word)
    | WriteNonceStart(w: Word)
    | WriteNonceCount(w: Word)
    | WriteControl(start: bool, stop: bool, clear: bool)
    | WriteResultStatus(ackResult: bool, ackOverflow: bool)

  datatype LoadStage = LOAD_IDLE | LOAD_PREP | LOAD_DECODE | LOAD_START | LOAD_DIVIDE

  type LaneIndex = i: int | 0 <= i < 3
  type PerLane = s: seq<Word> | |s| == 3 witness [0, 0, 0]
  type TwoBits = i: int | 0 <= i < 4

  /** A one-hot or zero vector over the lanes, or over the clusters. */
  datatype OneHot = Nothing | Only(i: nat)

  /** The job registers. */
  datatype Job = Job(midstate: State, tail: Tail, target: Target, nonceStart: Word, nonceCount: Word)

  /** The launcher: the restoring divider and the lane loader. */
  datatype Launcher = Launcher(stage: LoadStage, div: Word, rem: TwoBits, bits: nat, lane: TwoBits,
                               startLane: TwoBits, startCount: Word, startLast: bool, startOnehot: OneHot,
                               laneStart: PerLane, laneCount: PerLane)

  /** Status flags and the result register. */
  datatype Status = Status(running: bool, nonceDone: bool, overflow: bool, resultValid: bool, result: Result)

  /** Registers that are high for one clock. */
  datatype Pulses = Pulses(start: bool, stop: bool, clear: bool, engineStart: OneHot, engineStop: bool, pop: OneHot)

  datatype Control = Control(job: Job, load: Launcher, status: Status, pulses: Pulses)

  /** What the lanes and the collectors show the control block. */
  datatype Seen = Seen(busy: bool, allDone: bool, heads: seq<Option<Result>>, overflow: bool)

  function WriteJob(j: Job, w: Write): Job {
    match w
    case WriteMidstate(i, x) => j.(midstate := SetWord(j.midstate, i, x))
    case WriteTail(i, x) => if i < 4 then j.(tail := j.tail[i := x]) else j
    case WriteTarget(i, x) => if i < 8 then j.(target := j.target[i := x]) else j
    case WriteNonceStart(x) => j.(nonceStart := x)
    case WriteNonceCount(x) => j.(nonceCount := x)
    case _ => j
  }

  function SetWord(s: State, i: nat, x: Word): State {
    match i
    case 0 => s.(a := x) case 1 => s.(b := x) case 2 => s.(c := x) case 3 => s.(d := x)
    case 4 => s.(e := x) case 5 => s.(f := x) case 6 => s.(g := x) case 7 => s.(h := x)
    case _ => s
  }

  predicate Starts(c: Control, w: Write) {
    w.WriteControl? && w.start && c.load.stage == LOAD_IDLE
  }

  predicate Stops(w: Write) {
    w.WriteControl? && w.stop
  }

  /** One bit of the restoring division by three, most significant first. */
  function DivideBit(l: Launcher): Launcher {
    var bit := l.div / 0x8000_0000;
    var shifted := 2 * l.rem + bit;
    var l' := l.(div := 2 * l.div % 0x1_0000_0000 + (if shifted >= 3 then 1 else 0),
                 rem := if shifted >= 3 then (shifted - 3) % 4 else shifted % 4,
                 bits := if l.bits == 0 then 63 else l.bits - 1);
    if l.bits == 1 then l'.(stage := LOAD_PREP) else l'
  }

  function LaneQuota(l: Launcher): Word {
    Add(l.div, if l.lane < l.rem then 1 else 0)
  }

  /** The launcher's own clock, when no stop is written. */
  function LoadStep(j: Job, l: Launcher): Launcher {
    match l.stage
    case LOAD_IDLE => l
    case LOAD_DIVIDE => DivideBit(l)
    case LOAD_PREP =>
      l.(startLane := l.lane, startCount := LaneQuota(l), startLast := l.lane == 2,
         laneStart := if l.lane < 3 then l.laneStart[l.lane := Add(j.nonceStart, l.lane)] else l.laneStart,
         laneCount := if l.lane < 3 then l.laneCount[l.lane := LaneQuota(l)] else l.laneCount,
         stage := LOAD_DECODE)
    case LOAD_DECODE =>
      l.(startOnehot := if l.startCount != 0 && l.startLane < 3 then Only(l.startLane) else Nothing,
         stage := LOAD_START)
    case LOAD_START =>
      if l.startLast then l.(stage := LOAD_IDLE) else l.(lane := (l.lane + 1) % 4, stage := LOAD_PREP)
  }

  function NextLauncher(c: Control, w: Write): Launcher {
    var l := if Starts(c, w) then
               c.load.(stage := LOAD_DIVIDE, div := c.job.nonceCount, rem := 0, bits := 32, lane := 0)
             else c.load;
    if Stops(w) then l.(stage := LOAD_IDLE) else if Starts(c, w) then l else LoadStep(c.job, l)
  }

  /** The lowest cluster with a result. */
  function FirstHit(heads: seq<Option<Result>>): OneHot
  {
    if |heads| > 0 && heads[0].Some? then Only(0) else if |heads| > 1 && heads[1].Some? then Only(1) else Nothing
  }

  /** The arbiter takes a result only into an empty result register. */
  function Fetch(s: Status, seen: Seen): OneHot {
    if s.resultValid then Nothing else FirstHit(seen.heads)
  }

  predicate Completes(c: Control, seen: Seen) {
    c.status.running && c.load.stage == LOAD_IDLE && (!seen.busy || seen.allDone) && !c.pulses.start
  }

  /** What the write alone does to the status. */
  function WriteStatus(c: Control, w: Write): Status {
    var s := c.status;
    match w
    case WriteControl(_, stop, clear) =>
      var s1 := if Starts(c, w)
                then s.(running := true, nonceDone := false, overflow := false, resultValid := false) else s;
      var s2 := if stop then s1.(running := false, nonceDone := true) else s1;
      if clear then s2.(resultValid := false, overflow := false, nonceDone := false) else s2
    case WriteResultStatus(ackResult, ackOverflow) =>
      s.(resultValid := s.resultValid && !ackResult, overflow := s.overflow && !ackOverflow)
    case _ => s
  }

  /** Later assignments win: overflow, then the arbiter, then batch completion. */
  function NextStatus(c: Control, w: Write, seen: Seen): Status {
    var s1 := WriteStatus(c, w);
    var s2 := if seen.overflow then s1.(overflow := true) else s1;
    var f := Fetch(c.status, seen);
    var s3 := if f.Only? && f.i < |seen.heads| && seen.heads[f.i].Some?
              then s2.(resultValid := true, result := seen.heads[f.i].value) else s2;
    if Completes(c, seen) then s3.(running := false, nonceDone := true) else s3
  }

  function NextPulses(c: Control, w: Write, seen: Seen): Pulses {
    Pulses(Starts(c, w), Stops(w), w.WriteControl? && w.clear,
           if c.load.stage == LOAD_START && !Stops(w) then c.load.startOnehot else Nothing,
           Stops(w), Fetch(c.status, seen))
  }

  /** One clock edge of the control block. */
  function ControlStep(c: Control, w: Write, seen: Seen): Control {
    Control(WriteJob(c.job, w), NextLauncher(c, w), NextStatus(c, w, seen), NextPulses(c, w, seen))
  }

  /**
   * Midway through the division of a count cut into hi * p + lo: the quotient of hi fills the low bits of the register,
   * the remainder of hi is in rem, and lo still has to be shifted in.
   */
  ghost predicate Dividing(count: Word, p: int, m: int, hi: int, lo: int, l: Launcher) {
    && p * m == 0x1_0000_0000 && count == hi * p + lo && 0 <= hi && 0 <= lo < p
    && l.div == lo * m + hi / 3 && l.rem == hi % 3
  }

  /** Shifting one bit b out of the register in front of z, in terms of the part hi divided so far. */
  lemma ShiftOut(l: Launcher, b: nat, z: nat, hi: nat)
    requires b < 2 && z < 0x8000_0000 && l.div == b * 0x8000_0000 + z && l.rem == hi % 3
    ensures DivideBit(l).div == 2 * z + ((2 * hi + b) / 3 - 2 * (hi / 3)) && DivideBit(l).rem == (2 * hi + b) % 3
  {
    assert l.div / 0x8000_0000 == b;
    assert 2 * l.div % 0x1_0000_0000 == 2 * z;
    var q, r := hi / 3, hi % 3;
    assert hi == 3 * q + r && 2 * hi + b == 6 * q + (2 * r + b);
  }

  lemma DivideBitStep(count: Word, p: nat, m: nat, hi: nat, lo: nat, l: Launcher)
    requires p > 0 && m > 0 && Dividing(count, 2 * p, m, hi, lo, l)
    ensures var b := if lo < p then 0 else 1;
            Dividing(count, p, 2 * m, 2 * hi + b, lo - b * p, DivideBit(l))
  {
    hide DivideBit;
    MulTwo(p, m);
    MulTwo(hi, p);
    assert hi * p < p * m;
    MulLessInverse(hi, m, p);
    if lo < p {
      MulLess(lo, p, m);
      ShiftOut(l, 0, lo * m + hi / 3, hi);
      MulTwo(lo, m);
    } else {
      MulDistributes(p, lo - p, m);
      MulLess(lo - p, p, m);
      ShiftOut(l, 1, (lo - p) * m + hi / 3, hi);
      MulTwo(lo - p, m);
      MulDistributes(2 * hi, 1, p);
    }
  }

  /** The closed form of the divider n bits after a start. */
  ghost predicate DividerAt(count: Word, n: nat, l: Launcher)
    requires n <= 32
  {
    var p := Pow2(32 - n);
    Dividing(count, p, Pow2(n), count / p, count % p, l)
  }

  lemma DividerStarts(count: Word, l: Launcher)
    requires l.div == count && l.rem == 0
    ensures DividerAt(count, 0, l)
  {
    Pow2Of32();
  }

  lemma DividerContinues(count: Word, n: nat, l: Launcher)
    requires n < 32 && DividerAt(count, n, l)
    ensures DividerAt(count, n + 1, DivideBit(l))
  {
    hide DivideBit;
    var p := Pow2(31 - n);
    var hi, lo := count / (2 * p), count % (2 * p);
    assert Pow2(32 - n) == 2 * p && Pow2(n + 1) == 2 * Pow2(n);
    DivideBitStep(count, p, Pow2(n), hi, lo, l);
    var b := if lo < p then 0 else 1;
    assert (2 * hi + b) * p == p * (2 * hi + b);
    DivModIs(count, p, 2 * hi + b, lo - b * p);
  }

  /** After thirty-two bits the divider holds the count divided by three. */
  lemma DividerEnds(count: Word, l: Launcher)
    requires DividerAt(count, 32, l)
    ensures l.div == count / 3 && l.rem == count % 3
  {
    assert Pow2(0) == 1;
  }
}
