/** The clocked SHA-256 compression core of rtl/sha256_core_iterative.sv. */
module Sha256Core {
  import opened Words
  import opened Sha256Spec

  /** The inputs latched when a start is accepted. */
  datatype CoreJob = CoreJob(chain: State, block: Block)

  datatype Work = Idle | Busy(job: CoreJob, age: nat)

  /** What the rest of the design can observe: the work in hand with its age in clocks, and the outputs. */
  datatype CoreView = CoreView(work: Work, done: bool, digest: State)

  /** Clocks from an accepted start to the done pulse. */
  function Latency(fourPhase: bool): nat {
    if fourPhase then 256 else 320
  }

  /** One clock edge, as the specification of the core. */
  function CoreStep(fourPhase: bool, v: CoreView, start: bool, job: CoreJob): CoreView {
    match v.work
    case Idle => CoreView(if start then Busy(job, 0) else Idle, false, v.digest)
    case Busy(j, age) =>
      if age + 1 < Latency(fourPhase) then CoreView(Busy(j, age + 1), false, v.digest)
      else CoreView(Idle, true, Compress(j.chain, j.block))
  }

  datatype CoreIn = CoreIn(start: bool, job: CoreJob)

  function CoreRun(fourPhase: bool, v: CoreView, ins: seq<CoreIn>): CoreView {
    if ins == [] then v
    else CoreStep(fourPhase, CoreRun(fourPhase, v, ins[..|ins| - 1]), ins[|ins| - 1].start, ins[|ins| - 1].job)
  }

  /** Once a start is accepted the core ignores its inputs, is busy for exactly its latency, and pulses done once. */
  lemma {:induction false} CompressionTakesLatency(fourPhase: bool, v: CoreView, job: CoreJob, ins: seq<CoreIn>)
    requires v.work.Idle? && |ins| <= Latency(fourPhase)
    ensures CoreRun(fourPhase, CoreStep(fourPhase, v, true, job), ins)
         == if |ins| < Latency(fourPhase) then CoreView(Busy(job, |ins|), false, v.digest)
            else CoreView(Idle, true, Compress(job.chain, job.block))
  {
    hide Compress;
    if ins != [] {
      CompressionTakesLatency(fourPhase, v, job, ins[..|ins| - 1]);
    }
  }

  /** Which schedule word the ring slot j holds at the beginning of round r. */
  function RingIndex(r: nat, j: nat): nat
    requires j < 16
  {
    if r <= 16 then j else r - 1 - (r - 1 - j) % 16
  }

  /** Reading d words back at round r finds schedule word r - d. */
  lemma RingReads(r: nat, d: nat)
    requires 16 <= r && 1 <= d <= 16
    ensures RingIndex(r, (r - d) % 16) == r - d
  {
  }

  /** Overwriting slot r mod 16 at the end of round r leaves the ring right for round r + 1. */
  lemma RingAdvances(r: nat, j: nat)
    requires j < 16
    ensures r >= 16 && j == r % 16 ==> RingIndex(r + 1, j) == r
    ensures r < 16 || j != r % 16 ==> RingIndex(r + 1, j) == RingIndex(r, j)
  {
    if r >= 16 {
      var q, m := r / 16, r % 16;
      if j < m {
        assert (r - j) % 16 == m - j by { assert r - j == 16 * q + (m - j); }
        assert (r - 1 - j) % 16 == m - 1 - j by { assert r - 1 - j == 16 * q + (m - 1 - j); }
      } else if j == m {
        assert (r - j) % 16 == 0 by { assert r - j == 16 * q; }
      } else {
        assert (r - j) % 16 == 16 + m - j by { assert r - j == 16 * (q - 1) + (16 + m - j); }
        assert (r - 1 - j) % 16 == 15 + m - j by { assert r - 1 - j == 16 * (q - 1) + (15 + m - j); }
      }
    }
  }

  ghost predicate RingHolds(ring: seq<Word>, w: seq<Word>, round: nat) {
    && |ring| == 16 && |w| == 64 && round < 64
    && forall j :: 0 <= j < 16 ==> ring[j] == w[RingIndex(round, j)]
  }

  lemma RingHas(ring: seq<Word>, w: seq<Word>, round: nat, d: nat)
    requires RingHolds(ring, w, round) && 1 <= d <= 16
    ensures round >= 16 ==> ring[(round - d) % 16] == w[round - d]
    ensures round >= 16 && d == 16 ==> (round - d) % 16 == round % 16
    ensures round < 16 ==> ring[round % 16] == w[round]
  {
    hide RingIndex;
    if round >= 16 {
      RingReads(round, d);
    } else {
      RingStarts(round, round);
    }
  }

  lemma RingStarts(r: nat, j: nat)
    requires r < 16 && j < 16
    ensures RingIndex(r, j) == j && r % 16 == r
  {
  }

  /** The pipeline registers between the phases of one round. */
  datatype Pipe = Pipe(t1a: Word, t1b: Word, t1c: Word, t1ab: Word, t1: Word, t2: Word,
                       ws0: Word, ws1: Word, wm7: Word, wm16: Word, wab: Word, wcd: Word, wnew: Word)

  /** Phase 0: read the ring and form the first sums. */
  function FetchOperands(p: Pipe, v: State, k: Word, x: Word, x2: Word, x7: Word, x15: Word): Pipe {
    p.(t1a := Add(v.h, BigSigma1(v.e)), t1b := Add(Ch(v.e, v.f, v.g), k), t1c := x,
       t2 := Add(BigSigma0(v.a), Maj(v.a, v.b, v.c)),
       ws1 := SmallSigma1(x2), wm7 := x7, ws0 := SmallSigma0(x15), wm16 := x)
  }

  /** Phase 1: pair sums; only the four-phase core also registers T1's partial sum. */
  function AddPairs(p: Pipe, fourPhase: bool): Pipe {
    p.(wab := Add(p.ws1, p.wm7), wcd := Add(p.ws0, p.wm16), t1ab := if fourPhase then Add(p.t1a, p.t1b) else p.t1ab)
  }

  /** Phase 2: the new schedule word; the four-phase core finishes T1 here. */
  function AddSchedule(p: Pipe, fourPhase: bool, round: nat): Pipe {
    var wnew := Add(p.wab, p.wcd);
    p.(wnew := wnew, t1 := if fourPhase then Add(p.t1ab, if round < 16 then p.t1c else wnew) else p.t1)
  }

  /** Phase 3 of the five-phase core: T1. */
  function AddT1(p: Pipe, round: nat): Pipe {
    p.(t1 := Add(Add(p.t1a, p.t1b), if round < 16 then p.t1c else p.wnew))
  }

  /** What the pipeline registers hold in each phase, for working variables v and round r of schedule w. */
  ghost predicate PipeHolds(p: Pipe, fourPhase: bool, v: State, w: seq<Word>, r: nat, phase: nat)
    requires r < |w|
  {
    && (phase >= 1 ==>
          && p.t1a == Add(v.h, BigSigma1(v.e)) && p.t1b == Add(Ch(v.e, v.f, v.g), K(r)) && p.t2 == T2(v)
          && (r < 16 ==> p.t1c == w[r]))
    && (phase == 1 && r >= 16 ==>
          && p.ws1 == SmallSigma1(w[r - 2]) && p.wm7 == w[r - 7]
          && p.ws0 == SmallSigma0(w[r - 15]) && p.wm16 == w[r - 16])
    && (phase == 2 && r >= 16 ==>
          && p.wab == Add(SmallSigma1(w[r - 2]), w[r - 7]) && p.wcd == Add(SmallSigma0(w[r - 15]), w[r - 16]))
    && (phase == 2 && fourPhase ==> p.t1ab == Add(p.t1a, p.t1b))
    && (phase >= 3 && r >= 16 ==> p.wnew == w[r])
    && (phase == Phases(fourPhase) - 1 ==> p.t1 == T1(v, K(r), w[r]))
  }

  function Phases(fourPhase: bool): nat {
    if fourPhase then 4 else 5
  }

  lemma FetchOperandsHolds(p: Pipe, fourPhase: bool, v: State, w: seq<Word>, r: nat, x: Word, x2: Word, x7: Word,
                           x15: Word)
    requires r < |w|
    requires r < 16 ==> x == w[r]
    requires r >= 16 ==> x == w[r - 16] && x2 == w[r - 2] && x7 == w[r - 7] && x15 == w[r - 15]
    ensures PipeHolds(FetchOperands(p, v, K(r), x, x2, x7, x15), fourPhase, v, w, r, 1)
  {
    hide BigSigma0, BigSigma1, SmallSigma0, SmallSigma1, Ch, Maj, K, Add;
  }

  lemma AddPairsHolds(p: Pipe, fourPhase: bool, v: State, w: seq<Word>, r: nat)
    requires r < |w| && PipeHolds(p, fourPhase, v, w, r, 1)
    ensures PipeHolds(AddPairs(p, fourPhase), fourPhase, v, w, r, 2)
  {
    hide BigSigma0, BigSigma1, SmallSigma0, SmallSigma1, Ch, Maj, K, Add;
  }

  lemma AddScheduleHolds(p: Pipe, fourPhase: bool, v: State, w: seq<Word>, r: nat)
    requires r < |w| && Recurrent(w) && PipeHolds(p, fourPhase, v, w, r, 2)
    ensures PipeHolds(AddSchedule(p, fourPhase, r), fourPhase, v, w, r, 3)
  {
    hide BigSigma0, BigSigma1, SmallSigma0, SmallSigma1, Ch, Maj, K, Add;
    if r >= 16 {
      assert RecurrentAt(w, r);
      AddAssociative(p.wab, SmallSigma0(w[r - 15]), w[r - 16]);
    }
    AddAssociative(p.t1a, Ch(v.e, v.f, v.g), K(r));
  }

  lemma AddT1Holds(p: Pipe, v: State, w: seq<Word>, r: nat)
    requires r < |w| && PipeHolds(p, false, v, w, r, 3)
    ensures PipeHolds(AddT1(p, r), false, v, w, r, 4)
  {
    hide BigSigma0, BigSigma1, SmallSigma0, SmallSigma1, Ch, Maj, K, Add;
    AddAssociative(p.t1a, Ch(v.e, v.f, v.g), K(r));
  }

  class Core {
    const fourPhase: bool
    const ring: array<Word>
    var chain: State
    var vars: State
    var pipe: Pipe
    var round: nat
    var phase: nat
    var busy: bool
    var done: bool
    var digest: State
    ghost var job: CoreJob
    ghost var w: seq<Word>

    ghost predicate Valid()
      reads this, ring
    {
      && ring.Length == 16
      && (busy ==>
            && !done && round < 64 && phase < Phases(fourPhase)
            && chain == job.chain
            && |w| == 64 && w == Schedule(job.block) && Recurrent(w)
            && vars == Rounds(chain, w, round)
            && RingHolds(ring[..], w, round)
            && PipeHolds(pipe, fourPhase, vars, w, round, phase))
    }

    ghost function View(): CoreView
      reads this
    {
      CoreView(if busy then Busy(job, round * Phases(fourPhase) + phase) else Idle, done, digest)
    }

    /** Out of reset the core is idle. The datapath registers are not reset. */
    constructor (fourPhase: bool)
      ensures Valid() && fresh(ring) && this.fourPhase == fourPhase
      ensures View().work == Idle && !View().done
    {
      this.fourPhase := fourPhase;
      ring := new Word[16];
      busy, done, round, phase := false, false, 0, 0;
    }

    /** One rising clock edge. */
    method Clock(start: bool, block: Block, h: State)
      requires Valid()
      modifies this, ring
      ensures Valid()
      ensures View() == CoreStep(fourPhase, old(View()), start, CoreJob(h, block))
    {
      hide FetchOperands, AddPairs, AddSchedule, AddT1, K, PipeHolds, RingHolds, Rounds, Recurrent, Schedule, Compress;
      done := false;
      if start && !busy {
        Accept(block, h);
      } else if busy {
        if phase <= 2 || (phase == 3 && !fourPhase) {
          FillPipe();
        } else {
          FinishRound();
        }
      }
    }

    /** The phases before the last one of a round only move the pipeline registers. */
    method FillPipe()
      requires Valid() && busy && phase + 1 < Phases(fourPhase)
      modifies `pipe, `phase
      ensures Valid() && phase == old(phase) + 1
    {
      hide FetchOperands, AddPairs, AddSchedule, AddT1, K, PipeHolds, RingHolds, Rounds, Recurrent, Schedule, Compress;
      if phase == 0 {
        var x, x2, x7, x15 := ReadRing();
        FetchOperandsHolds(pipe, fourPhase, vars, w, round, x, x2, x7, x15);
        pipe := FetchOperands(pipe, vars, K(round), x, x2, x7, x15);
        phase := 1;
      } else if phase == 1 {
        AddPairsHolds(pipe, fourPhase, vars, w, round);
        pipe, phase := AddPairs(pipe, fourPhase), 2;
      } else if phase == 2 {
        AddScheduleHolds(pipe, fourPhase, vars, w, round);
        pipe, phase := AddSchedule(pipe, fourPhase, round), 3;
      } else {
        AddT1Holds(pipe, vars, w, round);
        pipe, phase := AddT1(pipe, round), 4;
      }
    }

    method Accept(block: Block, h: State)
      requires Valid() && !busy && !done
      modifies this, ring
      ensures Valid() && !done && digest == old(digest)
      ensures busy && job == CoreJob(h, block) && round == 0 && phase == 0
    {
      hide BigSigma0, BigSigma1, SmallSigma0, SmallSigma1, Ch, Maj, K, Add, NextW;
      for i := 0 to 16
        invariant forall j :: 0 <= j < i ==> ring[j] == block[j]
        modifies ring
      {
        ring[i] := block[i];
      }
      chain, vars := h, h;
      round, phase, busy := 0, 0, true;
      job := CoreJob(h, block);
      w := Schedule(block);
      ExtendScheduleRecurrent(block);
    }

    /** The slots addressed in round r hold the words the recurrence needs. */
    method ReadRing() returns (x: Word, x2: Word, x7: Word, x15: Word)
      requires ring.Length == 16 && RingHolds(ring[..], w, round)
      ensures round < 16 ==> x == w[round]
      ensures round >= 16 ==> x == w[round - 16] && x2 == w[round - 2] && x7 == w[round - 7] && x15 == w[round - 15]
    {
      hide RingHolds, RingIndex;
      RingHas(ring[..], w, round, 2);
      RingHas(ring[..], w, round, 7);
      RingHas(ring[..], w, round, 15);
      RingHas(ring[..], w, round, 16);
      x, x2, x7, x15 := ring[round % 16], ring[(round - 2) % 16], ring[(round - 7) % 16], ring[(round - 15) % 16];
    }

    /** The last phase: write the schedule word back, rotate the working variables, and after round 63 report. */
    method FinishRound()
      requires Valid() && busy && phase == Phases(fourPhase) - 1
      modifies this, ring
      ensures Valid() && phase == 0 && job == old(job)
      ensures old(round) < 63 ==> !done && busy && digest == old(digest) && round == old(round) + 1
      ensures old(round) == 63 ==> !busy && done && digest == Compress(job.chain, job.block)
    {
      hide BigSigma0, BigSigma1, SmallSigma0, SmallSigma1, Ch, Maj, K, Add, Rounds, ExtendSchedule;
      var next := State(Add(pipe.t1, pipe.t2), vars.a, vars.b, vars.c, Add(vars.d, pipe.t1), vars.e, vars.f, vars.g);
      RoundsUnfold(chain, w, round);
      assert next == Rounds(chain, w, round + 1);
      if round >= 16 {
        ring[round % 16] := pipe.wnew;
      }
      forall j | 0 <= j < 16
        ensures ring[j] == w[RingIndex(round + 1, j)]
      {
        RingAdvances(round, j);
      }
      vars := next;
      phase := 0;
      if round == 63 {
        digest := AddState(chain, next);
        busy, done := false, true;
      } else {
        round := round + 1;
      }
    }
  }
}
