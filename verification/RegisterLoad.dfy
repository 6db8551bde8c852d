/** The register writes of `build_header` and `start_range`, and what they leave in the mining registers. */
module RegisterLoad {
  import opened Words
  import opened Sha256Spec
  import opened Sha256Core
  import opened MinerControl
  import opened HashEngine
  import opened ResultFifo
  import opened MiningBatch
  import opened MinerLifecycle

  /** The job registers after a sequence of clocks, each with its write. */
  function JobAfter(j: Job, ws: seq<Write>): Job {
    if ws == [] then j else WriteJob(JobAfter(j, ws[..|ws| - 1]), ws[|ws| - 1])
  }

  /** Nothing but register writes changes the job registers of the miner. */
  lemma {:induction false} JobRun(p: Params, s: Sys, ws: seq<Write>)
    ensures SysRun(p, s, ws).ctl.job == JobAfter(s.ctl.job, ws)
  {
    hide SysStep;
    if ws != [] {
      var n := |ws| - 1;
      JobRun(p, s, ws[..n]);
      JobStep(p, SysRun(p, s, ws[..n]), ws[n]);
    }
  }

  lemma JobStep(p: Params, s: Sys, w: Write)
    ensures SysStep(p, s, w).ctl.job == WriteJob(s.ctl.job, w)
  {
    hide EngineStep, FifoStep, WriteJob, NextLauncher, NextStatus, NextPulses, SeenBy;
  }

  /** The writes of a run without its idle clocks. */
  function Effective(ws: seq<Write>): seq<Write> {
    if ws == [] then []
    else Effective(ws[..|ws| - 1]) + (if ws[|ws| - 1] == NoWrite then [] else [ws[|ws| - 1]])
  }

  lemma JobSnoc(j: Job, ws: seq<Write>, w: Write)
    ensures JobAfter(j, ws + [w]) == WriteJob(JobAfter(j, ws), w)
  {
    assert (ws + [w])[..|ws|] == ws;
  }

  lemma {:induction false} IdleClocksFree(j: Job, ws: seq<Write>)
    ensures JobAfter(j, ws) == JobAfter(j, Effective(ws))
  {
    hide WriteJob;
    if ws != [] {
      var n := |ws| - 1;
      IdleClocksFree(j, ws[..n]);
      JobSnoc(j, Effective(ws[..n]), ws[n]);
      assert Effective(ws[..n]) + [] == Effective(ws[..n]);
      NoWriteKeeps(JobAfter(j, ws[..n]));
    }
  }

  lemma NoWriteKeeps(j: Job)
    ensures WriteJob(j, NoWrite) == j
  {
  }

  function WordAt(s: State, i: nat): Word
    requires i < 8
  {
    [s.a, s.b, s.c, s.d, s.e, s.f, s.g, s.h][i]
  }

  /** The first loop: midstate and target words in turn. */
  function PairWrites(r: Job, n: nat): seq<Write>
    requires n <= 8
  {
    if n == 0 then []
    else
      PairWrites(r, n - 1) + [WriteMidstate(n - 1, WordAt(r.midstate, n - 1))] + [WriteTarget(n - 1, r.target[n - 1])]
  }

  /** The second loop: the tail words. */
  function TailWrites(r: Job, n: nat): seq<Write>
    requires n <= 4
  {
    if n == 0 then [] else TailWrites(r, n - 1) + [WriteTail(n - 1, r.tail[n - 1])]
  }

  /** `start_range` up to its start write. */
  function RangeWrites(r: Job): seq<Write> {
    [WriteControl(false, false, true)] + [WriteNonceStart(r.nonceStart)] + [WriteNonceCount(r.nonceCount)]
  }

  function LoadWrites(r: Job): seq<Write> {
    PairWrites(r, 8) + TailWrites(r, 4) + RangeWrites(r)
  }

  ghost predicate PairsLoaded(j: Job, r: Job, n: nat)
    requires n <= 8
  {
    forall i :: 0 <= i < n ==> WordAt(j.midstate, i) == WordAt(r.midstate, i) && j.target[i] == r.target[i]
  }

  lemma SetWordAt(s: State, i: nat, x: Word, k: nat)
    requires i < 8 && k < 8
    ensures WordAt(SetWord(s, i, x), k) == if k == i then x else WordAt(s, k)
  {
  }

  lemma {:induction false} PairsLoad(j: Job, r: Job, n: nat)
    requires n <= 8
    ensures PairsLoaded(JobAfter(j, PairWrites(r, n)), r, n)
  {
    hide JobAfter, WordAt, SetWord;
    if n > 0 {
      PairsLoad(j, r, n - 1);
      var before := JobAfter(j, PairWrites(r, n - 1));
      var w, v := WriteMidstate(n - 1, WordAt(r.midstate, n - 1)), WriteTarget(n - 1, r.target[n - 1]);
      JobSnoc(j, PairWrites(r, n - 1), w);
      JobSnoc(j, PairWrites(r, n - 1) + [w], v);
      forall i | 0 <= i < n
        ensures WordAt(SetWord(before.midstate, n - 1, WordAt(r.midstate, n - 1)), i) == WordAt(r.midstate, i)
      {
        SetWordAt(before.midstate, n - 1, WordAt(r.midstate, n - 1), i);
      }
    }
  }

  lemma {:induction false} TailsLoad(j: Job, r: Job, n: nat)
    requires n <= 4
    ensures var k := JobAfter(j, TailWrites(r, n));
            k == j.(tail := k.tail) && forall i :: 0 <= i < n ==> k.tail[i] == r.tail[i]
  {
    hide JobAfter;
    EmptyJob(j);
    if n > 0 {
      TailsLoad(j, r, n - 1);
      JobSnoc(j, TailWrites(r, n - 1), WriteTail(n - 1, r.tail[n - 1]));
    }
  }

  lemma EmptyJob(j: Job)
    ensures JobAfter(j, []) == j
  {
  }

  /** Starting another range changes only the nonce registers. */
  lemma RangeLoads(j: Job, r: Job)
    ensures JobAfter(j, RangeWrites(r)) == j.(nonceStart := r.nonceStart, nonceCount := r.nonceCount)
  {
    hide JobAfter;
    EmptyJob(j);
    assert [] + [WriteControl(false, false, true)] == [WriteControl(false, false, true)];
    JobSnoc(j, [], WriteControl(false, false, true));
    JobSnoc(j, [WriteControl(false, false, true)], WriteNonceStart(r.nonceStart));
    JobSnoc(j, [WriteControl(false, false, true)] + [WriteNonceStart(r.nonceStart)], WriteNonceCount(r.nonceCount));
  }

  lemma {:induction false} JobAppend(j: Job, a: seq<Write>, b: seq<Write>)
    ensures JobAfter(j, a + b) == JobAfter(JobAfter(j, a), b)
  {
    hide WriteJob;
    if b == [] {
      assert a + b == a;
    } else {
      var n := |b| - 1;
      JobAppend(j, a, b[..n]);
      assert (a + b)[..|a| + n] == a + b[..n];
    }
  }

  lemma StateByWords(s: State, t: State)
    requires forall i :: 0 <= i < 8 ==> WordAt(s, i) == WordAt(t, i)
    ensures s == t
  {
    assert WordAt(s, 0) == WordAt(t, 0) && WordAt(s, 1) == WordAt(t, 1) && WordAt(s, 2) == WordAt(t, 2)
        && WordAt(s, 3) == WordAt(t, 3);
    assert WordAt(s, 4) == WordAt(t, 4) && WordAt(s, 5) == WordAt(t, 5) && WordAt(s, 6) == WordAt(t, 6)
        && WordAt(s, 7) == WordAt(t, 7);
  }

  /** The firmware's writes, with any idle clocks between them, leave exactly the intended job, whatever was there. */
  lemma RegistersLoaded(j: Job, r: Job, ws: seq<Write>)
    requires Effective(ws) == LoadWrites(r)
    ensures JobAfter(j, ws) == r
  {
    hide JobAfter, Effective, PairWrites, TailWrites, RangeWrites, WordAt, WriteJob;
    IdleClocksFree(j, ws);
    var a, b, c := PairWrites(r, 8), TailWrites(r, 4), RangeWrites(r);
    JobAppend(j, a + b, c);
    JobAppend(j, a, b);
    var j1 := JobAfter(j, a);
    var j2 := JobAfter(j1, b);
    PairsLoad(j, r, 8);
    TailsLoad(j1, r, 4);
    RangeLoads(j2, r);
    StateByWords(j1.midstate, r.midstate);
    assert j1.target == r.target && j2.tail == r.tail;
  }

  ghost predicate NoStart(ws: seq<Write>) {
    forall k :: 0 <= k < |ws| ==> !Starting(ws[k])
  }

  lemma {:induction false} EffectiveNoStart(ws: seq<Write>)
    requires NoStart(Effective(ws))
    ensures NoStart(ws)
  {
    if ws != [] {
      var n := |ws| - 1;
      var e := Effective(ws[..n]);
      assert forall k :: 0 <= k < |e| ==> e[k] == Effective(ws)[k];
      EffectiveNoStart(ws[..n]);
      assert ws[n] != NoWrite ==> Effective(ws)[|e|] == ws[n];
    }
  }

  lemma {:induction false} PairsNoStart(r: Job, n: nat)
    requires n <= 8
    ensures NoStart(PairWrites(r, n))
  {
    if n > 0 {
      PairsNoStart(r, n - 1);
    }
  }

  lemma {:induction false} TailsNoStart(r: Job, n: nat)
    requires n <= 4
    ensures NoStart(TailWrites(r, n))
  {
    if n > 0 {
      TailsNoStart(r, n - 1);
    }
  }

  lemma LoadNoStart(r: Job)
    ensures NoStart(LoadWrites(r))
  {
    hide PairWrites, TailWrites;
    PairsNoStart(r, 8);
    TailsNoStart(r, 4);
  }

  const STOP := WriteControl(false, true, false)
  const CLEAR := WriteControl(false, false, true)

  /** The miner after a job change: a stop write, some clocks, and the register writes of a header. */
  ghost function Changed(p: Params, s: Sys, wait: seq<Write>, load: seq<Write>): Sys {
    SysRun(p, SysStep(p, s, STOP), wait + load)
  }

  /** What a job change must keep to: no start, a clear write at least two clocks after the stop, all registers written,
      and more than one core latency from the stop to the start. */
  ghost predicate ChangeOk(p: Params, wait: seq<Write>, i: nat, load: seq<Write>, r: Job) {
    && NoStart(wait) && 2 <= i < |wait| && wait[i] == CLEAR && Effective(load) == LoadWrites(r)
    && |wait + load| > Latency(p.fourPhase)
  }

  /** From any state of the miner, a job change leaves it silent, with exactly the new job in its registers. */
  lemma JobChangeIsClean(p: Params, s: Sys, wait: seq<Write>, i: nat, load: seq<Write>, r: Job)
    requires ChangeOk(p, wait, i, load, r)
    ensures Silent(Changed(p, s, wait, load)) && Changed(p, s, wait, load).ctl.job == r
  {
    hide SysStep, SysRun, Silent, JobAfter, LoadWrites, Effective;
    LoadNoStart(r);
    EffectiveNoStart(load);
    StopSequenceSilences(p, s, wait + load, i);
    var t := SysRun(p, SysStep(p, s, STOP), wait);
    SysRunAppend(p, SysStep(p, s, STOP), wait, load);
    JobRun(p, t, load);
    RegistersLoaded(t.ctl.job, r, load);
  }
}
