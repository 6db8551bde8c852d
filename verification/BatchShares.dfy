/** What an acknowledged batch means for the nonce space: every share of the header exactly once, and nothing else. */
module BatchShares {
  import opened Words
  import opened Sha256Message
  import opened ShareHash
  import opened HashEngine
  import opened ResultFifo
  import opened MinerControl
  import opened MiningBatch
  import opened BatchDelivery
  import opened MinerLifecycle
  import opened ReadPort

  function OfLane(rs: seq<Result>, i: nat): seq<Result> {
    if rs == [] then []
    else OfLane(rs[..|rs| - 1], i) + (if rs[|rs| - 1].engine == i then [rs[|rs| - 1]] else [])
  }

  lemma {:induction false} OfLaneAppend(a: seq<Result>, b: seq<Result>, i: nat)
    ensures OfLane(a + b, i) == OfLane(a, i) + OfLane(b, i)
  {
    if b == [] {
      assert a + b == a;
    } else {
      var n := |b| - 1;
      OfLaneAppend(a, b[..n], i);
      assert (a + b)[..|a| + n] == a + b[..n];
    }
  }

  lemma {:induction false} OfLaneOfCluster(rs: seq<Result>, i: nat)
    ensures OfLane(OfCluster(rs, i / 2), i) == OfLane(rs, i)
  {
    if rs != [] {
      var n := |rs| - 1;
      OfLaneOfCluster(rs[..n], i);
      OfLaneAppend(OfCluster(rs[..n], i / 2), if ClusterOf(rs[n]) == i / 2 then [rs[n]] else [], i);
    }
  }

  lemma {:induction false} OfLaneCounts(rs: seq<Result>, r: Result)
    ensures multiset(OfLane(rs, r.engine))[r] == multiset(rs)[r]
  {
    if rs != [] {
      var n := |rs| - 1;
      OfLaneCounts(rs[..n], r);
      assert rs == rs[..n] + [rs[n]];
    }
  }

  /** The shares among the first k nonces of lane i, in order. */
  function LaneShares(p: Params, j: Job, i: LaneIndex, k: nat): seq<Result> {
    if k == 0 then []
    else
      var x := BatchNonce(j, i + 3 * (k - 1));
      LaneShares(p, j, i, k - 1) + (if Meets(LaneJobOf(j, i), x) then [Result(i, x)] else [])
  }

  /** How many nonces lane i has reported on before clock n. */
  function Reported(p: Params, j: Job, i: LaneIndex, n: nat): nat {
    var l, q := Period(p.fourPhase), Quota(j.nonceCount, i);
    if n < LaunchTime(i) then 0 else if n - LaunchTime(i) >= l * q then q else (n - LaunchTime(i)) / l
  }

  lemma ReportedStep(p: Params, j: Job, i: LaneIndex, n: nat)
    ensures LaneShares(p, j, i, Reported(p, j, i, n + 1)) == LaneShares(p, j, i, Reported(p, j, i, n))
        + PulseOf(p, j, i, n)
  {
    hide Meets, LaneShares;
    var l, q := Period(p.fourPhase), Quota(j.nonceCount, i);
    if n + 1 < LaunchTime(i) {
    } else if n + 1 == LaunchTime(i) {
      assert 0 / l == 0;
    } else if n - LaunchTime(i) < l * q {
      var t := n - LaunchTime(i);
      PeriodArithmetic(p.fourPhase, q, t);
      NonceAtClosed(p, j, i, t / l);
      LaneSharesUnfold(p, j, i, t / l);
    }
  }

  lemma LaneSharesUnfold(p: Params, j: Job, i: LaneIndex, k: nat)
    ensures var x := BatchNonce(j, i + 3 * k);
            LaneShares(p, j, i, k + 1) == LaneShares(p, j, i, k)
                + (if Meets(LaneJobOf(j, i), x) then [Result(i, x)] else [])
  {
    hide Meets;
  }

  lemma OfLanePulses(p: Params, j: Job, i: LaneIndex, n: nat)
    ensures OfLane(PulseList(p, j, i / 2, n), i) == PulseOf(p, j, i, n)
  {
    hide Pulse, PulseNonce;
    if i < 2 {
      OfLaneAppend(PulseOf(p, j, 0, n), PulseOf(p, j, 1, n), i);
    }
  }

  /** Filtered by lane, the reports of a batch before clock n are the shares among the nonces reported on. */
  lemma {:induction false} ProducedByLane(p: Params, j: Job, i: LaneIndex, n: nat)
    ensures OfLane(Produced(p, j, i / 2, n), i) == LaneShares(p, j, i, Reported(p, j, i, n))
  {
    hide PulseList, PulseOf, Reported, OfLane, LaneShares;
    if n == 0 {
      NothingReported(p, j, i);
    } else {
      ProducedByLane(p, j, i, n - 1);
      OfLaneAppend(Produced(p, j, i / 2, n - 1), PulseList(p, j, i / 2, n - 1), i);
      OfLanePulses(p, j, i, n - 1);
      ReportedStep(p, j, i, n - 1);
    }
  }

  lemma NothingReported(p: Params, j: Job, i: LaneIndex)
    ensures LaneShares(p, j, i, Reported(p, j, i, 0)) == [] == OfLane([], i)
  {
  }

  lemma AllReported(p: Params, j: Job, i: LaneIndex, n: nat)
    requires n > BatchEnd(p, j)
    ensures Reported(p, j, i, n) == Quota(j.nonceCount, i)
  {
    hide Quota;
    LaneEndBound(p, j, 0);
    LaneEndBound(p, j, 1);
    LaneEndBound(p, j, 2);
  }

  /** The report that position m of a batch would make. */
  function BatchResult(j: Job, m: nat): Result {
    Result(m % 3, BatchNonce(j, m))
  }

  lemma {:induction false} LaneSharesCount(p: Params, j: Job, i: LaneIndex, k: nat, m: nat)
    requires k <= Quota(j.nonceCount, i) && m < j.nonceCount && m % 3 == i
    ensures multiset(LaneShares(p, j, i, k))[BatchResult(j, m)]
         == if m / 3 < k && Meets(LaneJobOf(j, i), BatchNonce(j, m)) then 1 else 0
  {
    hide Meets, BatchNonce, Quota, LaneShares;
    if k == 0 {
      assert LaneShares(p, j, i, k) == [] by { NoShares(p, j, i); }
    } else {
      LaneSharesCount(p, j, i, k - 1, m);
      LaneSharesUnfold(p, j, i, k - 1);
      var n := i + 3 * (k - 1);
      LanesPartitionBatch(j.nonceCount, n, i, k - 1);
      LanesPartitionBatch(j.nonceCount, m, i, k - 1);
      if BatchNonce(j, m) == BatchNonce(j, n) {
        BatchNoncesDistinct(j, m, n);
      }
    }
  }

  lemma NoShares(p: Params, j: Job, i: LaneIndex)
    ensures LaneShares(p, j, i, 0) == []
  {
  }

  lemma {:induction false} LaneSharesSound(p: Params, j: Job, i: LaneIndex, k: nat, r: Result) returns (m: nat)
    requires k <= Quota(j.nonceCount, i) && r in LaneShares(p, j, i, k)
    ensures m < j.nonceCount && r == BatchResult(j, m)
  {
    hide Meets;
    var n := i + 3 * (k - 1);
    if r in LaneShares(p, j, i, k - 1) {
      m := LaneSharesSound(p, j, i, k - 1, r);
    } else {
      LanesPartitionBatch(j.nonceCount, n, i, k - 1);
      m := n;
    }
  }

  /** Every share of the header in the batch is among the results exactly once, and every result is one of them. */
  ghost predicate ExactlyTheShares(j: Job, header: seq<Byte>, rs: seq<Result>)
    requires |header| == 80
  {
    && (forall m: nat :: m < j.nonceCount ==>
          multiset(rs)[BatchResult(j, m)] == if IsShare(header, BatchNonce(j, m), j.target) then 1 else 0)
    && (forall r :: r in rs ==> exists m: nat :: m < j.nonceCount && r == BatchResult(j, m))
  }

  lemma LanesCoverResults(p: Params, j: Job, header: seq<Byte>, rs: seq<Result>)
    requires forall i: LaneIndex :: OfLane(rs, i) == LaneShares(p, j, i, Quota(j.nonceCount, i))
    requires forall k :: 0 <= k < |rs| ==> rs[k].engine < 3
    requires |header| == 80 && j.midstate == Midstate(header) && j.tail == TailWords(header)
    ensures ExactlyTheShares(j, header, rs)
  {
    hide Meets, IsShare, OfLane, LaneShares, Midstate, TailWords, Quota, BatchNonce;
    forall m: nat | m < j.nonceCount
      ensures multiset(rs)[BatchResult(j, m)] == if IsShare(header, BatchNonce(j, m), j.target) then 1 else 0
    {
      var i: LaneIndex := m % 3;
      LanesPartitionBatch(j.nonceCount, m, i, 0);
      LaneSharesCount(p, j, i, Quota(j.nonceCount, i), m);
      OfLaneCounts(rs, BatchResult(j, m));
      MeetsIsShare(LaneJobOf(j, i), header, BatchNonce(j, m));
    }
    forall r | r in rs
      ensures exists m: nat :: m < j.nonceCount && r == BatchResult(j, m)
    {
      var i: LaneIndex := r.engine;
      OfLaneCounts(rs, r);
      assert r in LaneShares(p, j, i, Quota(j.nonceCount, i));
      var m := LaneSharesSound(p, j, i, Quota(j.nonceCount, i), r);
    }
  }

  lemma {:induction false} ClusterResult(rs: seq<Result>, c: nat, k: nat)
    requires k < |rs| && ClusterOf(rs[k]) == c
    ensures rs[k] in OfCluster(rs, c)
  {
    var n := |rs| - 1;
    if k < n {
      ClusterResult(rs[..n], c, k);
    }
  }

  lemma {:induction false} ProducedEngines(p: Params, j: Job, c: nat, n: nat, r: Result)
    requires r in Produced(p, j, c, n)
    ensures r.engine < 3
  {
    hide Pulse, PulseNonce;
    if n > 0 && r in Produced(p, j, c, n - 1) {
      ProducedEngines(p, j, c, n - 1, r);
    }
  }

  /** All reports of a batch before clock n. */
  function Made(p: Params, j: Job, n: nat): seq<Result> {
    Produced(p, j, 0, n) + Produced(p, j, 1, n)
  }

  /** The reports to one collector hold none of the other's lanes. */
  lemma {:induction false} ProducedElsewhere(p: Params, j: Job, c: nat, i: LaneIndex, n: nat)
    requires c < 2 && i / 2 != c
    ensures OfLane(Produced(p, j, c, n), i) == []
  {
    hide PulseList, PulseOf, OfLane;
    if n == 0 {
      NoneOfLane(i);
    } else {
      ProducedElsewhere(p, j, c, i, n - 1);
      OfLaneAppend(Produced(p, j, c, n - 1), PulseList(p, j, c, n - 1), i);
      PulsesElsewhere(p, j, c, i, n - 1);
    }
  }

  lemma NoneOfLane(i: nat)
    ensures OfLane([], i) == []
  {
  }

  lemma PulsesElsewhere(p: Params, j: Job, c: nat, i: LaneIndex, n: nat)
    requires c < 2 && i / 2 != c
    ensures OfLane(PulseList(p, j, c, n), i) == []
  {
    hide Pulse, PulseNonce;
    if c == 0 {
      OfLaneAppend(PulseOf(p, j, 0, n), PulseOf(p, j, 1, n), i);
    }
  }

  /** Once the batch has ended, its reports are exactly the shares. */
  lemma MadeIsExact(p: Params, j: Job, n: nat, header: seq<Byte>)
    requires n > BatchEnd(p, j)
    requires |header| == 80 && j.midstate == Midstate(header) && j.tail == TailWords(header)
    ensures ExactlyTheShares(j, header, Made(p, j, n))
  {
    hide BatchEnd, Produced, OfLane, LaneShares, Midstate, TailWords, Quota, ExactlyTheShares;
    var made := Made(p, j, n);
    forall i: LaneIndex
      ensures OfLane(made, i) == LaneShares(p, j, i, Quota(j.nonceCount, i))
    {
      OfLaneAppend(Produced(p, j, 0, n), Produced(p, j, 1, n), i);
      ProducedByLane(p, j, i, n);
      ProducedElsewhere(p, j, 1 - i / 2, i, n);
      AllReported(p, j, i, n);
    }
    forall k | 0 <= k < |made|
      ensures made[k].engine < 3
    {
      ProducedEngines(p, j, if k < |Produced(p, j, 0, n)| then 0 else 1, n, made[k]);
    }
    LanesCoverResults(p, j, header, made);
  }

  /** Only one collection of results is exact. */
  lemma ExactIsUnique(j: Job, header: seq<Byte>, a: seq<Result>, b: seq<Result>)
    requires |header| == 80 && ExactlyTheShares(j, header, a) && ExactlyTheShares(j, header, b)
    ensures multiset(a) == multiset(b) && |a| == |b|
  {
    hide IsShare, BatchNonce;
    forall r: Result
      ensures multiset(a)[r] == multiset(b)[r]
    {
      if r in a || r in b {
        var m: nat :| m < j.nonceCount && r == BatchResult(j, m);
      }
    }
    assert |a| == |multiset(a)| && |b| == |multiset(b)|;
  }

  /**
   * A batch started from a silent miner whose registers hold a header: if done is seen in one clock and, three or more
   * idle clocks later, there is no result, then the acknowledged results are exactly the shares among the nonces
   * start, start + 1, ..., start + count - 1, each once, if and only if overflow is not flagged.
   */
  lemma BatchDeliversExactlyTheShares(p: Params, s: Sys, ws: seq<Write>, idle: seq<Write>, header: seq<Byte>)
    requires Silent(s) && AllGentle(ws) && NoWrites(idle) && |idle| >= 3
    requires SysRun(p, SysStep(p, s, START), ws).ctl.status.nonceDone
    requires !SysRun(p, SysStep(p, s, START), ws + idle).ctl.status.resultValid
    requires |header| == 80 && s.ctl.job.midstate == Midstate(header) && s.ctl.job.tail == TailWords(header)
    ensures ExactlyTheShares(s.ctl.job, header, Acked(p, SysStep(p, s, START), ws + idle))
       <==> !SysRun(p, SysStep(p, s, START), ws + idle).ctl.status.overflow
  {
    hide SysStep, SysRun, Acked, BatchAt, Silent, BatchEnd, Delivered, Midstate, TailWords, ExactlyTheShares;
    DoneAndEmptyMeansDelivered(p, s, ws, idle);
    DeliveredIsExact(p, s.ctl.job, |ws + idle|, SysRun(p, SysStep(p, s, START), ws + idle).ctl.status.overflow,
                     Acked(p, SysStep(p, s, START), ws + idle), header);
  }

  lemma DeliveredIsExact(p: Params, j: Job, n: nat, overflow: bool, acked: seq<Result>, header: seq<Byte>)
    requires n > BatchEnd(p, j) && Delivered(p, j, n, overflow, acked)
    requires |header| == 80 && j.midstate == Midstate(header) && j.tail == TailWords(header)
    ensures ExactlyTheShares(j, header, acked) <==> !overflow
    ensures |acked| <= |Made(p, j, n)| && (overflow <==> |acked| < |Made(p, j, n)|)
  {
    hide BatchEnd, Produced, OfCluster, OfLane, LaneShares, Midstate, TailWords, Quota, ExactlyTheShares;
    MadeIsExact(p, j, n, header);
    if overflow {
      if ExactlyTheShares(j, header, acked) {
        ExactIsUnique(j, header, acked, Made(p, j, n));
      }
    } else {
      ClustersCount(acked);
      forall i: LaneIndex
        ensures OfLane(acked, i) == LaneShares(p, j, i, Quota(j.nonceCount, i))
      {
        OfLaneOfCluster(acked, i);
        ProducedByLane(p, j, i, n);
        AllReported(p, j, i, n);
      }
      EnginesKnown(p, j, n, acked);
      LanesCoverResults(p, j, header, acked);
    }
  }

  /** The status in each of the clocks that follow a run. */
  ghost function Statuses(p: Params, t: Sys, ws: seq<Write>, idle: seq<Write>): (sts: seq<Status>)
    ensures |sts| == |idle|
    ensures forall k :: 0 <= k < |idle| ==> sts[k] == SysRun(p, t, ws + idle[..k]).ctl.status
  {
    seq(|idle|, k requires 0 <= k < |idle| => SysRun(p, t, ws + idle[..k]).ctl.status)
  }

  /**
   * The firmware's end-of-range test over the read channel, with no write in between: STATUS is sampled at the end of
   * ws and answers with bit 2 set; RESULT_STATUS is sampled i clocks later and answers with bit 0 clear. The channel
   * keeps the samples four clocks apart, one more than the result pipeline needs, so at the second sample the batch
   * has been delivered in full if and only if bit 1 of the answer is clear too.
   */
  lemma DoneReadThenEmptyRead(p: Params, s: Sys, ws: seq<Write>, idle: seq<Write>, port: Port, ins: seq<PortIn>,
                              sts: seq<Status>, i: nat, header: seq<Byte>)
    requires TwoReads(port, ins, sts, i) && |sts| == |idle|
    requires Answer(port, ins, sts, 2) / 4 % 2 == 1 && Answer(port, ins, sts, i + 2) % 2 == 0
    requires Silent(s) && AllGentle(ws) && NoWrites(idle)
    requires |header| == 80 && s.ctl.job.midstate == Midstate(header) && s.ctl.job.tail == TailWords(header)
    requires sts == Statuses(p, SysStep(p, s, START), ws, idle)
    ensures ExactlyTheShares(s.ctl.job, header, Acked(p, SysStep(p, s, START), ws + idle[..i]))
       <==> Answer(port, ins, sts, i + 2) / 2 % 2 == 0
  {
    hide SysStep, SysRun, Acked, Silent, Midstate, TailWords, ExactlyTheShares, Answer;
    TwoReadsReturn(port, ins, sts, i);
    assert ws + idle[..0] == ws;
    BatchDeliversExactlyTheShares(p, s, ws, idle[..i], header);
  }

  lemma EnginesKnown(p: Params, j: Job, n: nat, acked: seq<Result>)
    requires AllClustered(acked)
    requires OfCluster(acked, 0) == Produced(p, j, 0, n) && OfCluster(acked, 1) == Produced(p, j, 1, n)
    ensures forall k :: 0 <= k < |acked| ==> acked[k].engine < 3
  {
    hide Produced, OfCluster, ClusterOf;
    forall k | 0 <= k < |acked|
      ensures acked[k].engine < 3
    {
      var c := ClusterOf(acked[k]);
      ClusterResult(acked, c, k);
      ProducedEngines(p, j, c, n, acked[k]);
    }
  }
}
