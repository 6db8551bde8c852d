/** Whatever the result register shows during a batch is a share, also when the collectors overflow. */
module GenuineResults {
  import opened Words
  import opened Sha256Message
  import opened ShareHash
  import opened HashEngine
  import opened ResultFifo
  import opened MinerControl
  import opened MiningBatch
  import opened BatchDelivery
  import opened MinerLifecycle

  /** The result of a nonce that its lane found at or below the target. */
  predicate Genuine(j: Job, r: Result) {
    r.engine < 3 && Meets(LaneJobOf(j, r.engine), r.nonce)
  }

  ghost predicate AllGenuine(j: Job, rs: seq<Result>) {
    forall k :: 0 <= k < |rs| ==> Genuine(j, rs[k])
  }

  ghost predicate GenuineFifo(j: Job, f: FifoView) {
    AllGenuine(j, f.queue) && (f.stage2.Some? ==> Genuine(j, f.stage2.value)) && AllGenuine(j, f.stage1)
  }

  ghost predicate GenuineStatus(j: Job, st: Status) {
    st.resultValid ==> Genuine(j, st.result)
  }

  lemma GenuineFifoStep(depth: nat, base: nat, j: Job, f: FifoView, i: FifoIn)
    requires GenuineFifo(j, f) && |i.ports.valid| == |i.ports.nonce| && AllGenuine(j, Hits(base, i.ports, 0))
    ensures GenuineFifo(j, FifoStep(depth, base, f, i))
  {
    hide Genuine, Hits;
  }

  lemma GenuineStatusStep(j: Job, s: Sys, w: Write)
    requires GenuineStatus(j, s.ctl.status) && GenuineFifo(j, s.f0) && GenuineFifo(j, s.f1) && Gentle(w)
    ensures GenuineStatus(j, ControlStep(s.ctl, w, SeenBy(s)).status)
  {
    hide Genuine, LaneBusy, Completes;
  }

  lemma PulsesGenuine(p: Params, j: Job, c: nat, n: nat)
    requires c < 2
    ensures AllGenuine(j, PulseList(p, j, c, n))
  {
    hide Meets, NonceAt;
  }

  ghost predicate GenuineSys(j: Job, s: Sys, acked: seq<Result>) {
    GenuineFifo(j, s.f0) && GenuineFifo(j, s.f1) && GenuineStatus(j, s.ctl.status) && AllGenuine(j, acked)
  }

  lemma GenuineStep(p: Params, j: Job, n: nat, s: Sys, w: Write, acked: seq<Result>)
    requires BatchAt(p, j, n, s, acked) && GenuineSys(j, s, acked) && Gentle(w)
    ensures GenuineSys(j, SysStep(p, s, w), NextAcked(s.ctl.status, w, acked))
  {
    hide SysStep, LaneAt, ControlAt, ControlStep, EngineStep, FifoStep, Hits, PulseList, PortsOf, SeenBy, FlowHolds,
         FrontAt, GenuineFifo, Genuine;
    SysStepParts(p, s, w);
    PortsShowPulses(p, j, n, s, 0);
    PortsShowPulses(p, j, n, s, 1);
    PulsesGenuine(p, j, 0, n);
    PulsesGenuine(p, j, 1, n);
    GenuineFifoStep(p.depth, 0, j, s.f0, CollectorIn(s, 0));
    GenuineFifoStep(p.depth, 2, j, s.f1, CollectorIn(s, 1));
    GenuineStatusStep(j, s, w);
  }

  lemma GenuineStart(p: Params, s: Sys)
    requires Silent(s)
    ensures GenuineSys(s.ctl.job, SysStep(p, s, START), [])
  {
    hide SysStep, LaneAt, ControlAt, Genuine, FlowHolds, FrontAt, Silent, BatchEnd;
    BatchStarts(p, s, START);
    StartShowsNothing(p, s);
  }

  lemma StartShowsNothing(p: Params, s: Sys)
    requires Silent(s)
    ensures !SysStep(p, s, START).ctl.status.resultValid
  {
    hide ControlStep, EngineStep, FifoStep, ControlAt, SeenBy;
    StartControl(s, START);
  }

  lemma {:induction false} GenuineRun(p: Params, s: Sys, ws: seq<Write>)
    requires Silent(s) && AllGentle(ws)
    ensures var t := SysStep(p, s, START); GenuineSys(s.ctl.job, SysRun(p, t, ws), Acked(p, t, ws))
  {
    hide SysStep, BatchAt, Silent, GenuineSys;
    if ws == [] {
      GenuineStart(p, s);
    } else {
      var n := |ws| - 1;
      var t := SysStep(p, s, START);
      GenuineRun(p, s, ws[..n]);
      BatchRun(p, s, ws[..n]);
      GenuineStep(p, s.ctl.job, n, SysRun(p, t, ws[..n]), ws[n], Acked(p, t, ws[..n]));
    }
  }

  /**
   * In every clock of a batch started from a silent miner, under any pattern of acknowledgements and even after an
   * overflow, a result that the register shows is a share of the header whose midstate and tail were loaded.
   */
  lemma ShownResultIsShare(p: Params, s: Sys, ws: seq<Write>, header: seq<Byte>)
    requires Silent(s) && AllGentle(ws)
    requires |header| == 80 && s.ctl.job.midstate == Midstate(header) && s.ctl.job.tail == TailWords(header)
    ensures var st := SysRun(p, SysStep(p, s, START), ws).ctl.status;
            st.resultValid ==> IsShare(header, st.result.nonce, s.ctl.job.target)
  {
    hide SysStep, SysRun, Silent, IsShare, Midstate, TailWords, GenuineFifo, AllGenuine, Meets, Acked;
    GenuineRun(p, s, ws);
    var st := SysRun(p, SysStep(p, s, START), ws).ctl.status;
    if st.resultValid {
      MeetsIsShare(LaneJobOf(s.ctl.job, st.result.engine), header, st.result.nonce);
    }
  }
}
