/** From lane pulse to acknowledged result, over a whole batch and under any pattern of acknowledgements. */
module BatchDelivery {
  import opened Arithmetic
  import opened HashEngine
  import opened ResultFifo
  import opened MinerControl
  import opened MiningBatch

  // ----- what a batch should deliver -----

  /** The collector a lane reports to. */
  function ClusterOf(r: Result): nat {
    r.engine / 2
  }

  function PulseOf(p: Params, j: Job, i: LaneIndex, n: nat): seq<Result> {
    if Pulse(p, j, i, n) then [Result(i, PulseNonce(p, j, i, n))] else []
  }

  /** The results reported to a collector in clock n. */
  function PulseList(p: Params, j: Job, c: nat, n: nat): seq<Result> {
    if c == 0 then PulseOf(p, j, 0, n) + PulseOf(p, j, 1, n) else PulseOf(p, j, 2, n)
  }

  /** The results reported to a collector before clock n. */
  function Produced(p: Params, j: Job, c: nat, n: nat): seq<Result> {
    if n == 0 then [] else Produced(p, j, c, n - 1) + PulseList(p, j, c, n - 1)
  }

  function OfCluster(rs: seq<Result>, c: nat): seq<Result> {
    if rs == [] then []
    else OfCluster(rs[..|rs| - 1], c) + (if ClusterOf(rs[|rs| - 1]) == c then [rs[|rs| - 1]] else [])
  }

  lemma OfClusterSnoc(rs: seq<Result>, r: Result, c: nat)
    ensures OfCluster(rs + [r], c) == OfCluster(rs, c) + (if ClusterOf(r) == c then [r] else [])
  {
    assert (rs + [r])[..|rs|] == rs;
  }

  // ----- one clock of delivery -----

  ghost predicate Belongs(f: FifoView, c: nat) {
    && (forall k :: 0 <= k < |f.queue| ==> ClusterOf(f.queue[k]) == c)
    && (f.stage2.Some? ==> ClusterOf(f.stage2.value) == c)
    && (forall k :: 0 <= k < |f.stage1| ==> ClusterOf(f.stage1[k]) == c)
  }

  /** The result register, if it holds a result of this collector. */
  function InRegister(st: Status, c: nat): seq<Result> {
    if st.resultValid && ClusterOf(st.result) == c then [st.result] else []
  }

  /** The collector's results, without the one that the arbiter has copied and will pop in the next clock. */
  function Unfetched(f: FifoView, pop: OneHot, c: nat): seq<Result> {
    if pop == Only(c) && Held(f) != [] then Held(f)[1..] else Held(f)
  }

  /** Acknowledged, in the register, and on the way: together all that was reported, in order; or less than all of it
      exactly when an overflow is flagged or in flight. */
  ghost predicate FlowHolds(made: seq<Result>, c: nat, f: FifoView, st: Status, pop: OneHot, acked: seq<Result>) {
    && Belongs(f, c)
    && (f.clearing ==> f == EMPTY.(clearing := true))
    && (pop == Only(c) ==> f.queue != [] && st.resultValid && st.result == f.queue[0])
    && (if Clean(f) then OfCluster(acked, c) + InRegister(st, c) + Unfetched(f, pop, c) == made
        else |OfCluster(acked, c) + InRegister(st, c) + Unfetched(f, pop, c)| < |made|)
  }

  predicate Acks(w: Write) {
    w.WriteResultStatus? && w.ackResult
  }

  /** The acknowledged results after a clock. */
  function NextAcked(st: Status, w: Write, acked: seq<Result>): seq<Result> {
    if Acks(w) && st.resultValid then acked + [st.result] else acked
  }

  /** What one clock does to the result register: at most one fetch, and only into an empty register. */
  ghost predicate RegisterStep(st: Status, st': Status, w: Write, fetch: OneHot, f: FifoView, c: nat) {
    && (fetch != Nothing ==> !st.resultValid && st'.resultValid)
    && (fetch == Only(c) ==> f.queue != [] && st'.result == f.queue[0])
    && (fetch != Nothing && fetch != Only(c) ==> ClusterOf(st'.result) != c)
    && (fetch == Nothing ==> st'.resultValid == (st.resultValid && !Acks(w)) && st'.result == st.result)
  }

  lemma FlowStep(depth: nat, made: seq<Result>, c: nat, f: FifoView, i: FifoIn, st: Status, st': Status,
                 pop: OneHot, fetch: OneHot, w: Write, acked: seq<Result>)
    requires FlowHolds(made, c, f, st, pop, acked) && RegisterStep(st, st', w, fetch, f, c)
    requires |i.ports.valid| == |i.ports.nonce| && i.pop == (pop == Only(c))
    requires f.clearing ==> Hits(2 * c, i.ports, 0) == []
    requires i.clear ==> f == EMPTY.(clearing := f.clearing) && Hits(2 * c, i.ports, 0) == []
    requires forall k :: 0 <= k < |Hits(2 * c, i.ports, 0)| ==> ClusterOf(Hits(2 * c, i.ports, 0)[k]) == c
    ensures FlowHolds(made + Hits(2 * c, i.ports, 0), c, FifoStep(depth, 2 * c, f, i), st', fetch,
        NextAcked(st, w, acked))
  {
    hide Hits, OfCluster, FifoStep, Belongs, Held, Clean, ClusterOf;
    var g := FifoStep(depth, 2 * c, f, i);
    var hits := Hits(2 * c, i.ports, 0);
    BelongsStep(depth, c, f, i);
    ClearingStep(depth, c, f, i);
    if fetch == Only(c) {
      HeadStays(depth, c, f, i);
      FetchedBelongs(f, c);
      HeldHead(g);
    }
    HeldHead(f);
    RegisterFlow(c, g, st, st', fetch, w, acked);
    if Clean(g) {
      HeldStep(depth, c, f, i);
      assert Held(g) == Unfetched(f, pop, c) + hits;
      assert OfCluster(acked, c) + InRegister(st, c) + (Unfetched(f, pop, c) + hits)
          == OfCluster(acked, c) + InRegister(st, c) + Unfetched(f, pop, c) + hits;
    } else {
      HeldShrinks(depth, c, f, i);
    }
  }

  /** A collector that is not clean after a clock lost something in it or before. */
  lemma HeldShrinks(depth: nat, c: nat, f: FifoView, i: FifoIn)
    requires |i.ports.valid| == |i.ports.nonce| && !Clean(FifoStep(depth, 2 * c, f, i))
    requires f.clearing ==> f == EMPTY.(clearing := true) && Hits(2 * c, i.ports, 0) == []
    requires i.pop ==> f.queue != []
    ensures var all := |if i.pop then Held(f)[1..] else Held(f)| + |Hits(2 * c, i.ports, 0)|;
            if Clean(f) then |Held(FifoStep(depth, 2 * c, f, i))| < all else |Held(FifoStep(depth, 2 * c, f, i))| <= all
  {
    hide Hits, Held, FifoStep, Clean;
    HeldHead(f);
    if f.clearing {
      ClearedClean(depth, c, f, i);
    } else if Clean(f) {
      FifoConserves(depth, 2 * c, f, i);
    } else {
      UncleanStays(depth, 2 * c, f, i);
    }
  }

  lemma ClearedClean(depth: nat, c: nat, f: FifoView, i: FifoIn)
    requires |i.ports.valid| == |i.ports.nonce| && f == EMPTY.(clearing := true)
    ensures Clean(FifoStep(depth, 2 * c, f, i))
  {
  }

  /** The register and the acknowledgements pass a result on without gain or loss. */
  lemma RegisterFlow(c: nat, g: FifoView, st: Status, st': Status, fetch: OneHot, w: Write, acked: seq<Result>)
    requires fetch != Nothing ==> !st.resultValid && st'.resultValid
    requires fetch == Only(c) ==> Held(g) != [] && st'.result == Held(g)[0] && ClusterOf(st'.result) == c
    requires fetch != Nothing && fetch != Only(c) ==> ClusterOf(st'.result) != c
    requires fetch == Nothing ==> st'.resultValid == (st.resultValid && !Acks(w)) && st'.result == st.result
    ensures OfCluster(NextAcked(st, w, acked), c) + InRegister(st', c) + Unfetched(g, fetch, c)
         == OfCluster(acked, c) + InRegister(st, c) + Held(g)
  {
    hide Held, ClusterOf, OfCluster;
    OfClusterSnoc(acked, st.result, c);
    if fetch == Only(c) {
      assert Held(g) == [Held(g)[0]] + Held(g)[1..];
      assert OfCluster(acked, c) + [] + Held(g) == OfCluster(acked, c) + [Held(g)[0]] + Held(g)[1..];
    }
  }

  lemma FetchedBelongs(f: FifoView, c: nat)
    requires Belongs(f, c) && f.queue != []
    ensures ClusterOf(f.queue[0]) == c
  {
  }

  lemma ClearingStep(depth: nat, c: nat, f: FifoView, i: FifoIn)
    requires |i.ports.valid| == |i.ports.nonce|
    requires i.clear ==> f == EMPTY.(clearing := f.clearing) && Hits(2 * c, i.ports, 0) == []
    ensures var g := FifoStep(depth, 2 * c, f, i); g.clearing ==> g == EMPTY.(clearing := true)
  {
    hide Hits;
  }

  lemma BelongsStep(depth: nat, c: nat, f: FifoView, i: FifoIn)
    requires Belongs(f, c) && |i.ports.valid| == |i.ports.nonce|
    requires forall k :: 0 <= k < |Hits(2 * c, i.ports, 0)| ==> ClusterOf(Hits(2 * c, i.ports, 0)[k]) == c
    ensures Belongs(FifoStep(depth, 2 * c, f, i), c)
  {
    hide Hits, ClusterOf;
  }

  /** Without a pop the head stays where it is. */
  lemma HeadStays(depth: nat, c: nat, f: FifoView, i: FifoIn)
    requires |i.ports.valid| == |i.ports.nonce| && f.queue != [] && !i.pop && !f.clearing
    ensures var q := FifoStep(depth, 2 * c, f, i).queue; q != [] && q[0] == f.queue[0]
  {
    hide Hits;
  }

  /** A collector that is clean after a clock has lost nothing in it. */
  lemma HeldStep(depth: nat, c: nat, f: FifoView, i: FifoIn)
    requires |i.ports.valid| == |i.ports.nonce| && Clean(FifoStep(depth, 2 * c, f, i))
    requires f.clearing ==> f == EMPTY.(clearing := true) && Hits(2 * c, i.ports, 0) == []
    requires i.pop ==> f.queue != []
    ensures Clean(f)
    ensures Held(FifoStep(depth, 2 * c, f, i)) == (if i.pop then Held(f)[1..] else Held(f)) + Hits(2 * c, i.ports, 0)
  {
    hide Hits, Held, FifoStep, Clean;
    if f.clearing {
      ClearedHeld(depth, c, f, i);
      assert Held(f) + Hits(2 * c, i.ports, 0) == [];
    } else {
      if !Clean(f) {
        UncleanStays(depth, 2 * c, f, i);
      }
      FifoConserves(depth, 2 * c, f, i);
      HeldHead(f);
      var g, hits := FifoStep(depth, 2 * c, f, i), Hits(2 * c, i.ports, 0);
      if i.pop {
        assert Held(g) == ([f.queue[0]] + Held(g))[1..];
        assert (Held(f) + hits)[1..] == Held(f)[1..] + hits;
      } else {
        assert Held(g) == [] + Held(g);
      }
    }
  }

  lemma HeldHead(f: FifoView)
    ensures f.queue != [] ==> Held(f) != [] && Held(f)[0] == f.queue[0]
  {
  }

  lemma ClearedHeld(depth: nat, c: nat, f: FifoView, i: FifoIn)
    requires |i.ports.valid| == |i.ports.nonce| && f == EMPTY.(clearing := true)
    ensures Held(f) == [] && Held(FifoStep(depth, 2 * c, f, i)) == [] && Clean(f)
  {
  }

  // ----- the whole batch -----

  /** The clock in which the last lane is idle again. */
  function BatchEnd(p: Params, j: Job): nat {
    Max(LaneEnd(p, j, 0), Max(LaneEnd(p, j, 1), LaneEnd(p, j, 2)))
  }

  /** Stage 1 holds the last clock's report; simultaneous reports, the other source of overflow, do not occur. */
  ghost predicate FrontAt(p: Params, j: Job, c: nat, n: nat, f: FifoView) {
    && (n >= 1 ==> f.stage1 == PulseList(p, j, c, n - 1))
    && |f.stage1| <= 1 && !f.overflow1 && !f.overflow2
  }

  lemma FrontStep(p: Params, j: Job, c: nat, n: nat, f: FifoView, i: FifoIn)
    requires FrontAt(p, j, c, n, f) && |i.ports.valid| == |i.ports.nonce|
    requires Hits(2 * c, i.ports, 0) == PulseList(p, j, c, n) && |PulseList(p, j, c, n)| <= 1
    requires f.clearing ==> PulseList(p, j, c, n) == []
    ensures FrontAt(p, j, c, n + 1, FifoStep(p.depth, 2 * c, f, i))
    ensures var g := FifoStep(p.depth, 2 * c, f, i);
            g.overflow && !f.overflow ==> f.stage2.Some? && |f.queue| >= p.depth && !(i.pop && f.queue != [])
  {
    hide Hits, PulseList;
  }

  /** Everything about the miner n clocks after the start write of job j. */
  ghost predicate BatchAt(p: Params, j: Job, n: nat, s: Sys, acked: seq<Result>) {
    && ControlAt(j, n, s.ctl)
    && LaneAt(p, j, 0, n, s.e0) && LaneAt(p, j, 1, n, s.e1) && LaneAt(p, j, 2, n, s.e2)
    && FlowHolds(Produced(p, j, 0, n), 0, s.f0, s.ctl.status, s.ctl.pulses.pop, acked)
    && FlowHolds(Produced(p, j, 1, n), 1, s.f1, s.ctl.status, s.ctl.pulses.pop, acked)
    && FrontAt(p, j, 0, n, s.f0) && FrontAt(p, j, 1, n, s.f1)
    && (n == 0 ==> s.f0 == EMPTY.(clearing := s.f0.clearing) && s.f1 == EMPTY.(clearing := s.f1.clearing))
    && (s.f0.clearing || s.f1.clearing ==> n < 2)
    && s.ctl.status.running == (n <= BatchEnd(p, j)) && s.ctl.status.nonceDone == (n > BatchEnd(p, j))
    && (s.ctl.status.resultValid ==> ClusterOf(s.ctl.status.result) < 2) && AllClustered(acked)
    && (s.ctl.status.overflow ==> s.f0.overflow || s.f1.overflow)
    && |s.f0.queue| <= p.depth && |s.f1.queue| <= p.depth
  }

  ghost predicate AllClustered(rs: seq<Result>) {
    forall k :: 0 <= k < |rs| ==> ClusterOf(rs[k]) < 2
  }

  /** The lanes' pulses are what the collectors see, at most one in any clock. */
  lemma PortsShowPulses(p: Params, j: Job, n: nat, s: Sys, c: nat)
    requires c < 2 && LaneAt(p, j, 0, n, s.e0) && LaneAt(p, j, 1, n, s.e1) && LaneAt(p, j, 2, n, s.e2)
    ensures Hits(2 * c, PortsOf(s, c), 0) == PulseList(p, j, c, n)
    ensures |PulseList(p, j, c, n)| <= 1 && (n < 36 ==> PulseList(p, j, c, n) == [])
    ensures forall k :: 0 <= k < |PulseList(p, j, c, n)| ==> ClusterOf(PulseList(p, j, c, n)[k]) == c
  {
    hide LaneAt, Pulse, PulseNonce;
    LaneOutputs(p, j, 0, n, s.e0);
    LaneOutputs(p, j, 1, n, s.e1);
    LaneOutputs(p, j, 2, n, s.e2);
    NoEarlyPulse(p, j, n);
    if Pulse(p, j, 0, n) {
      NoCollision(p, j, 0, 1, n);
    }
    var q := PortsOf(s, c);
    assert Hits(2 * c, q, 2) == [];
    assert Hits(2 * c, q, 1) == if q.valid[1] then [Result(2 * c + 1, q.nonce[1])] else [];
  }

  lemma NoEarlyPulse(p: Params, j: Job, n: nat)
    ensures n < 36 ==> !Pulse(p, j, 0, n) && !Pulse(p, j, 1, n) && !Pulse(p, j, 2, n)
  {
    hide Meets, NonceAt;
  }

  lemma StatusStep(p: Params, j: Job, n: nat, s: Sys, w: Write)
    requires ControlAt(j, n, s.ctl) && Gentle(w)
    requires LaneAt(p, j, 0, n, s.e0) && LaneAt(p, j, 1, n, s.e1) && LaneAt(p, j, 2, n, s.e2)
    requires s.ctl.status.running == (n <= BatchEnd(p, j)) && s.ctl.status.nonceDone == (n > BatchEnd(p, j))
    ensures var st := NextStatus(s.ctl, w, SeenBy(s));
            st.running == (n + 1 <= BatchEnd(p, j)) && st.nonceDone == (n + 1 > BatchEnd(p, j))
  {
    hide LaneAt, Pulse, PulseNonce, LauncherAt, Fetch;
    LaneOutputs(p, j, 0, n, s.e0);
    LaneOutputs(p, j, 1, n, s.e1);
    LaneOutputs(p, j, 2, n, s.e2);
    LoadIdleAt(j, n, s.ctl.load);
    CompletionTime(p, j, n);
    assert Completes(s.ctl, SeenBy(s)) <==> n == BatchEnd(p, j);
  }

  lemma LoadIdleAt(j: Job, n: nat, l: Launcher)
    requires LauncherAt(j, n, l)
    ensures l.stage == LOAD_IDLE <==> n >= 41
  {
    hide DividerAt;
  }

  /** From the end of the launch some lane is busy until the batch ends, and the lanes never finish together. */
  lemma CompletionTime(p: Params, j: Job, n: nat)
    ensures BatchEnd(p, j) >= 41
    ensures n >= 41 ==>
              (n < BatchEnd(p, j) <==> exists i: LaneIndex :: WorkingAt(p, j, i, n))
    ensures !(WorksUntil(p, j, 0, n) && WorksUntil(p, j, 1, n) && WorksUntil(p, j, 2, n))
  {
    hide LaneEnd, Quota;
    LaneEndBound(p, j, 0);
    LaneEndBound(p, j, 1);
    LaneEndBound(p, j, 2);
    FirstLaneFirst(j);
    if WorksUntil(p, j, 0, n) && WorksUntil(p, j, 1, n) {
      NeverAllDone(p, j);
    }
    assert n >= 41 && n < BatchEnd(p, j) ==> WorkingAt(p, j, 0, n) || WorkingAt(p, j, 1, n) || WorkingAt(p, j, 2, n);
  }

  lemma LaneEndBound(p: Params, j: Job, i: LaneIndex)
    ensures if Quota(j.nonceCount, i) == 0 then LaneEnd(p, j, i) == 41 else LaneEnd(p, j, i) >= LaunchTime(i) + 527
  {
    if p.fourPhase {
      assert Period(p.fourPhase) * Quota(j.nonceCount, i) == 527 * Quota(j.nonceCount, i) as int;
    } else {
      assert Period(p.fourPhase) * Quota(j.nonceCount, i) == 655 * Quota(j.nonceCount, i) as int;
    }
  }

  /** If any lane has work then lane 0 has. */
  lemma FirstLaneFirst(j: Job)
    ensures Quota(j.nonceCount, 1) != 0 || Quota(j.nonceCount, 2) != 0 ==> Quota(j.nonceCount, 0) != 0
  {
  }

  predicate WorkingAt(p: Params, j: Job, i: LaneIndex, n: nat) {
    Quota(j.nonceCount, i) != 0 && LaunchTime(i) <= n < LaneEnd(p, j, i)
  }

  predicate WorksUntil(p: Params, j: Job, i: LaneIndex, n: nat) {
    Quota(j.nonceCount, i) != 0 && n == LaneEnd(p, j, i)
  }

  lemma RegisterStepHolds(s: Sys, w: Write)
    requires Gentle(w) && Belongs(s.f0, 0) && Belongs(s.f1, 1)
    ensures var st' := NextStatus(s.ctl, w, SeenBy(s));
            var fetch := Fetch(s.ctl.status, SeenBy(s));
            && RegisterStep(s.ctl.status, st', w, fetch, s.f0, 0)
            && RegisterStep(s.ctl.status, st', w, fetch, s.f1, 1)
            && (st'.resultValid && fetch != Nothing ==> ClusterOf(st'.result) < 2)
            && (fetch == Nothing && st'.resultValid ==> s.ctl.status.resultValid && st'.result == s.ctl.status.result)
  {
    hide LaneBusy, Completes;
  }

  lemma BatchStep(p: Params, j: Job, n: nat, s: Sys, w: Write, acked: seq<Result>)
    requires BatchAt(p, j, n, s, acked) && Gentle(w)
    ensures BatchAt(p, j, n + 1, SysStep(p, s, w), NextAcked(s.ctl.status, w, acked))
  {
    hide SysStep, LaneAt, LauncherAt, ControlStep, EngineStep, FifoStep, FlowHolds, RegisterStep, Hits, PulseList,
         NextStatus, PortsOf, SeenBy;
    SysStepParts(p, s, w);
    var t := SysStep(p, s, w);
    var made0, made1 := Produced(p, j, 0, n), Produced(p, j, 1, n);
    var acked' := NextAcked(s.ctl.status, w, acked);
    ControlContinues(j, n, s.ctl, w, SeenBy(s));
    assert LaneOf(t, 0) == t.e0 && LaneOf(t, 1) == t.e1 && LaneOf(t, 2) == t.e2;
    LaneContinues(p, j, 0, n, s.e0, s.ctl);
    LaneContinues(p, j, 1, n, s.e1, s.ctl);
    LaneContinues(p, j, 2, n, s.e2, s.ctl);
    PortsShowPulses(p, j, n, s, 0);
    PortsShowPulses(p, j, n, s, 1);
    StatusStep(p, j, n, s, w);
    FlowBelongs(s, made0, made1, acked);
    RegisterStepHolds(s, w);
    StepStatus(s.ctl, w, SeenBy(s));
    FlowStep(p.depth, made0, 0, s.f0, CollectorIn(s, 0), s.ctl.status, t.ctl.status, s.ctl.pulses.pop,
        t.ctl.pulses.pop, w, acked);
    FlowStep(p.depth, made1, 1, s.f1, CollectorIn(s, 1), s.ctl.status, t.ctl.status, s.ctl.pulses.pop,
        t.ctl.pulses.pop, w, acked);
    FrontStep(p, j, 0, n, s.f0, CollectorIn(s, 0));
    FrontStep(p, j, 1, n, s.f1, CollectorIn(s, 1));
    ClearingFollows(p, s, 0);
    ClearingFollows(p, s, 1);
    OverflowStays(s, w);
    QueueBounded(p.depth, 0, s.f0, CollectorIn(s, 0));
    QueueBounded(p.depth, 1, s.f1, CollectorIn(s, 1));
    FlowClearing(s, made0, made1, acked);
  }

  /** The status flag repeats what a collector has flagged. */
  lemma OverflowStays(s: Sys, w: Write)
    requires Gentle(w) && (s.ctl.status.overflow ==> s.f0.overflow || s.f1.overflow)
    ensures NextStatus(s.ctl, w, SeenBy(s)).overflow ==> s.f0.overflow || s.f1.overflow
  {
    hide LaneBusy, Completes, Fetch;
  }

  /** The flag of a collector stays up, and its queue never outgrows the ring. */
  lemma QueueBounded(depth: nat, c: nat, f: FifoView, i: FifoIn)
    requires |i.ports.valid| == |i.ports.nonce| && |f.queue| <= depth
    ensures var g := FifoStep(depth, 2 * c, f, i); |g.queue| <= depth && (f.overflow && !f.clearing ==> g.overflow)
  {
    hide Hits;
  }

  lemma FlowClearing(s: Sys, made0: seq<Result>, made1: seq<Result>, acked: seq<Result>)
    requires FlowHolds(made0, 0, s.f0, s.ctl.status, s.ctl.pulses.pop, acked)
    requires FlowHolds(made1, 1, s.f1, s.ctl.status, s.ctl.pulses.pop, acked)
    ensures (s.f0.overflow ==> !s.f0.clearing) && (s.f1.overflow ==> !s.f1.clearing)
  {
  }

  /** In a batch overflow is raised only when a result meets a full collector that is not being popped. */
  lemma OverflowMeansFull(p: Params, j: Job, n: nat, s: Sys, w: Write, acked: seq<Result>)
    requires BatchAt(p, j, n, s, acked)
    ensures !s.f0.overflow ==> Clean(s.f0)
    ensures !s.f1.overflow ==> Clean(s.f1)
    ensures var t := SysStep(p, s, w);
            && (t.f0.overflow && !s.f0.overflow ==> |s.f0.queue| >= p.depth && s.ctl.pulses.pop != Only(0))
            && (t.f1.overflow && !s.f1.overflow ==> |s.f1.queue| >= p.depth && s.ctl.pulses.pop != Only(1))
  {
    hide SysStep, LaneAt, LauncherAt, ControlStep, EngineStep, FifoStep, Hits, PulseList, PortsOf, SeenBy, Held;
    SysStepParts(p, s, w);
    PortsShowPulses(p, j, n, s, 0);
    PortsShowPulses(p, j, n, s, 1);
    FrontStep(p, j, 0, n, s.f0, CollectorIn(s, 0));
    FrontStep(p, j, 1, n, s.f1, CollectorIn(s, 1));
  }

  lemma FlowBelongs(s: Sys, made0: seq<Result>, made1: seq<Result>, acked: seq<Result>)
    requires FlowHolds(made0, 0, s.f0, s.ctl.status, s.ctl.pulses.pop, acked)
    requires FlowHolds(made1, 1, s.f1, s.ctl.status, s.ctl.pulses.pop, acked)
    ensures Belongs(s.f0, 0) && Belongs(s.f1, 1)
  {
  }

  lemma StepStatus(c: Control, w: Write, seen: Seen)
    ensures ControlStep(c, w, seen).status == NextStatus(c, w, seen)
    ensures ControlStep(c, w, seen).pulses.pop == Fetch(c.status, seen)
  {
  }

  lemma ClearingFollows(p: Params, s: Sys, c: nat)
    requires c < 2
    ensures FifoStep(p.depth, 2 * c, if c == 0 then s.f0 else s.f1, CollectorIn(s, c)).clearing
        == CollectorIn(s, c).clear
  {
    hide Hits;
  }
}
