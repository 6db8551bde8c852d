/** Reading out results while no lane reports: what is left to read, turn by turn. */
module BatchReadout {
  import opened HashEngine
  import opened ResultFifo
  import opened MinerControl
  import opened MiningBatch
  import opened BatchDelivery
  import opened MinerLifecycle
  import opened ResultPoll

  predicate Popping(s: Sys) {
    s.ctl.pulses.pop == Only(0) || s.ctl.pulses.pop == Only(1)
  }

  /** The results still to be read: in the rings, and in the register unless its copy is yet to be popped. */
  function Unread(s: Sys): nat {
    |s.f0.queue| + |s.f1.queue| + if s.ctl.status.resultValid && !Popping(s) then 1 else 0
  }

  /** A batch whose reports so far have reached the rings. */
  ghost predicate ReadingOut(p: Params, j: Job, n: nat, s: Sys, acked: seq<Result>) {
    BatchAt(p, j, n, s, acked) && n >= 2 && Settled(2, s.f0) && Settled(2, s.f1)
  }

  /** No lane reports in clock n. */
  ghost predicate QuietAt(p: Params, j: Job, n: nat) {
    PulseList(p, j, 0, n) == [] && PulseList(p, j, 1, n) == []
  }

  /** No lane reports from clock a until clock b. */
  ghost predicate Quiet(p: Params, j: Job, a: nat, b: nat) {
    forall n :: a <= n < b ==> QuietAt(p, j, n)
  }

  lemma LateQuiet(p: Params, j: Job, a: nat, b: nat)
    requires a > BatchEnd(p, j)
    ensures Quiet(p, j, a, b)
  {
    hide PulseList, BatchEnd;
    forall n | a <= n < b
      ensures QuietAt(p, j, n)
    {
      NoLatePulse(p, j, 0, n);
      NoLatePulse(p, j, 1, n);
    }
  }

  lemma FifoRead(depth: nat, c: nat, f: FifoView, i: FifoIn)
    requires Settled(2, f) && |i.ports.valid| == |i.ports.nonce| && Hits(2 * c, i.ports, 0) == [] && !i.clear
    ensures var g := FifoStep(depth, 2 * c, f, i);
            Settled(2, g) && g.queue == if i.pop && f.queue != [] then f.queue[1..] else f.queue
  {
    hide Hits;
  }

  /** An acknowledgement empties the register; without one it stays full, or is filled from the rings. */
  lemma ControlRead(s: Sys, w: Write)
    requires w == NoWrite || (w == ACK && s.ctl.status.resultValid)
    ensures var c := ControlStep(s.ctl, w, SeenBy(s));
            if s.ctl.status.resultValid then c.status.resultValid == (w == NoWrite) && c.pulses.pop == Nothing
            else if s.f0.queue == [] && s.f1.queue == [] then !c.status.resultValid && c.pulses.pop == Nothing
            else c.status.resultValid && (c.pulses.pop == Only(0) || c.pulses.pop == Only(1))
  {
    hide LaneBusy, Completes;
  }

  lemma PopsOfBatch(p: Params, j: Job, n: nat, s: Sys, acked: seq<Result>)
    requires BatchAt(p, j, n, s, acked) && n >= 1
    ensures var pop := s.ctl.pulses.pop;
            && (pop == Only(0) ==> s.f0.queue != [] && s.ctl.status.resultValid)
            && (pop == Only(1) ==> s.f1.queue != [] && s.ctl.status.resultValid)
            && !CollectorIn(s, 0).clear && !CollectorIn(s, 1).clear
            && |s.f0.queue| <= p.depth && |s.f1.queue| <= p.depth
  {
    hide LaneAt, LauncherAt, FrontAt, Produced, OfCluster, PortsOf;
  }

  lemma LanesOfBatch(p: Params, j: Job, n: nat, s: Sys, acked: seq<Result>)
    requires BatchAt(p, j, n, s, acked)
    ensures Hits(0, PortsOf(s, 0), 0) == PulseList(p, j, 0, n) && Hits(2, PortsOf(s, 1), 0) == PulseList(p, j, 1, n)
  {
    hide LaneAt, LauncherAt, FrontAt, FlowHolds, Hits, PulseList, PortsOf;
    PortsShowPulses(p, j, n, s, 0);
    PortsShowPulses(p, j, n, s, 1);
  }

  /** One clock of reading out. */
  lemma ReadStep(p: Params, j: Job, n: nat, s: Sys, w: Write, acked: seq<Result>)
    requires ReadingOut(p, j, n, s, acked) && QuietAt(p, j, n)
    requires w == NoWrite || (w == ACK && s.ctl.status.resultValid)
    ensures var t, acked' := SysStep(p, s, w), NextAcked(s.ctl.status, w, acked);
            var one := if w == ACK then 1 else 0;
            && ReadingOut(p, j, n + 1, t, acked') && Unread(t) == Unread(s) - one && |acked'| == |acked| + one
            && (w == NoWrite ==> (t.ctl.status.resultValid <==> Unread(s) > 0))
    ensures s.ctl.status.resultValid ==> Unread(s) > 0
  {
    hide SysStep, ControlStep, EngineStep, FifoStep, Hits, PulseList, PortsOf, SeenBy, BatchAt, LaneEnd, Settled;
    SysStepParts(p, s, w);
    BatchStep(p, j, n, s, w, acked);
    ControlRead(s, w);
    PopsOfBatch(p, j, n, s, acked);
    LanesOfBatch(p, j, n, s, acked);
    FifoRead(p.depth, 0, s.f0, CollectorIn(s, 0));
    FifoRead(p.depth, 1, s.f1, CollectorIn(s, 1));
  }

  // ----- along a run -----

  ghost predicate ReadAt(p: Params, j: Job, t: Sys, ws: seq<Write>) {
    AllGentle(ws) && ReadingOut(p, j, |ws|, SysRun(p, t, ws), Acked(p, t, ws))
  }

  lemma ReadOne(p: Params, j: Job, t: Sys, ws: seq<Write>, w: Write)
    requires ReadAt(p, j, t, ws) && QuietAt(p, j, |ws|)
    requires w == NoWrite || (w == ACK && SysRun(p, t, ws).ctl.status.resultValid)
    ensures var s, s' := SysRun(p, t, ws), SysRun(p, t, ws + [w]);
            var one := if w == ACK then 1 else 0;
            && ReadAt(p, j, t, ws + [w]) && Unread(s') == Unread(s) - one
            && |Acked(p, t, ws + [w])| == |Acked(p, t, ws)| + one
            && (w == NoWrite ==> (s'.ctl.status.resultValid <==> Unread(s) > 0))
    ensures SysRun(p, t, ws).ctl.status.resultValid ==> Unread(SysRun(p, t, ws)) > 0
  {
    hide SysStep, ReadingOut, Unread;
    assert (ws + [w])[..|ws|] == ws;
    ReadStep(p, j, |ws|, SysRun(p, t, ws), w, Acked(p, t, ws));
  }

  /** While nothing is written nothing is lost, and a result is shown if there is one. */
  lemma {:induction false} Waits(p: Params, j: Job, t: Sys, ws: seq<Write>, k: nat)
    requires ReadAt(p, j, t, ws) && Quiet(p, j, |ws|, |ws| + k)
    ensures var s, s' := SysRun(p, t, ws), SysRun(p, t, ws + Pause(k));
            && ReadAt(p, j, t, ws + Pause(k)) && Unread(s') == Unread(s)
            && |Acked(p, t, ws + Pause(k))| == |Acked(p, t, ws)|
            && (k > 0 ==> (s'.ctl.status.resultValid <==> Unread(s) > 0))
  {
    hide SysRun, Acked, ReadAt, Unread, QuietAt;
    if k == 0 {
      assert ws + Pause(0) == ws;
    } else {
      Waits(p, j, t, ws, k - 1);
      assert QuietAt(p, j, |ws + Pause(k - 1)|);
      ReadOne(p, j, t, ws + Pause(k - 1), NoWrite);
      assert ws + Pause(k) == ws + Pause(k - 1) + [NoWrite];
    }
  }

  lemma PauseJoin(a: nat, b: nat)
    ensures Pause(a) + Pause(b) == Pause(a + b)
  {
  }

  /** The run up to now: some start of it, then turns of the loop, then a wait. */
  function Polled(ws: seq<Write>, turns: seq<Turn>, wait: nat): seq<Write> {
    ws + PollWrites(turns) + Pause(wait)
  }

  /** One more turn, which begins during the wait and takes three times the pace. */
  function NextTurn(wait: nat, pace: nat): Turn {
    Turn(wait + pace, pace, pace)
  }

  function TurnTime(pace: nat): nat {
    3 * pace + 1
  }

  function TurnsTime(u: nat, pace: nat): nat {
    if u == 0 then 0 else TurnTime(pace) + TurnsTime(u - 1, pace)
  }

  lemma PollSnoc(ws: seq<Write>, turns: seq<Turn>, x: Turn)
    ensures PollWrites(turns + [x]) == PollWrites(turns) + TurnWrites(x)
  {
    assert (turns + [x])[..|turns|] == turns;
  }

  lemma TurnSplits(ws: seq<Write>, turns: seq<Turn>, wait: nat, pace: nat)
    ensures var x := NextTurn(wait, pace);
            && Polled(ws, turns + [x], 0) == Polled(ws, turns, wait) + Pause(3 * pace) + [ACK]
            && Polled(ws, turns, wait) + Pause(pace) == ws + PollWrites(turns) + Pause(x.toStatus)
  {
    hide PollWrites;
    var x := NextTurn(wait, pace);
    PollSnoc(ws, turns, x);
    assert TurnWrites(x) == Pause(wait) + Pause(3 * pace) + [ACK];
    assert Pause(x.toStatus) == Pause(wait) + Pause(pace);
    assert Polled(ws, turns + [x], 0) == ws + (PollWrites(turns) + TurnWrites(x)) + [];
  }

  lemma SeesSnoc(p: Params, s: Sys, turns: seq<Turn>, x: Turn)
    requires PollSees(p, s, turns) && TurnSees(p, SysRun(p, s, PollWrites(turns)), x)
    ensures PollSees(p, s, turns + [x])
  {
    hide TurnSees, SysRun, PollWrites;
    forall k | 0 <= k < |turns| + 1
      ensures TurnSees(p, SysRun(p, s, PollWrites((turns + [x])[..k])), (turns + [x])[k])
    {
      assert (turns + [x])[..k] == turns[..k];
      assert turns[..|turns|] == turns;
    }
  }

  /** A turn sees a result if there is one, and leaves one less. */
  lemma OneTurn(p: Params, j: Job, t: Sys, ws: seq<Write>, turns: seq<Turn>, wait: nat, pace: nat)
    requires ReadAt(p, j, t, Polled(ws, turns, wait)) && PollSees(p, SysRun(p, t, ws), turns) && pace > 0
    requires Unread(SysRun(p, t, Polled(ws, turns, wait))) > 0
    requires var n := |Polled(ws, turns, wait)|; Quiet(p, j, n, n + TurnTime(pace))
    ensures var before, turns' := Polled(ws, turns, wait), turns + [NextTurn(wait, pace)];
            var after := Polled(ws, turns', 0);
            && ReadAt(p, j, t, after) && |after| == |before| + TurnTime(pace)
            && PollSees(p, SysRun(p, t, ws), turns')
            && Unread(SysRun(p, t, after)) == Unread(SysRun(p, t, before)) - 1
            && |Acked(p, t, after)| == |Acked(p, t, before)| + 1
  {
    hide SysRun, Acked, ReadAt, Unread, QuietAt, PollSees, PollWrites;
    var before, x := Polled(ws, turns, wait), NextTurn(wait, pace);
    TurnSplits(ws, turns, wait, pace);
    Waits(p, j, t, before, pace);
    SeesShown(p, t, ws, turns, x);
    SeesSnoc(p, SysRun(p, t, ws), turns, x);
    Waits(p, j, t, before, 3 * pace);
    ReadOne(p, j, t, before + Pause(3 * pace), ACK);
  }

  lemma SeesShown(p: Params, t: Sys, ws: seq<Write>, turns: seq<Turn>, x: Turn)
    requires SysRun(p, t, ws + PollWrites(turns) + Pause(x.toStatus)).ctl.status.resultValid
    ensures TurnSees(p, SysRun(p, SysRun(p, t, ws), PollWrites(turns)), x)
  {
    hide SysRun, PollWrites, Acked;
    RunAppend(p, t, ws, PollWrites(turns));
    RunAppend(p, t, ws + PollWrites(turns), Pause(x.toStatus));
  }

  /** Turns of the loop have brought the run to a point where u results are left and a have been acknowledged. */
  ghost predicate PollAt(p: Params, j: Job, t: Sys, ws: seq<Write>, turns: seq<Turn>, wait: nat, u: nat, a: nat) {
    && ReadAt(p, j, t, Polled(ws, turns, wait)) && PollSees(p, SysRun(p, t, ws), turns)
    && Unread(SysRun(p, t, Polled(ws, turns, wait))) == u && |Acked(p, t, Polled(ws, turns, wait))| == a
  }

  /** Turn after turn until nothing is left: as many turns as there were results. */
  lemma {:induction false} AllTurns(p: Params, j: Job, t: Sys, ws: seq<Write>, turns: seq<Turn>, wait: nat, pace: nat,
                                    u: nat, a: nat) returns (turns': seq<Turn>, wait': nat)
    requires pace > 0 && PollAt(p, j, t, ws, turns, wait, u, a)
    requires var n := |Polled(ws, turns, wait)|; Quiet(p, j, n, n + TurnsTime(u, pace))
    ensures PollAt(p, j, t, ws, turns', wait', 0, a + u) && |turns'| == |turns| + u
    ensures |Polled(ws, turns', wait')| == |Polled(ws, turns, wait)| + TurnsTime(u, pace)
    ensures u == 0 ==> turns' == turns && wait' == wait
    decreases u
  {
    hide SysRun, Acked, ReadAt, Unread, QuietAt, PollSees, Polled, TurnTime;
    if u == 0 {
      turns', wait' := turns, wait;
    } else {
      OneTurn(p, j, t, ws, turns, wait, pace);
      turns', wait' := AllTurns(p, j, t, ws, turns + [NextTurn(wait, pace)], 0, pace, u - 1, a + 1);
    }
  }

  // ----- how much is left -----

  /** The results of one collector that are reported and not acknowledged, as far as they are still there. */
  function Left(s: Sys, c: nat): nat {
    |InRegister(s.ctl.status, c)| + |Unfetched(if c == 0 then s.f0 else s.f1, s.ctl.pulses.pop, c)|
  }

  lemma UnreadIsLeft(p: Params, j: Job, n: nat, s: Sys, acked: seq<Result>)
    requires ReadingOut(p, j, n, s, acked)
    ensures Unread(s) == Left(s, 0) + Left(s, 1)
  {
    hide LaneAt, LauncherAt, FrontAt, Produced, OfCluster;
  }

  /** What is acknowledged or left of a collector is all that was reported to it, or less if it is not clean. */
  lemma LeftBounds(p: Params, j: Job, n: nat, s: Sys, acked: seq<Result>)
    requires BatchAt(p, j, n, s, acked)
    ensures |acked| == |OfCluster(acked, 0)| + |OfCluster(acked, 1)|
    ensures var a, m := |OfCluster(acked, 0)| + Left(s, 0), |Produced(p, j, 0, n)|;
            if Clean(s.f0) then a == m else a < m
    ensures var a, m := |OfCluster(acked, 1)| + Left(s, 1), |Produced(p, j, 1, n)|;
            if Clean(s.f1) then a == m else a < m
    ensures |s.f0.queue| <= Left(s, 0) + 1 && |s.f1.queue| <= Left(s, 1) + 1
    ensures s.ctl.status.overflow ==> !Clean(s.f0) || !Clean(s.f1)
  {
    hide LaneAt, LauncherAt, FrontAt, Produced, OfCluster;
    ClustersCount(acked);
  }
}
