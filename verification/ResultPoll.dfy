/** The result loop of `service_results` on the miner's registers: see a result, read its nonce, acknowledge it. */
module ResultPoll {
  import opened Words
  import opened HashEngine
  import opened ResultFifo
  import opened MinerControl
  import opened MiningBatch
  import opened MinerLifecycle
  import opened HeaderDelivery
  import opened ReadPort

  const ACK := WriteResultStatus(true, false)

  /** Clocks without a write. */
  function Pause(k: nat): seq<Write> {
    seq(k, _ => NoWrite)
  }

  /** One turn of the loop: the clocks until RESULT_STATUS is sampled, until the nonce is sampled, and until the
      acknowledgement takes effect. */
  datatype Turn = Turn(toStatus: nat, toNonce: nat, toAck: nat)

  function TurnWrites(x: Turn): seq<Write> {
    Pause(x.toStatus) + Pause(x.toNonce) + Pause(x.toAck) + [ACK]
  }

  ghost predicate TurnSees(p: Params, s: Sys, x: Turn) {
    ReadReg(SysRun(p, s, Pause(x.toStatus)).ctl.status, 0x098) % 2 == 1
  }

  ghost function TurnNonce(p: Params, s: Sys, x: Turn): Word {
    ReadReg(SysRun(p, s, Pause(x.toStatus) + Pause(x.toNonce)).ctl.status, 0x090)
  }

  /** The register keeps its result until it is acknowledged. */
  lemma RegisterKeeps(p: Params, s: Sys)
    requires s.ctl.status.resultValid
    ensures var st := SysStep(p, s, NoWrite).ctl.status; st.resultValid && st.result == s.ctl.status.result
  {
    hide EngineStep, FifoStep, NextLauncher, LaneBusy, Completes;
  }

  lemma {:induction false} RegisterKeepsOn(p: Params, s: Sys, k: nat)
    requires s.ctl.status.resultValid
    ensures var st := SysRun(p, s, Pause(k)).ctl.status; st.resultValid && st.result == s.ctl.status.result
  {
    hide SysStep;
    if k > 0 {
      RegisterKeepsOn(p, s, k - 1);
      assert Pause(k)[..k - 1] == Pause(k - 1);
      RegisterKeeps(p, SysRun(p, s, Pause(k - 1)));
    }
  }

  lemma {:induction false} RunAppend(p: Params, s: Sys, a: seq<Write>, b: seq<Write>)
    ensures SysRun(p, s, a + b) == SysRun(p, SysRun(p, s, a), b)
    ensures Acked(p, s, a + b) == Acked(p, s, a) + Acked(p, SysRun(p, s, a), b)
  {
    hide SysStep;
    if b == [] {
      assert a + b == a;
    } else {
      var n := |b| - 1;
      RunAppend(p, s, a, b[..n]);
      assert (a + b)[..|a| + n] == a + b[..n] && (a + b)[|a| + n] == b[n];
    }
  }

  lemma {:induction false} PauseAcksNothing(p: Params, s: Sys, k: nat)
    ensures Acked(p, s, Pause(k)) == []
  {
    hide SysRun;
    if k > 0 {
      PauseAcksNothing(p, s, k - 1);
      assert Pause(k)[..k - 1] == Pause(k - 1);
    }
  }

  /** The nonce that is read is that of the one result that is acknowledged. */
  lemma TurnAcknowledges(p: Params, s: Sys, x: Turn)
    requires TurnSees(p, s, x)
    ensures Nonces(Acked(p, s, TurnWrites(x))) == [TurnNonce(p, s, x)]
  {
    hide SysRun, Acked;
    var a, b, c := Pause(x.toStatus), Pause(x.toNonce), Pause(x.toAck);
    RunAppend(p, s, a, b);
    RunAppend(p, s, a + b, c);
    RunAppend(p, s, a + b + c, [ACK]);
    var seen := SysRun(p, s, a);
    RegisterKeepsOn(p, seen, x.toNonce);
    RegisterKeepsOn(p, SysRun(p, seen, b), x.toAck);
    PauseAcksNothing(p, s, x.toStatus);
    PauseAcksNothing(p, seen, x.toNonce);
    PauseAcksNothing(p, SysRun(p, seen, b), x.toAck);
    AcksOne(p, SysRun(p, s, a + b + c));
  }

  lemma AcksOne(p: Params, s: Sys)
    requires s.ctl.status.resultValid
    ensures Acked(p, s, [ACK]) == [s.ctl.status.result]
  {
    hide SysStep;
    assert [ACK][..0] == [];
    assert Acked(p, s, []) == [] && SysRun(p, s, []) == s;
  }

  // ----- the loop -----

  function PollWrites(xs: seq<Turn>): seq<Write> {
    if xs == [] then [] else PollWrites(xs[..|xs| - 1]) + TurnWrites(xs[|xs| - 1])
  }

  /** Every turn saw a result. */
  ghost predicate PollSees(p: Params, s: Sys, xs: seq<Turn>) {
    forall k :: 0 <= k < |xs| ==> TurnSees(p, SysRun(p, s, PollWrites(xs[..k])), xs[k])
  }

  ghost function PollNonces(p: Params, s: Sys, xs: seq<Turn>): (ns: seq<Word>)
    ensures |ns| == |xs|
  {
    if xs == [] then []
    else
      var n := |xs| - 1;
      PollNonces(p, s, xs[..n]) + [TurnNonce(p, SysRun(p, s, PollWrites(xs[..n])), xs[n])]
  }

  lemma {:induction false} PollNonceAt(p: Params, s: Sys, xs: seq<Turn>, k: nat)
    requires k < |xs|
    ensures PollNonces(p, s, xs)[k] == TurnNonce(p, SysRun(p, s, PollWrites(xs[..k])), xs[k])
  {
    hide SysRun, TurnNonce, PollWrites;
    var n := |xs| - 1;
    if k < n {
      PollNonceAt(p, s, xs[..n], k);
      assert xs[..n][..k] == xs[..k];
    }
  }

  /** A nonce is read while its result is shown, after so many more clocks without anything but acknowledgements. */
  lemma NonceIsShown(p: Params, s: Sys, xs: seq<Turn>, k: nat) returns (ws: seq<Write>)
    requires PollSees(p, s, xs) && k < |xs|
    ensures AllGentle(ws)
    ensures var st := SysRun(p, s, ws).ctl.status; st.resultValid && st.result.nonce == PollNonces(p, s, xs)[k]
  {
    hide SysRun, PollNonces, PollWrites, Acked;
    var a, b := Pause(xs[k].toStatus), Pause(xs[k].toNonce);
    var before := PollWrites(xs[..k]);
    ws := before + (a + b);
    PollIsGentle(xs[..k]);
    PollNonceAt(p, s, xs, k);
    SysRunAppend(p, s, before, a + b);
    SysRunAppend(p, SysRun(p, s, before), a, b);
    RegisterKeepsOn(p, SysRun(p, SysRun(p, s, before), a), xs[k].toNonce);
  }

  lemma {:induction false} PollIsGentle(xs: seq<Turn>)
    ensures AllGentle(PollWrites(xs))
  {
    if xs != [] {
      PollIsGentle(xs[..|xs| - 1]);
    }
  }

  /** The nonces that the loop reads are those of the results that it acknowledges, in order, none skipped or
      repeated. */
  lemma {:induction false} PollReadsAcknowledged(p: Params, s: Sys, xs: seq<Turn>)
    requires PollSees(p, s, xs)
    ensures PollNonces(p, s, xs) == Nonces(Acked(p, s, PollWrites(xs)))
  {
    hide SysRun, Acked, TurnSees, TurnNonce, TurnWrites, Nonces;
    if xs == [] {
      NothingPolled(p, s);
    } else {
      var n := |xs| - 1;
      forall k | 0 <= k < n
        ensures TurnSees(p, SysRun(p, s, PollWrites(xs[..n][..k])), xs[..n][k])
      {
        assert xs[..n][..k] == xs[..k];
      }
      PollReadsAcknowledged(p, s, xs[..n]);
      var t := SysRun(p, s, PollWrites(xs[..n]));
      TurnAcknowledges(p, t, xs[n]);
      RunAppend(p, s, PollWrites(xs[..n]), TurnWrites(xs[n]));
      NoncesAppend(Acked(p, s, PollWrites(xs[..n])), Acked(p, t, TurnWrites(xs[n])));
    }
  }

  lemma NothingPolled(p: Params, s: Sys)
    ensures Nonces(Acked(p, s, [])) == []
  {
  }

  /** The end-of-range test behind the loop: STATUS bit 2 is sampled, and later RESULT_STATUS bit 0. */
  ghost predicate FinishedSeen(p: Params, s: Sys, xs: seq<Turn>, done: nat, empty: nat) {
    var t := SysRun(p, s, PollWrites(xs));
    && ReadReg(SysRun(p, t, Pause(done)).ctl.status, 0x004) / 4 % 2 == 1
    && ReadReg(SysRun(p, t, Pause(done) + Pause(empty)).ctl.status, 0x098) % 2 == 0
  }
}
