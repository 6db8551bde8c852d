/** The AXI-Lite read channel of rtl/bitcoin_miner_axi.sv: accept, sample the addressed register, answer. */
module ReadPort {
  import opened Words
  import opened MinerControl

  datatype Port = Port(sampling: bool, addr: Word, answering: bool, data: Word, rvalid: bool, rdata: Word)

  datatype PortIn = PortIn(arvalid: bool, araddr: Word, rready: bool)

  /** The status bits of `read_reg` that the firmware polls. */
  function ReadReg(st: Status, addr: Word): Word {
    if addr == 0x004 then
      (if st.overflow then 8 else 0) + (if st.nonceDone then 4 else 0) + (if st.resultValid then 2 else 0)
          + (if st.running then 1 else 0)
    else if addr == 0x098 then (if st.overflow then 2 else 0) + (if st.resultValid then 1 else 0)
    else if addr == 0x090 then st.result.nonce
    else 0
  }

  /** One clock edge: a register is sampled in the clock in which `sampling` is high. */
  function PortStep(r: Port, i: PortIn, st: Status): Port {
    var fire := i.arvalid && !r.sampling && !r.answering && !r.rvalid;
    var reply := r.answering && !r.rvalid;
    Port(fire,
         if fire then i.araddr - i.araddr % 4 else r.addr,
         if reply then false else r.sampling || r.answering,
         if r.sampling then ReadReg(st, r.addr) else r.data,
         reply || (r.rvalid && !i.rready),
         if reply then r.data else r.rdata)
  }

  /** One read at a time, kept by every clock. */
  predicate OneAtATime(r: Port) {
    !(r.sampling && r.answering) && !(r.sampling && r.rvalid) && !(r.answering && r.rvalid)
  }

  lemma OneAtATimeKept(r: Port, i: PortIn, st: Status)
    requires OneAtATime(r)
    ensures OneAtATime(PortStep(r, i, st))
  {
  }

  function PortRun(r: Port, ins: seq<PortIn>, sts: seq<Status>): Port
    requires |ins| == |sts|
  {
    if ins == [] then r
    else
      var n := |ins| - 1;
      PortStep(PortRun(r, ins[..n], sts[..n]), ins[n], sts[n])
  }

  /** Two samples are at least four clocks apart, whatever the master does. */
  lemma SamplesFourApart(r: Port, ins: seq<PortIn>, sts: seq<Status>)
    requires |ins| == |sts| && OneAtATime(r) && r.sampling && ins != [] && PortRun(r, ins, sts).sampling
    ensures |ins| >= 4
  {
    hide ReadReg;
    if |ins| == 2 {
      RunOne(r, ins, sts);
    } else if |ins| == 3 {
      RunOne(r, ins[..2], sts[..2]);
    }
  }

  lemma RunOne(r: Port, ins: seq<PortIn>, sts: seq<Status>)
    requires |ins| == |sts| == 2
    ensures PortRun(r, ins[..1], sts[..1]) == PortStep(r, ins[0], sts[0])
    ensures PortRun(r, ins, sts) == PortStep(PortStep(r, ins[0], sts[0]), ins[1], sts[1])
  {
    assert ins[..1][..0] == [] && sts[..1][..0] == [];
    assert PortRun(r, ins[..1], sts[..1]) == PortStep(PortRun(r, [], []), ins[0], sts[0]);
  }

  /** A sample reaches `rdata` two clocks later and is held until the master takes it. */
  lemma SampleIsAnswered(r: Port, i1: PortIn, st1: Status, i2: PortIn, st2: Status)
    requires OneAtATime(r) && r.sampling
    ensures var a := PortStep(PortStep(r, i1, st1), i2, st2); a.rvalid && a.rdata == ReadReg(st1, r.addr)
  {
  }

  lemma {:induction false} OneAtATimeRun(r: Port, ins: seq<PortIn>, sts: seq<Status>)
    requires |ins| == |sts| && OneAtATime(r)
    ensures OneAtATime(PortRun(r, ins, sts))
  {
    hide PortStep, OneAtATime;
    if ins != [] {
      var n := |ins| - 1;
      OneAtATimeRun(r, ins[..n], sts[..n]);
      OneAtATimeKept(PortRun(r, ins[..n], sts[..n]), ins[n], sts[n]);
    }
  }

  /** What a read sampled after i clocks returns two clocks later: the register as it was in that clock. */
  lemma ReadReturns(r: Port, ins: seq<PortIn>, sts: seq<Status>, i: nat)
    requires |ins| == |sts| && OneAtATime(r) && i + 2 <= |ins| && PortRun(r, ins[..i], sts[..i]).sampling
    ensures var a := PortRun(r, ins[..i + 2], sts[..i + 2]);
            a.rvalid && a.rdata == ReadReg(sts[i], PortRun(r, ins[..i], sts[..i]).addr)
  {
    hide PortStep, OneAtATime, ReadReg;
    var at := PortRun(r, ins[..i], sts[..i]);
    OneAtATimeRun(r, ins[..i], sts[..i]);
    assert ins[..i + 1][..i] == ins[..i] && sts[..i + 1][..i] == sts[..i];
    assert ins[..i + 2][..i + 1] == ins[..i + 1] && sts[..i + 2][..i + 1] == sts[..i + 1];
    SampleIsAnswered(at, ins[i], sts[i], ins[i + 1], sts[i + 1]);
  }

  /** Two reads on the channel: STATUS sampled now and RESULT_STATUS sampled after i clocks, both answered. */
  ghost predicate TwoReads(r: Port, ins: seq<PortIn>, sts: seq<Status>, i: nat) {
    && |ins| == |sts| && 0 < i && i + 2 <= |ins| && OneAtATime(r)
    && r.sampling && r.addr == 0x004
    && var second := PortRun(r, ins[..i], sts[..i]); second.sampling && second.addr == 0x098
  }

  /** What the channel shows as read data after k clocks. */
  ghost function Answer(r: Port, ins: seq<PortIn>, sts: seq<Status>, k: nat): Word
    requires |ins| == |sts| && k <= |ins|
  {
    PortRun(r, ins[..k], sts[..k]).rdata
  }

  lemma TwoReadsReturn(r: Port, ins: seq<PortIn>, sts: seq<Status>, i: nat)
    requires TwoReads(r, ins, sts, i)
    ensures i >= 4
    ensures Answer(r, ins, sts, 2) == ReadReg(sts[0], 0x004) && Answer(r, ins, sts, i + 2) == ReadReg(sts[i], 0x098)
  {
    hide PortStep, OneAtATime, ReadReg;
    assert PortRun(r, ins[..0], sts[..0]) == r;
    ReadReturns(r, ins, sts, 0);
    ReadReturns(r, ins, sts, i);
    SamplesFourApart(r, ins[..i], sts[..i]);
  }
}
