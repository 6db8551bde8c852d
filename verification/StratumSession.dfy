/** The Stratum session of software/application/stratum.c. Received lines are already parsed into message values. */
module StratumSession {
  import opened Options
  import opened Words
  import opened Positional
  import opened Sha256Spec
  import opened Sha256Message
  import opened ShareHash
  import opened Hexadecimal
  import opened BlockHeader
  import opened StratumLedger
  import opened MinerControl
  import MiningBatch
  import MinerLifecycle
  import GenuineResults
  import opened HeaderRanges
  import HeaderDelivery
  import ReadPort
  import ResultPoll
  import RegisterLoad
  import Sha256Software
  import DecimalNumeral
  import DifficultyTarget

  /** The fields of a `mining.notify`. The time stays text until a header is built. */
  datatype JobData = JobData(id: seq<Byte>, time: seq<Byte>, version: seq<Byte>, prev: seq<Byte>, bits: seq<Byte>,
                             coin1: seq<Byte>, coin2: seq<Byte>, branches: seq<seq<Byte>>)

  /** What `notification` checks of a job. */
  predicate JobOk(j: JobData) {
    && j.id != [] && |j.time| == 8 && |j.version| == 4 && |j.prev| == 32 && |j.bits| == 4 && |j.branches| <= 32
    && forall i :: 0 <= i < |j.branches| ==> |j.branches[i]| == 32
  }

  /** The checks themselves: the lengths of the fields, and then the branches one by one. */
  method CheckJob(j: JobData) returns (ok: bool)
    ensures ok <==> JobOk(j)
  {
    if |j.id| == 0 || |j.prev| != 32 || |j.version| != 4 || |j.bits| != 4 || |j.time| != 8 {
      return false;
    }
    for i := 0 to |j.branches|
      invariant i <= 32 && forall k :: 0 <= k < i ==> |j.branches[k]| == 32
    {
      if i == 32 || |j.branches[i]| != 32 {
        return false;
      }
    }
    ok := true;
  }

  /** A job from which a header can be built. */
  predicate Buildable(j: JobData) {
    JobOk(j) && Decode(j.time).Some?
  }

  function FieldsOf(j: JobData): (f: HeaderFields)
    requires Buildable(j)
    ensures FieldsOk(f)
  {
    HeaderFields(j.version, j.prev, j.bits, Decode(j.time).value, j.coin1, j.coin2, j.branches)
  }

  /** The header that the pool builds for a job and an extranonce pair, nonce bytes zero. */
  function JobHeader(j: JobData, extra1: seq<Byte>, extra2: seq<Byte>): (h: seq<Byte>)
    requires Buildable(j)
    ensures |h| == 80
  {
    Header(FieldsOf(j), extra1, extra2)
  }

  /** Where the fields of a job are in its header. */
  lemma JobHeaderLayout(j: JobData, extra1: seq<Byte>, extra2: seq<Byte>) returns (path: seq<seq<Byte>>)
    requires Buildable(j)
    ensures LaidOut(JobHeader(j, extra1, extra2), j.version, j.prev, Decode(j.time).value, j.bits)
    ensures MerklePath(path, j.coin1 + extra1 + extra2 + j.coin2, j.branches)
    ensures RootIs(JobHeader(j, extra1, extra2), path)
  {
    hide Header, MerklePath, Decode, LaidOut;
    HeaderLayout(FieldsOf(j), extra1, extra2);
    path := RootInHeader(FieldsOf(j), extra1, extra2);
  }

  /** A received line, parsed. Fields that are missing or malformed are None. */
  datatype Message =
    | Unreadable
    | SetDifficulty(difficulty: Option<string>)
    | SetExtranonce(extra1: Option<seq<Byte>>, size: Option<Word>)
    | Notify(job: Option<JobData>)
    | Unrelated
    | SubscribeReply(extra1: Option<seq<Byte>>, size: Option<Word>)
    | AuthorizeReply(granted: bool)
    | OtherReply(id: Word, accepted: bool)

  /** One turn of the session loop: a line with the fate of its answer, a poll of the result registers, or an
      expired timeout. */
  datatype Event =
    | Received(message: Message, sendOk: bool)
    | Poll(overflow: bool, results: seq<Word>, sends: seq<bool>, finished: bool)
    | Expired

  predicate EventOk(e: Event) {
    e.Poll? ==> |e.results| == |e.sends| <= 16
  }

  /** An extranonce2 size that the firmware accepts. */
  predicate SizeOk(size: Option<Word>) {
    size.Some? && 1 <= size.value <= 16
  }

  /** Where a submitted share came from. */
  datatype Origin = Origin(job: JobData, target: Target, extra1: seq<Byte>)

  /** A share as the pool will check it: rebuild the header from the named job, extranonce2 and time, put in the nonce,
      which is submitted byte-swapped, and hash. */
  ghost predicate GoodShare(s: Submission, o: Origin) {
    && Buildable(o.job) && s.jobId == o.job.id && s.time == o.job.time && Decode(s.extra2Hex).Some?
    && IsShare(JobHeader(o.job, o.extra1, Decode(s.extra2Hex).value), Swap(s.nonce), o.target)
  }

  ghost predicate AllGood(sent: seq<Submission>, origins: seq<Origin>) {
    |sent| == |origins| && forall k :: 0 <= k < |sent| ==> GoodShare(sent[k], origins[k])
  }

  /** The firmware header and the mining registers are those of the current job and extranonce. */
  ghost predicate Loaded(o: Origin, current: seq<Byte>, header: seq<Byte>, extra2Hex: seq<Byte>, regs: Job) {
    && Buildable(o.job) && |header| == 80
    && var h := JobHeader(o.job, o.extra1, current);
       && header[..76] == h[..76] && extra2Hex == HexText(current)
       && regs.midstate == Midstate(h) && regs.tail == TailWords(h) && regs.target == o.target
  }

  lemma SwapTwice(w: Word)
    ensures Swap(Swap(w)) == w
  {
    hide BytesOf;
    SwapReverses(w);
    SwapReverses(Swap(w));
    assert BytesOf(Swap(Swap(w))) == BytesOf(w);
    WordBytes(w);
    WordBytes(Swap(Swap(w)));
  }

  /** A result that passed the recheck against the current header makes a good share. */
  lemma CheckedShareIsGood(o: Origin, current: seq<Byte>, header: seq<Byte>, extra2Hex: seq<Byte>, regs: Job,
                           id: nat, nonce: Word)
    requires Loaded(o, current, header, extra2Hex, regs) && IsShare(header, nonce, o.target)
    ensures GoodShare(Submission(id, o.job.id, extra2Hex, o.job.time, Swap(nonce)), o)
  {
    hide Sha256d, LeValue, Value, HexText, Decode, Midstate, TailWords, Header, Swap, BytesOf;
    DecodeHexText(current);
    SwapTwice(nonce);
  }

  lemma LedgerSize(l: Ledger)
    requires LedgerOk(l)
    ensures |l.pending| == 8
  {
  }

  /** Writing nonce bytes into the header leaves everything that was loaded in place. */
  lemma NonceBytesFree(o: Origin, current: seq<Byte>, header: HeaderBytes, extra2Hex: seq<Byte>, regs: Job, nonce: Word)
    requires Loaded(o, current, header, extra2Hex, regs)
    ensures Loaded(o, current, WithNonce(header, nonce), extra2Hex, regs)
        && WithNonce(header, nonce)[..76] == header[..76]
  {
    hide HexText, JobHeader, Midstate, TailWords, Buildable;
    assert WithNonce(header, nonce)[..76] == header[..76];
  }

  lemma ShareIgnoresNonceBytes(h: HeaderBytes, g: HeaderBytes, nonce: Word, t: Target)
    requires h[..76] == g[..76]
    ensures IsShare(h, nonce, t) <==> IsShare(g, nonce, t)
  {
    hide Sha256d, LeValue, Value, BytesOf;
    assert WithNonce(h, nonce) == WithNonce(g, nonce);
  }

  /** The recheck never rejects a result of the miner: whatever the result register shows while a range runs on the
      loaded registers, begun with a silent miner, passes against the firmware's own header and target. */
  lemma RecheckPasses(o: Origin, current: seq<Byte>, header: HeaderBytes, extra2Hex: seq<Byte>, regs: Job,
                      p: MiningBatch.Params, s: MiningBatch.Sys, ws: seq<Write>)
    requires MinerLifecycle.Silent(s) && MinerLifecycle.AllGentle(ws) && s.ctl.job == regs
    requires Loaded(o, current, header, extra2Hex, regs)
    ensures var st := MiningBatch.SysRun(p, MiningBatch.SysStep(p, s, MinerLifecycle.START), ws).ctl.status;
            st.resultValid ==> IsShare(header, st.result.nonce, o.target)
  {
    hide MiningBatch.SysStep, MiningBatch.SysRun, MinerLifecycle.Silent, IsShare, Midstate, TailWords, HexText,
         JobHeader, Buildable;
    var h := JobHeader(o.job, o.extra1, current);
    GenuineResults.ShownResultIsShare(p, s, ws, h);
    var st := MiningBatch.SysRun(p, MiningBatch.SysStep(p, s, MinerLifecycle.START), ws).ctl.status;
    ShareIgnoresNonceBytes(header, h, st.result.nonce, o.target);
  }

  /**
   * From any state of the miner, the firmware stops it, clears, loads a header and, more than a core latency after the
   * stop, starts it and mines the header range by range. In every range, whatever happened in the ranges before, each
   * result it sees passes its own recheck.
   */
  lemma HeaderRechecks(o: Origin, current: seq<Byte>, header: HeaderBytes, extra2Hex: seq<Byte>, regs: Job,
                       p: MiningBatch.Params, s: MiningBatch.Sys, wait: seq<Write>, i: nat, load: seq<Write>,
                       xs: seq<Range>, x: Range, ws: seq<Write>)
    requires RegisterLoad.ChangeOk(p, wait, i, load, RangeJob(regs, 0))
    requires MinerLifecycle.AllGentle(ws) && LoadOk(x, regs, |xs|)
    requires RangesSeen(p, RegisterLoad.Changed(p, s, wait, load), xs, regs)
    requires Loaded(o, current, header, extra2Hex, regs)
    ensures var t := Started(p, AfterRanges(p, RegisterLoad.Changed(p, s, wait, load), xs), x);
            var st := MiningBatch.SysRun(p, t, ws).ctl.status;
            st.resultValid ==> IsShare(header, st.result.nonce, o.target)
  {
    hide MiningBatch.SysRun, MinerLifecycle.Silent, RegisterLoad.Changed, RegisterLoad.ChangeOk, IsShare, Started,
         AfterRanges, RangesSeen, LoadOk,
         Midstate, TailWords, HexText, JobHeader, Buildable;
    var h := JobHeader(o.job, o.extra1, current);
    var q := RegisterLoad.Changed(p, s, wait, load);
    RegisterLoad.JobChangeIsClean(p, s, wait, i, load, RangeJob(regs, 0));
    RangeShowsShares(p, q, xs, regs, x, ws, h);
    var st := MiningBatch.SysRun(p, Started(p, AfterRanges(p, q, xs), x), ws).ctl.status;
    ShareIgnoresNonceBytes(header, h, st.result.nonce, o.target);
  }

  /**
   * And once all 256 ranges have been seen done and empty, the results that the firmware acknowledged are the shares of
   * its header over all 2^32 nonce words, each exactly once and nothing else, if and only if no range overflowed.
   */
  lemma HeaderDelivers(o: Origin, current: seq<Byte>, header: HeaderBytes, extra2Hex: seq<Byte>, regs: Job,
                       p: MiningBatch.Params, s: MiningBatch.Sys, wait: seq<Write>, i: nat, load: seq<Write>,
                       xs: seq<Range>)
    requires RegisterLoad.ChangeOk(p, wait, i, load, RangeJob(regs, 0))
    requires |xs| == 256 && RangesSeen(p, RegisterLoad.Changed(p, s, wait, load), xs, regs)
    requires Loaded(o, current, header, extra2Hex, regs)
    ensures var q := RegisterLoad.Changed(p, s, wait, load);
            HeaderDelivery.HeaderExact(header, o.target, HeaderDelivery.Nonces(HeaderDelivery.AllAcked(p, q, xs)))
            <==> HeaderDelivery.NoOverflow(p, q, xs)
  {
    hide MinerLifecycle.Silent, RegisterLoad.Changed, RegisterLoad.ChangeOk, IsShare, RangesSeen,
         HeaderDelivery.AllAcked, HeaderDelivery.Nonces,
         HeaderDelivery.NoOverflow, Midstate, TailWords, HexText, JobHeader, Buildable;
    var h := JobHeader(o.job, o.extra1, current);
    var q := RegisterLoad.Changed(p, s, wait, load);
    RegisterLoad.JobChangeIsClean(p, s, wait, i, load, RangeJob(regs, 0));
    HeaderDelivery.RangesCoverNonceSpace(p, q, xs, regs, h);
    forall y: Word
      ensures IsShare(header, y, o.target) <==> IsShare(h, y, o.target)
    {
      ShareIgnoresNonceBytes(header, h, y, o.target);
    }
  }

  /** Where the miner is while a session runs: ranges of its header are done, and one is under way. */
  datatype Course = Course(start: MiningBatch.Sys, done: seq<Range>, now: Range, ws: seq<Write>)

  /** The miner state s was reached in a range of the header whose registers these are, after a job change. */
  ghost predicate OnCourse(p: MiningBatch.Params, regs: Job, k: Course, s: MiningBatch.Sys) {
    && MinerLifecycle.Silent(k.start) && k.start.ctl.job == RangeJob(regs, 0)
    && RangesSeen(p, k.start, k.done, regs) && LoadOk(k.now, regs, |k.done|) && MinerLifecycle.AllGentle(k.ws)
    && s == MiningBatch.SysRun(p, Started(p, AfterRanges(p, k.start, k.done), k.now), k.ws)
  }

  /** Every nonce that a poll reads from a miner on course passes the recheck. */
  lemma PollPasses(o: Origin, current: seq<Byte>, header: HeaderBytes, extra2Hex: seq<Byte>, regs: Job,
                   p: MiningBatch.Params, k: Course, s: MiningBatch.Sys, turns: seq<ResultPoll.Turn>)
    requires ResultPoll.PollSees(p, s, turns) && OnCourse(p, regs, k, s)
    requires Loaded(o, current, header, extra2Hex, regs)
    ensures AllShares(header, o.target, ResultPoll.PollNonces(p, s, turns))
  {
    hide MiningBatch.SysRun, MinerLifecycle.Silent, IsShare, Started, AfterRanges, RangesSeen, LoadOk, Midstate,
         TailWords,
         HexText, JobHeader, Buildable, ResultPoll.PollSees, ResultPoll.PollNonces;
    var h := JobHeader(o.job, o.extra1, current);
    var t := Started(p, AfterRanges(p, k.start, k.done), k.now);
    forall i | 0 <= i < |turns|
      ensures IsShare(header, ResultPoll.PollNonces(p, s, turns)[i], o.target)
    {
      var ws := ResultPoll.NonceIsShown(p, s, turns, i);
      MiningBatch.SysRunAppend(p, t, k.ws, ws);
      RangeShowsShares(p, k.start, k.done, regs, k.now, k.ws + ws, h);
      ShareIgnoresNonceBytes(header, h, ResultPoll.PollNonces(p, s, turns)[i], o.target);
    }
  }

  ghost predicate AllShares(header: HeaderBytes, t: Target, nonces: seq<Word>) {
    forall k :: 0 <= k < |nonces| ==> IsShare(header, nonces[k], t)
  }

  ghost predicate AllTrue(bs: seq<bool>) {
    forall k :: 0 <= k < |bs| ==> bs[k]
  }

  lemma LoadedIsBuildable(o: Origin, current: seq<Byte>, header: HeaderBytes, extra2Hex: seq<Byte>, regs: Job)
    requires Loaded(o, current, header, extra2Hex, regs)
    ensures Buildable(o.job)
  {
  }

  /** The registers of a live session are those of one of the 256 ranges of the header. */
  lemma RegistersOfRange(regs: Job, rangeStart: Word)
    requires regs.nonceStart == rangeStart && rangeStart % RANGE == 0 && regs.nonceCount == RANGE
    ensures rangeStart / RANGE < 256 && regs == RangeJob(regs, rangeStart / RANGE)
  {
  }

  lemma NothingUsed(counter: seq<Byte>, size: nat, exhausted: bool)
    requires CounterOk(counter, size, exhausted, [])
    ensures !exhausted
  {
  }

  // ----- turns of the loop -----

  /** A session as a value: its flags, job, extranonces and registers, and its shares. */
  datatype Mining = Mining(subscribed: bool, authorized: bool, haveJob: bool, running: bool, exhausted: bool,
                           origin: Origin, pendingTarget: Target, extra2Size: nat, current: seq<Byte>,
                           used: seq<seq<Byte>>, header: HeaderBytes, extra2Hex: seq<Byte>, regs: Job,
                           rangeStart: Word, ledger: Ledger)

  /** Mining only while subscribed and authorized, with a job, and on that job's header and registers. */
  ghost predicate MiningRight(m: Mining) {
    m.running ==>
      && m.subscribed && m.authorized && m.haveJob
      && Loaded(m.origin, m.current, m.header, m.extra2Hex, m.regs)
  }

  /** Whether so many more shares find slots and ids. */
  ghost predicate RoomFor(l: Ledger, n: nat) {
    Occupied(l.pending) + n <= 8 && 4 + |l.sent| + n <= TWO32
  }

  /** What a poll submits: for every result, in order, a share with the next id, the job's id and time, the extranonce
      of the header and the byte-swapped nonce. */
  ghost function Shares(m: Mining, results: seq<Word>): seq<Submission> {
    seq(|results|, k requires 0 <= k < |results| =>
          Submission(4 + |m.ledger.sent| + k, m.origin.job.id, m.extra2Hex, m.origin.job.time, Swap(results[k])))
  }

  /** What a turn submits, if nothing fails. */
  ghost function SharesOf(m: Mining, e: Event): seq<Submission> {
    if e.Poll? && m.running then Shares(m, e.results) else []
  }

  /** The exact target of a difficulty that is accepted. */
  ghost predicate TargetFor(difficulty: Option<string>, t: Target) {
    && difficulty.Some? && DifficultyTarget.Admissible(DecimalNumeral.Split(difficulty.value))
    && Value(TWO32, t) == DifficultyTarget.TargetOf(DecimalNumeral.Split(difficulty.value))
  }

  /** Whether the session goes on after a line from the pool. */
  ghost predicate LineGoes(m: Mining, line: Message, sendOk: bool) {
    match line
    case Unreadable => false
    case SetDifficulty(d) => d.Some? && DifficultyTarget.Admissible(DecimalNumeral.Split(d.value))
    case SetExtranonce(e1, size) => e1.Some? && SizeOk(size)
    case Notify(j) =>
      && m.subscribed && j.Some? && JobOk(j.value)
      && (m.authorized ==> !m.exhausted && Buildable(j.value))
    case Unrelated => true
    case SubscribeReply(e1, size) => !m.subscribed && e1.Some? && SizeOk(size) && sendOk
    case AuthorizeReply(granted) =>
      && m.subscribed && !m.authorized && granted && sendOk
      && (m.haveJob ==> !m.exhausted && Buildable(m.origin.job))
    case OtherReply(_, _) => true
  }

  /** Whether it goes on after a poll: no overflow, every result a share, every send a success, slots and ids for all,
      and an extranonce for the next header if the last range is finished. */
  ghost predicate PollGoes(m: Mining, overflow: bool, results: seq<Word>, sends: seq<bool>, finished: bool) {
    m.running ==>
      && !overflow && AllShares(m.header, m.origin.target, results) && AllTrue(sends) && RoomFor(m.ledger, |results|)
      && (finished ==> (m.rangeStart + RANGE) % TWO32 != 0 || !m.exhausted)
  }

  ghost predicate Goes(m: Mining, e: Event) {
    match e
    case Received(line, sendOk) => LineGoes(m, line, sendOk)
    case Poll(overflow, results, sends, finished) => PollGoes(m, overflow, results, sends, finished)
    case Expired => false
  }

  /** A header is begun: the next extranonce in order, and the registers of the header's first range. */
  ghost predicate Begun(m: Mining, m': Mining) {
    && m' == m.(running := true, exhausted := m'.exhausted, current := m'.current, used := m.used + [m'.current],
                header := m'.header, extra2Hex := m'.extra2Hex, regs := m'.regs, rangeStart := 0)
    && |m'.current| == m.extra2Size && Value(256, m'.current) == |m.used|
    && (m'.exhausted <==> |m'.used| == Pow256(m.extra2Size))
    && m'.regs.nonceStart == 0 && m'.regs.nonceCount == RANGE
    && Loaded(m'.origin, m'.current, m'.header, m'.extra2Hex, m'.regs)
  }

  ghost predicate BegunIf(c: bool, m: Mining, m': Mining) {
    if c then Begun(m, m') else m' == m
  }

  /** The old job has stopped, and the new one has the target that was pending. */
  ghost function TakenJob(m: Mining, j: JobData): Mining {
    m.(running := false, haveJob := true, origin := Origin(j, m.pendingTarget, m.origin.extra1))
  }

  /** The kinds of line that are decided by themselves, or without sending anything. */
  lemma LineSimple(m: Mining, line: Message, sendOk: bool)
    ensures line.Unreadable? ==> !LineGoes(m, line, sendOk)
    ensures line.Unrelated? ==> LineGoes(m, line, sendOk) && LineDone(m, line, m)
    ensures line.OtherReply? ==> LineGoes(m, line, sendOk)
    ensures line.SetDifficulty? || line.SetExtranonce? || line.Notify? ==>
              (LineGoes(m, line, sendOk) <==> LineGoes(m, line, true))
  {
    hide JobOk, Buildable, SizeOk, DifficultyTarget.Admissible, DecimalNumeral.Split;
  }

  /** What a line does: everything that it does not name stays. */
  ghost predicate LineDone(m: Mining, line: Message, m': Mining) {
    match line
    case Unreadable => false
    case SetDifficulty(d) => m' == m.(pendingTarget := m'.pendingTarget) && TargetFor(d, m'.pendingTarget)
    case SetExtranonce(e1, size) =>
      && e1.Some? && size.Some?
      && m' == m.(running := false, haveJob := false, origin := m.origin.(extra1 := e1.value),
                  extra2Size := size.value, exhausted := false, used := [])
    case Notify(j) =>
      && j.Some? && BegunIf(m.authorized, TakenJob(m, j.value), m')
    case Unrelated => m' == m
    case SubscribeReply(e1, size) =>
      && e1.Some? && size.Some?
      && m' == m.(subscribed := true, origin := m.origin.(extra1 := e1.value), extra2Size := size.value)
    case AuthorizeReply(granted) => BegunIf(m.haveJob, m.(authorized := true), m')
    case OtherReply(id, good) => m' == m.(ledger := m'.ledger) && Replied(m.ledger, id, good, m'.ledger)
  }

  /** The shares are entered into the ledger. Which slots they take follows from the ledger's invariant. */
  ghost predicate Entered(m: Mining, results: seq<Word>, l: Ledger) {
    l == m.ledger.(pending := l.pending, sent := m.ledger.sent + Shares(m, results),
                   submitted := m.ledger.submitted + |results|)
  }

  /** The end of a range: the registers of the next one or, after the last range of a header, the next header. */
  ghost predicate RangeDone(m: Mining, m': Mining) {
    var next := (m.rangeStart + RANGE) % TWO32;
    if next == 0 then Begun(m, m')
    else m' == m.(rangeStart := next, regs := m.regs.(nonceStart := next, nonceCount := RANGE))
  }

  /** What a poll does: nothing unless mining; otherwise the shares, and then the end of the range if it was seen. Only
      the nonce bytes of the header change before the next header. */
  ghost predicate PollDone(m: Mining, results: seq<Word>, finished: bool, m': Mining) {
    if !m.running then m' == m
    else
      var q := m.(header := m'.header, ledger := m'.ledger);
      && Entered(m, results, m'.ledger)
      && (if finished then RangeDone(q, m') else m' == q)
      && ((finished && m'.rangeStart == 0) || m'.header[..76] == m.header[..76])
  }

  lemma HeaderAfter(m: Mining, m': Mining)
    requires (m.rangeStart + RANGE) % TWO32 == 0 && Begun(m.(running := false, rangeStart := 0), m')
    ensures RangeDone(m, m')
  {
    hide Value, Pow256, Loaded;
  }

  lemma PollIdle(m: Mining, results: seq<Word>, finished: bool)
    requires !m.running
    ensures PollDone(m, results, finished, m)
  {
  }

  lemma PollCombines(m: Mining, results: seq<Word>, finished: bool, q: Mining, m': Mining)
    requires m.running && Entered(m, results, q.ledger) && q.header[..76] == m.header[..76]
    requires q == m.(header := q.header, ledger := q.ledger)
    requires if finished then RangeDone(q, m') else m' == q
    ensures PollDone(m, results, finished, m')
  {
    hide Value, Pow256, Loaded, Entered;
  }

  lemma SharesSize(m: Mining, results: seq<Word>)
    ensures |Shares(m, results)| == |results|
  {
  }

  lemma ShareAt(m: Mining, results: seq<Word>, k: nat)
    requires k < |results|
    ensures |Shares(m, results)| == |results|
    ensures Shares(m, results)[k] == Submission(4 + |m.ledger.sent| + k, m.origin.job.id, m.extra2Hex,
                                                m.origin.job.time, Swap(results[k]))
  {
  }

  ghost predicate Turn(m: Mining, e: Event, m': Mining) {
    match e
    case Received(line, _) => LineDone(m, line, m')
    case Poll(_, results, _, finished) => PollDone(m, results, finished, m')
    case Expired => false
  }

  /** The state before event k of a run. */
  ghost function Before(m: Mining, states: seq<Mining>, k: nat): Mining
    requires k <= |states|
  {
    if k == 0 then m else states[k - 1]
  }

  /** The states are those of a session in state m after each of the events. */
  ghost predicate Run(m: Mining, events: seq<Event>, states: seq<Mining>) {
    && |events| == |states|
    && forall k :: 0 <= k < |events| ==>
         && Goes(Before(m, states, k), events[k]) && Turn(Before(m, states, k), events[k], states[k])
         && MiningRight(states[k])
  }

  /** A session that has just been opened: nothing sent or used, and difficulty one. */
  ghost predicate Fresh(m: Mining) {
    && !m.subscribed && !m.authorized && !m.haveJob && !m.running && !m.exhausted && m.used == []
    && m.ledger.sent == [] && Value(TWO32, m.pendingTarget) == DifficultyTarget.DIFFICULTY_ONE
  }

  /** What a run submits. */
  ghost function RunShares(m: Mining, events: seq<Event>, states: seq<Mining>): seq<Submission>
    requires |events| == |states|
    decreases |events|
  {
    if events == [] then []
    else
      var n := |events| - 1;
      RunShares(m, events[..n], states[..n]) + SharesOf(Before(m, states, n), events[n])
  }

  /**
   * A conversation from state m: the states added to the history are a run of the first events; unless these are all,
   * the session cannot go on after the next one. The shares sent are those of the run and, if it ended, possibly some
   * of those of the event that ended it.
   */
  ghost predicate Conversation(m: Mining, before: seq<Mining>, events: seq<Event>, after: seq<Mining>,
                               sent: seq<Submission>, ended: bool) {
    && before <= after && |after| <= |before| + |events|
    && var n := |after| - |before|;
       var states := after[|before|..];
       && Run(m, events[..n], states)
       && var shares := m.ledger.sent + RunShares(m, events[..n], states);
          if ended then
            && n < |events| && !Goes(Before(m, states, n), events[n])
            && shares <= sent <= shares + SharesOf(Before(m, states, n), events[n])
          else n == |events| && sent == shares
  }

  lemma RunEmpty(m: Mining)
    ensures Run(m, [], [])
  {
  }

  lemma RunExtends(m: Mining, events: seq<Event>, states: seq<Mining>, e: Event, m': Mining)
    requires Run(m, events, states) && MiningRight(m')
    requires Goes(Before(m, states, |states|), e) && Turn(Before(m, states, |states|), e, m')
    ensures Run(m, events + [e], states + [m'])
  {
    hide Goes, Turn, MiningRight;
    forall k | 0 <= k < |events + [e]|
      ensures && Goes(Before(m, states + [m'], k), (events + [e])[k])
              && Turn(Before(m, states + [m'], k), (events + [e])[k], (states + [m'])[k])
              && MiningRight((states + [m'])[k])
    {
      assert Before(m, states + [m'], k) == Before(m, states, k);
    }
  }

  lemma RunPrefix(m: Mining, events: seq<Event>, states: seq<Mining>, n: nat)
    requires Run(m, events, states) && n <= |events|
    ensures Run(m, events[..n], states[..n])
  {
    hide Goes, Turn, MiningRight;
    forall k | 0 <= k < n
      ensures && Goes(Before(m, states[..n], k), events[..n][k])
              && Turn(Before(m, states[..n], k), events[..n][k], states[..n][k])
              && MiningRight(states[..n][k])
    {
      assert Before(m, states[..n], k) == Before(m, states, k);
    }
  }

  /** A turn sends the shares of its poll and nothing else. */
  lemma TurnSubmits(m: Mining, e: Event, m': Mining)
    requires Turn(m, e, m')
    ensures m'.ledger.sent == m.ledger.sent + SharesOf(m, e)
  {
    hide Value, Loaded, TargetFor, Shares, Pow256;
  }

  /** The shares sent in a run are the results of its polls, in order. */
  lemma {:induction false} RunSubmits(m: Mining, events: seq<Event>, states: seq<Mining>)
    requires Run(m, events, states)
    ensures Before(m, states, |states|).ledger.sent == m.ledger.sent + RunShares(m, events, states)
    decreases |events|
  {
    hide Goes, Turn, MiningRight, SharesOf;
    if events != [] {
      var n := |events| - 1;
      RunPrefix(m, events, states, n);
      RunSubmits(m, events[..n], states[..n]);
      assert Before(m, states[..n], n) == Before(m, states, n);
      TurnSubmits(Before(m, states, n), events[n], states[n]);
    }
  }

  predicate SetsDifficulty(e: Event) {
    e.Received? && e.message.SetDifficulty?
  }

  predicate NamesJob(e: Event) {
    e.Received? && e.message.Notify?
  }

  lemma TurnKeepsPending(m: Mining, e: Event, m': Mining)
    requires Turn(m, e, m') && !SetsDifficulty(e)
    ensures m'.pendingTarget == m.pendingTarget
  {
    hide Value, Loaded, Replied, Entered, Pow256;
  }

  lemma TurnKeepsJob(m: Mining, e: Event, m': Mining)
    requires Turn(m, e, m') && !NamesJob(e)
    ensures m'.origin.job == m.origin.job && m'.origin.target == m.origin.target
  {
    hide Value, Loaded, Replied, Entered, Pow256, TargetFor;
  }

  /** The pending target stays from one difficulty message to the next. */
  lemma {:induction false} PendingStays(m: Mining, events: seq<Event>, states: seq<Mining>, i: nat, j: nat)
    requires Run(m, events, states) && i <= j <= |events|
    requires forall k :: i <= k < j ==> !SetsDifficulty(events[k])
    ensures Before(m, states, j).pendingTarget == Before(m, states, i).pendingTarget
    decreases j
  {
    hide Goes, Turn, MiningRight;
    if i < j {
      PendingStays(m, events, states, i, j - 1);
      TurnKeepsPending(Before(m, states, j - 1), events[j - 1], states[j - 1]);
    }
  }

  /** Job and target stay from one job to the next. */
  lemma {:induction false} JobStays(m: Mining, events: seq<Event>, states: seq<Mining>, i: nat, j: nat)
    requires Run(m, events, states) && i <= j <= |events|
    requires forall k :: i <= k < j ==> !NamesJob(events[k])
    ensures Before(m, states, j).origin.job == Before(m, states, i).origin.job
    ensures Before(m, states, j).origin.target == Before(m, states, i).origin.target
    decreases j
  {
    hide Goes, Turn, MiningRight;
    if i < j {
      JobStays(m, events, states, i, j - 1);
      TurnKeepsJob(Before(m, states, j - 1), events[j - 1], states[j - 1]);
    }
  }

  /** A job takes the pending target of the moment. */
  lemma JobTakes(m: Mining, e: Event, m': Mining)
    requires Turn(m, e, m') && NamesJob(e)
    ensures Some(m'.origin.job) == e.message.job && m'.origin.target == m.pendingTarget
  {
    hide Value, Loaded, Pow256;
  }

  lemma DifficultyTakes(m: Mining, e: Event, m': Mining)
    requires Turn(m, e, m') && SetsDifficulty(e)
    ensures TargetFor(e.message.difficulty, m'.pendingTarget)
  {
    hide TargetFor;
  }

  /**
   * The target in force. After any event k of a run, the job is that of the last notification j, and its target is the
   * exact one of the last difficulty d named before that notification, whatever was named since.
   */
  lemma TargetInForce(m: Mining, events: seq<Event>, states: seq<Mining>, d: nat, j: nat, k: nat)
    requires Run(m, events, states) && d < j <= k < |events|
    requires SetsDifficulty(events[d]) && forall i :: d < i < j ==> !SetsDifficulty(events[i])
    requires NamesJob(events[j]) && forall i :: j < i <= k ==> !NamesJob(events[i])
    ensures Some(states[k].origin.job) == events[j].message.job
    ensures TargetFor(events[d].message.difficulty, states[k].origin.target)
  {
    hide Goes, Turn, MiningRight, TargetFor;
    DifficultyTakes(Before(m, states, d), events[d], states[d]);
    PendingStays(m, events, states, d + 1, j);
    JobTakes(Before(m, states, j), events[j], states[j]);
    JobStays(m, events, states, j + 1, k + 1);
  }

  /** Without a difficulty before the notification, it is difficulty one. */
  lemma InitialTargetInForce(m: Mining, events: seq<Event>, states: seq<Mining>, j: nat, k: nat)
    requires Run(m, events, states) && Fresh(m) && j <= k < |events|
    requires forall i :: 0 <= i < j ==> !SetsDifficulty(events[i])
    requires NamesJob(events[j]) && forall i :: j < i <= k ==> !NamesJob(events[i])
    ensures Some(states[k].origin.job) == events[j].message.job
    ensures Value(TWO32, states[k].origin.target) == DifficultyTarget.DIFFICULTY_ONE
  {
    hide Goes, Turn, MiningRight, Value;
    PendingStays(m, events, states, 0, j);
    JobTakes(Before(m, states, j), events[j], states[j]);
    JobStays(m, events, states, j + 1, k + 1);
  }

  type ExtraSize = n: nat | n <= 16
  type HeaderBytes = h: seq<Byte> | |h| == 80 witness seq(80, _ => 0)

  class Session {
    // flags and job
    var subscribed: bool
    var authorized: bool
    var haveJob: bool
    var running: bool
    var exhausted: bool
    var job: JobData
    var target: Target
    var pendingTarget: Target
    // extranonces and header
    var extra1: seq<Byte>
    const extra2: array<Byte>
    var extra2Size: ExtraSize
    var extra2Hex: seq<Byte>
    var header: HeaderBytes
    var rangeStart: Word
    // the mining registers as last written
    var regs: Job
    // shares
    var nextId: Word
    var pending: seq<Slot>
    var submitted: nat
    var accepted: nat
    var rejected: nat
    // history: the extranonces since the last reset, the shares of this session and of earlier ones
    ghost var current: seq<Byte>
    ghost var used: seq<seq<Byte>>
    ghost var sent: seq<Submission>
    ghost var past: seq<Submission>
    ghost var origins: seq<Origin>
    ghost var answered: set<nat>
    ghost var abandoned: nat
    // the state after every event, over all sessions
    ghost var history: seq<Mining>

    ghost function TheLedger(): Ledger
      reads `pending, `sent, `answered, `submitted, `accepted, `rejected, `abandoned
    {
      Ledger(pending, sent, answered, submitted, accepted, rejected, abandoned)
    }

    /** Holds in every state, also after an error that ends the session: the counters balance, and every share ever
        submitted is good. */
    ghost predicate Books()
      reads `pending, `sent, `answered, `submitted, `accepted, `rejected, `abandoned, `past, `origins
    {
      extra2.Length == 16 && LedgerOk(TheLedger()) && submitted == |past + sent| && AllGood(past + sent, origins)
    }

    ghost function Here(): Origin
      reads `job, `target, `extra1
    {
      Origin(job, target, extra1)
    }

    /** The session as a value. The extranonce counter and the next id follow from it. */
    ghost function Snapshot(): Mining
      reads `subscribed, `authorized, `haveJob, `running, `exhausted, `job, `target, `extra1, `pendingTarget,
            `extra2Size, `current, `used, `header, `extra2Hex, `regs, `rangeStart,
            `pending, `sent, `answered, `submitted, `accepted, `rejected, `abandoned
    {
      Mining(subscribed, authorized, haveJob, running, exhausted, Here(), pendingTarget, extra2Size, current, used,
             header, extra2Hex, regs, rangeStart, TheLedger())
    }

    /** Mining runs only for a subscribed, authorized session with a job, on that job's header. */
    ghost predicate MiningSound()
      reads `subscribed, `authorized, `haveJob, `running, `job, `target, `extra1, `current, `header, `extra2Hex, `regs,
            `rangeStart
    {
      && (authorized ==> subscribed) && (haveJob ==> JobOk(job))
      && (running ==>
            && authorized && haveJob && regs.nonceStart == rangeStart && rangeStart % RANGE == 0
                && regs.nonceCount == RANGE
            && Loaded(Here(), current, header, extra2Hex, regs))
    }

    /** Every header since the last reset of the extranonce had its own extranonce2. */
    ghost predicate CounterSound()
      reads `subscribed, `exhausted, `extra2Size, `used, extra2
    {
      && extra2.Length == 16 && CounterOk(extra2[..], extra2Size, exhausted, used)
      && (!subscribed ==> used == []) && (subscribed ==> 0 < extra2Size)
    }

    /** Holds until the session ends. */
    ghost predicate Live()
      reads this, extra2
    {
      Books() && nextId == (4 + |sent|) % TWO32 && MiningSound() && CounterSound()
    }

    constructor ()
      ensures Books() && fresh(extra2) && !running && submitted == accepted == rejected == 0
    {
      hide GoodShare;
      subscribed, authorized, haveJob, running, exhausted := false, false, false, false, false;
      job := JobData([], [], [], [], [], [], [], []);
      target, pendingTarget := [0, 0, 0, 0, 0, 0, 0, 0], [0, 0, 0, 0, 0, 0, 0, 0];
      extra1, extra2Size, extra2Hex, header, rangeStart := [], 0, [], Zeros(80), 0;
      extra2 := new Byte[16](_ => 0);
      regs := Job(State(0, 0, 0, 0, 0, 0, 0, 0), [0, 0, 0, 0], [0, 0, 0, 0, 0, 0, 0, 0], 0, 0);
      nextId, pending := 0, seq(8, _ => Slot(0, Submission(0, [], [], [], 0)));
      submitted, accepted, rejected := 0, 0, 0;
      current, used, sent, past, origins, answered, abandoned, history := [], [], [], [], [], {}, 0, [];
      new;
      OccupiedZero(pending);
    }

    /** `stop`, as far as the firmware's own state is concerned. */
    method Stop()
      modifies `running
      ensures !running
    {
      running := false;
    }

    /** `start_range`. */
    method StartRange()
      modifies `running, `regs
      ensures running && regs == old(regs).(nonceStart := rangeStart, nonceCount := RANGE)
      ensures Loaded(Here(), current, header, extra2Hex, regs)
          <==> old(Loaded(Here(), current, header, extra2Hex, regs))
    {
      hide JobHeader, HexText, Midstate, TailWords, Buildable;
      regs := regs.(nonceStart := rangeStart, nonceCount := RANGE);
      running := true;
    }

    /** The first half of `build_header`: header, midstate, tail and target. */
    method LoadHeader(e2: seq<Byte>) returns (ok: bool)
      requires JobOk(job) && |e2| <= 16
      modifies `extra2Hex, `header, `regs
      ensures ok <==> Buildable(job)
      ensures ok ==> Loaded(Here(), e2, header, extra2Hex, regs)
    {
      hide Value, Decode, HexText, Header, Midstate, TailWords;
      var text := new Byte[33];
      HexEncode(e2, text);
      extra2Hex := text[..2 * |e2|];
      var time := new Byte[4];
      var n := HexDecode(job.time, time);
      if n != 4 {
        return false;
      }
      var f := HeaderFields(job.version, job.prev, job.bits, time[..], job.coin1, job.coin2, job.branches);
      assert f == FieldsOf(job) by { assert time[..4] == time[..]; }
      header := BuildHeader(f, extra1, e2);
      var mid := Sha256Software.HeaderMidstate(header);
      regs := regs.(midstate := mid, tail := TailWords(header), target := target);
      ok := true;
    }

    /** The second half: the extranonce just used is never used again. */
    method AdvanceExtranonce()
      requires CounterSound() && subscribed && !exhausted
      modifies extra2, `exhausted, `used, `current
      ensures CounterSound() && current == old(extra2[..extra2Size]) && used == old(used) + [current]
      ensures |current| == extra2Size && Value(256, current) == |old(used)|
      ensures exhausted <==> |used| == Pow256(extra2Size)
    {
      hide Value, Pow256;
      ghost var counter := extra2[..];
      exhausted := Increment(extra2, extra2Size);
      CounterNext(counter, extra2[..], extra2Size, exhausted, used);
      current := counter[..extra2Size];
      used := used + [current];
      ExhaustedAfterAll(extra2[..], extra2Size, exhausted, used);
    }

    /** The last step: the first range of the loaded header. */
    method FirstRange()
      requires subscribed && authorized && haveJob && JobOk(job) && Loaded(Here(), current, header, extra2Hex, regs)
      modifies `rangeStart, `running, `regs
      ensures MiningSound() && running && rangeStart == 0
      ensures Loaded(Here(), current, header, extra2Hex, regs) && regs.nonceStart == 0 && regs.nonceCount == RANGE
    {
      hide Loaded, JobOk;
      rangeStart := 0;
      StartRange();
    }

    lemma SnapshotFlags()
      ensures var m := Snapshot();
              && m.subscribed == subscribed && m.authorized == authorized && m.haveJob == haveJob
              && m.running == running && m.exhausted == exhausted && m.origin == Here()
              && m.header == header && m.extra2Hex == extra2Hex && m.rangeStart == rangeStart
              && m.ledger == TheLedger()
    {
    }

    lemma LiveFlags()
      requires Live()
      ensures (authorized ==> subscribed) && (haveJob ==> JobOk(job)) && extra2.Length == 16
    {
      hide Books, Loaded, CounterOk, JobOk;
    }

    twostate lemma HeaderBegun()
      requires unchanged(this`subscribed, this`authorized, this`haveJob, this`job, this`target, this`extra1,
                         this`pendingTarget, this`extra2Size)
      requires unchanged(this`pending, this`sent, this`answered, this`submitted, this`accepted, this`rejected,
                         this`abandoned)
      requires running && rangeStart == 0 && used == old(used) + [current]
      requires |current| == extra2Size && Value(256, current) == |old(used)|
      requires exhausted <==> |used| == Pow256(extra2Size)
      requires Loaded(Here(), current, header, extra2Hex, regs) && regs.nonceStart == 0 && regs.nonceCount == RANGE
      ensures Begun(old(Snapshot()), Snapshot())
    {
      hide Loaded, Value, Pow256;
    }

    /** `build_header`: a fresh extranonce for every header, then the registers, then the first range. */
    method NextHeader() returns (ok: bool)
      requires Live() && authorized && haveJob && !running
      modifies `extra2Hex, `header, `regs, extra2, `exhausted, `used, `current, `rangeStart, `running
      ensures ok <==> !old(exhausted) && Buildable(job)
      ensures ok ==> Live() && Begun(old(Snapshot()), Snapshot())
      ensures Books()
    {
      hide Books, Loaded, MiningSound, CounterSound, Buildable, JobOk, Value, Pow256, TheLedger, Here, Snapshot, Begun;
      LiveFlags();
      if exhausted {
        return false;
      }
      ok := LoadHeader(extra2[..extra2Size]);
      if ok {
        AdvanceExtranonce();
        FirstRange();
        HeaderBegun();
      }
    }

    // ----- messages -----

    twostate lemma DifficultyChanged(text: string)
      requires unchanged(this`job, this`target, this`extra1, this`extra2Size, this`subscribed, this`authorized,
                         this`haveJob, this`running, this`exhausted, this`used, this`current, this`header,
                         this`extra2Hex, this`regs, this`rangeStart, this`pending, this`sent, this`answered,
                         this`submitted, this`accepted, this`rejected, this`abandoned)
      requires DifficultyTarget.Admissible(DecimalNumeral.Split(text))
      requires Value(TWO32, pendingTarget) == DifficultyTarget.TargetOf(DecimalNumeral.Split(text))
      ensures LineDone(old(Snapshot()), SetDifficulty(Some(text)), Snapshot())
    {
      hide Value, DifficultyTarget.Admissible, DifficultyTarget.TargetOf, DecimalNumeral.Split;
    }

    twostate lemma ExtranonceChanged()
      requires unchanged(this`subscribed, this`authorized, this`job, this`target, this`pendingTarget, this`current,
                         this`header, this`extra2Hex, this`regs, this`rangeStart, this`pending, this`sent,
                         this`answered, this`submitted, this`accepted, this`rejected, this`abandoned)
      requires !running && !haveJob && !exhausted && used == []
      ensures var size: Word := extra2Size;
              LineDone(old(Snapshot()), SetExtranonce(Some(extra1), Some(size)), Snapshot())
    {
    }

    twostate lemma JobTaken()
      requires unchanged(this`subscribed, this`authorized, this`exhausted, this`used, this`extra1, this`extra2Size,
                         this`pendingTarget, this`current, this`header, this`extra2Hex, this`regs, this`rangeStart,
                         this`pending, this`sent, this`answered, this`submitted, this`accepted, this`rejected,
                         this`abandoned)
      requires !running && haveJob && target == pendingTarget
      ensures Snapshot() == TakenJob(old(Snapshot()), job)
    {
    }

    twostate lemma Subscribed()
      requires unchanged(this`authorized, this`haveJob, this`running, this`exhausted, this`used, this`job,
                         this`target, this`pendingTarget, this`current, this`header, this`extra2Hex, this`regs,
                         this`rangeStart, this`pending, this`sent, this`answered, this`submitted, this`accepted,
                         this`rejected, this`abandoned)
      requires subscribed
      ensures var size: Word := extra2Size;
              LineDone(old(Snapshot()), SubscribeReply(Some(extra1), Some(size)), Snapshot())
    {
    }

    twostate lemma Authorized()
      requires unchanged(this`subscribed, this`haveJob, this`running, this`exhausted, this`used, this`job,
                         this`target, this`extra1, this`extra2Size, this`pendingTarget, this`current, this`header,
                         this`extra2Hex, this`regs, this`rangeStart, this`pending, this`sent, this`answered,
                         this`submitted, this`accepted, this`rejected, this`abandoned)
      requires authorized
      ensures Snapshot() == old(Snapshot()).(authorized := true)
    {
    }

    twostate lemma ShareAnswered(m: Message)
      requires unchanged(this`job, this`target, this`extra1, this`extra2Size, this`pendingTarget, this`subscribed,
                         this`authorized, this`haveJob, this`running, this`exhausted, this`used, this`current,
                         this`header, this`extra2Hex, this`regs, this`rangeStart)
      requires m.OtherReply? && Replied(old(TheLedger()), m.id, m.accepted, TheLedger())
      ensures LineDone(old(Snapshot()), m, Snapshot())
    {
      hide Replied;
    }

    /** `mining.set_difficulty`: takes effect with the next job; a rejected difficulty changes nothing. */
    method ChangeDifficulty(difficulty: Option<string>) returns (ok: bool)
      requires Live()
      modifies `pendingTarget
      ensures Live()
      ensures ok <==> LineGoes(old(Snapshot()), SetDifficulty(difficulty), true)
      ensures ok ==> LineDone(old(Snapshot()), SetDifficulty(difficulty), Snapshot())
      ensures !ok ==> pendingTarget == old(pendingTarget)
    {
      hide Books, MiningSound, CounterSound, Value, DifficultyTarget.Admissible, DifficultyTarget.TargetOf,
           DecimalNumeral.Split, Snapshot, LineDone;
      if difficulty.None? {
        return false;
      }
      var words := new Word[8](i requires 0 <= i < 8 => 0);
      ok := DifficultyTarget.BitcoinTarget(difficulty.value, words);
      if ok {
        pendingTarget := words[..];
        DifficultyChanged(difficulty.value);
      }
    }

    /** Clears the extranonce counter. */
    method ZeroExtranonce()
      requires extra2.Length == 16 && (subscribed ==> 0 < extra2Size)
      modifies extra2, `exhausted, `used
      ensures CounterSound() && used == [] && !exhausted
    {
      hide CounterOk;
      forall i | 0 <= i < 16 {
        extra2[i] := 0;
      }
      exhausted := false;
      used := [];
      CounterFresh(extra2Size);
      assert extra2[..] == seq(16, _ => 0);
    }

    /** `mining.set_extranonce`: mining stops until the next job, and the extranonces start over. */
    method ChangeExtranonce(newExtra1: Option<seq<Byte>>, size: Option<Word>) returns (ok: bool)
      requires Live()
      modifies `running, `haveJob, `extra1, `extra2Size, extra2, `exhausted, `used
      ensures ok <==> LineGoes(old(Snapshot()), SetExtranonce(newExtra1, size), true)
      ensures ok ==> Live() && LineDone(old(Snapshot()), SetExtranonce(newExtra1, size), Snapshot())
      ensures Books()
    {
      hide Live, Books, Snapshot, LineDone;
      LiveBooks();
      if newExtra1.None? || size.None? || size.value == 0 || size.value > 16 {
        return false;
      }
      DropJob();
      RestartExtranonces(newExtra1.value, size.value);
      ExtranonceChanged();
      ok := true;
    }

    lemma LiveBooks()
      requires Live()
      ensures Books()
    {
    }

    /** A new prefix and size, with the counter at its start. */
    method RestartExtranonces(e1: seq<Byte>, size: ExtraSize)
      requires Live() && !running && !haveJob && size > 0
      modifies `extra1, `extra2Size, extra2, `exhausted, `used
      ensures Live() && extra1 == e1 && extra2Size == size && used == [] && !exhausted
    {
      hide Books, Loaded, CounterSound, JobOk;
      BooksSize();
      extra1 := e1;
      extra2Size := size;
      ZeroExtranonce();
    }

    /** Mining stops, and the job is forgotten. */
    method DropJob()
      requires Live()
      modifies `running, `haveJob
      ensures Live() && !running && !haveJob
    {
      hide Books, Loaded, CounterSound, JobOk;
      Stop();
      haveJob := false;
    }

    /** The new job, with the target that is pending at this moment. */
    method TakeJob(j: JobData)
      requires Live() && !running && JobOk(j)
      modifies `job, `target, `haveJob
      ensures Live() && haveJob && job == j && target == pendingTarget
    {
      hide Books, Loaded, CounterSound, JobOk;
      job := j;
      target := pendingTarget;
      haveJob := true;
    }

    /** `mining.notify`: the old job stops; the new one takes the pending target and, once authorized, a new header. */
    method NewJob(newJob: Option<JobData>) returns (ok: bool)
      requires Live()
      modifies `job, `target, `haveJob, `extra2Hex, `header, `regs, extra2, `exhausted, `used, `current,
          `rangeStart, `running
      ensures ok <==> LineGoes(old(Snapshot()), Notify(newJob), true)
      ensures ok ==> Live() && LineDone(old(Snapshot()), Notify(newJob), Snapshot())
      ensures Books()
    {
      hide Books, MiningSound, CounterSound, JobOk, Buildable, Snapshot, TakenJob, Begun;
      SnapshotFlags();
      if !subscribed {
        return false;
      }
      DropJob();
      if newJob.None? {
        return false;
      }
      ok := CheckJob(newJob.value);
      if !ok {
        return false;
      }
      TakeJob(newJob.value);
      JobTaken();
      if authorized {
        ok := NextHeader();
      } else {
        ok := true;
      }
    }

    /** The reply to `mining.subscribe`. */
    method Subscribe(newExtra1: Option<seq<Byte>>, size: Option<Word>, sendOk: bool) returns (ok: bool)
      requires Live()
      modifies `subscribed, `extra1, `extra2Size
      ensures ok <==> LineGoes(old(Snapshot()), SubscribeReply(newExtra1, size), sendOk)
      ensures ok ==> Live() && LineDone(old(Snapshot()), SubscribeReply(newExtra1, size), Snapshot())
      ensures Books()
    {
      hide Books, Loaded, CounterOk, Snapshot, LineDone;
      SnapshotFlags();
      if subscribed || newExtra1.None? || size.None? || size.value == 0 || size.value > 16 {
        return false;
      }
      ghost var before := extra2Size;
      extra1 := newExtra1.value;
      extra2Size := size.value;
      subscribed := true;
      NothingUsed(extra2[..], before, exhausted);
      CounterResized(extra2[..], before, extra2Size);
      Subscribed();
      ok := sendOk;
    }

    /** The reply to `mining.authorize`: a job that came early starts now. */
    method Authorize(granted: bool, sendOk: bool) returns (ok: bool)
      requires Live()
      modifies `authorized, `extra2Hex, `header, `regs, extra2, `exhausted, `used, `current, `rangeStart, `running
      ensures ok <==> LineGoes(old(Snapshot()), AuthorizeReply(granted), sendOk)
      ensures ok ==> Live() && LineDone(old(Snapshot()), AuthorizeReply(granted), Snapshot())
      ensures Books()
    {
      hide Books, Loaded, CounterSound, Snapshot, Begun, Buildable;
      SnapshotFlags();
      if !subscribed || authorized || !granted {
        return false;
      }
      authorized := true;
      Authorized();
      if !sendOk {
        return false;
      }
      if haveJob {
        ok := NextHeader();
      } else {
        ok := true;
      }
    }

    /** The reply to a share: it frees the slot with that id, if any, and counts the share. */
    method ShareReply(id: Word, good: bool)
      requires Live()
      modifies `pending, `answered, `accepted, `rejected
      ensures Live() && Replied(old(TheLedger()), id, good, TheLedger())
      ensures var waited := exists i :: Waits(old(TheLedger()), i, id);
              && accepted == old(accepted) + (if waited && good then 1 else 0)
              && rejected == old(rejected) + (if waited && !good then 1 else 0)
    {
      hide LedgerOk, AllGood, MiningSound, CounterSound;
      ghost var l := TheLedger();
      LedgerSize(l);
      for i := 0 to 8
        invariant TheLedger() == l && forall k :: 0 <= k < i ==> !Waits(l, k, id)
      {
        if id >= 4 && pending[i].id == id {
          assert Waits(l, i, id);
          AnswerKeeps(l, i, good);
          answered := answered + {pending[i].id};
          pending := pending[i := pending[i].(id := 0)];
          if good {
            accepted := accepted + 1;
          } else {
            rejected := rejected + 1;
          }
          assert TheLedger() == Answer(l, i, good);
          return;
        }
      }
    }

    /** One line from the pool. */
    method HandleLine(m: Message, sendOk: bool) returns (ok: bool)
      requires Live()
      modifies this, extra2
      ensures ok ==> Live()
      ensures Books()
      ensures past == old(past) && sent == old(sent) && origins == old(origins)
      ensures ok <==> LineGoes(old(Snapshot()), m, sendOk)
      ensures ok ==> LineDone(old(Snapshot()), m, Snapshot())
    {
      hide Books, MiningSound, CounterSound, Replied, Snapshot, TheLedger, LineGoes, LineDone;
      LineSimple(Snapshot(), m, sendOk);
      ok := true;
      match m
      case Unreadable =>
        ok := false;
      case SetDifficulty(d) =>
        ok := ChangeDifficulty(d);
      case SetExtranonce(e1, size) =>
        ok := ChangeExtranonce(e1, size);
      case Notify(j) =>
        ok := NewJob(j);
      case Unrelated =>
      case SubscribeReply(e1, size) =>
        ok := Subscribe(e1, size, sendOk);
      case AuthorizeReply(granted) =>
        ok := Authorize(granted, sendOk);
      case OtherReply(id, good) =>
        ShareReply(id, good);
        ShareAnswered(m);
    }

    // ----- results -----

    /** The first free slot, or 8. */
    method FreeSlot() returns (slot: nat)
      requires |pending| == 8
      ensures slot <= 8 && (slot < 8 ==> pending[slot].id == 0)
      ensures slot == 8 ==> forall i :: 0 <= i < 8 ==> pending[i].id != 0
    {
      for i := 0 to 8
        invariant forall k :: 0 <= k < i ==> pending[k].id != 0
      {
        if pending[i].id == 0 {
          return i;
        }
      }
      slot := 8;
    }

    /** Enters a checked share into the books. */
    method Record(slot: nat, s: Submission)
      requires Books() && slot < 8 && |pending| == 8 && pending[slot].id == 0 && s.id == 4 + |sent| < TWO32
      requires GoodShare(s, Here())
      modifies `pending, `sent, `origins, `submitted
      ensures Books() && TheLedger() == Send(old(TheLedger()), slot, s)
      ensures sent == old(sent) + [s] && origins == old(origins) + [Here()]
    {
      hide LedgerOk, GoodShare;
      SendKeeps(TheLedger(), slot, s);
      assert past + (sent + [s]) == (past + sent) + [s];
      pending := pending[slot := Slot(s.id, s)];
      sent, origins := sent + [s], origins + [Here()];
      submitted := submitted + 1;
    }

    /** The nonce goes into the header, and the header is hashed and compared with the job's target. */
    method Recheck(nonce: Word) returns (valid: bool)
      requires Loaded(Here(), current, header, extra2Hex, regs)
      modifies `header
      ensures Loaded(Here(), current, header, extra2Hex, regs)
      ensures header == WithNonce(old(header), nonce) && header[..76] == old(header)[..76]
      ensures valid <==> IsShare(old(header), nonce, target)
      ensures valid ==> GoodShare(Submission(nextId, job.id, extra2Hex, job.time, Swap(nonce)), Here())
    {
      hide GoodShare, IsShare, Loaded, Swap, WithNonce;
      ghost var before := header;
      valid := CheckShare(header, nonce, target);
      header := WithNonce(header, nonce);
      NonceBytesFree(Here(), current, before, extra2Hex, regs, nonce);
      if valid {
        CheckedShareIsGood(Here(), current, before, extra2Hex, regs, nextId, nonce);
      }
    }

    /** One result: recheck it against the header, find a slot and submit it. */
    method Submit(nonce: Word, sendOk: bool) returns (ok: bool)
      requires Live() && running
      modifies `header, `nextId, `pending, `sent, `origins, `submitted
      ensures ok <==> IsShare(old(header), nonce, target) && sendOk && RoomFor(old(TheLedger()), 1)
      ensures ok ==> Live() && origins == old(origins) + [Here()]
      ensures ok ==> sent == old(sent) + [Submission(4 + |old(sent)|, job.id, extra2Hex, job.time, Swap(nonce))]
      ensures ok ==> Occupied(pending) == old(Occupied(pending)) + 1 && RoomFor(TheLedger(), 0)
      ensures !ok ==> sent == old(sent) && origins == old(origins)
      ensures header[..76] == old(header)[..76]
      ensures Books()
    {
      hide Books, AllGood, LedgerOk, GoodShare, CounterSound, IsShare, Loaded, Swap, JobOk, WithNonce, Send, Occupied;
      RoomForOne();
      BooksCount();
      var valid := Recheck(nonce);
      if !valid {
        return false;
      }
      ok := SendShare(Submission(nextId, job.id, extra2Hex, job.time, Swap(nonce)), sendOk);
      BooksCount();
    }

    /** A free slot, the next id and the request itself; what fails is not entered anywhere. */
    method SendShare(s: Submission, sendOk: bool) returns (ok: bool)
      requires Books() && nextId == (4 + |sent|) % TWO32 && s.id == nextId
      requires GoodShare(s, Here())
      modifies `nextId, `pending, `sent, `origins, `submitted
      ensures ok <==> && old(nextId) >= 4 && sendOk
                      && exists i :: 0 <= i < |old(pending)| && old(pending)[i].id == 0
      ensures ok ==> nextId == (4 + |sent|) % TWO32 && sent == old(sent) + [s] && origins == old(origins) + [Here()]
      ensures !ok ==> sent == old(sent) && origins == old(origins)
      ensures Books()
    {
      hide Books, GoodShare, Send;
      BooksSize();
      var slot := FreeSlot();
      if slot == 8 {
        return false;
      }
      if nextId < 4 {
        return false;
      }
      nextId := (nextId + 1) % TWO32;
      if !sendOk {
        return false;
      }
      Record(slot, s);
      ok := true;
    }

    lemma BooksSize()
      requires Books()
      ensures extra2.Length == 16 && |pending| == 8 && 4 + |sent| <= TWO32
    {
    }

    lemma BooksCount()
      requires Books()
      ensures |pending| == 8 && 4 + |sent| <= TWO32 && |sent| == |answered| + Occupied(pending)
      ensures submitted == |past| + |sent|
    {
    }

    /** Room for one is what a submission looks for. */
    lemma RoomForOne()
      requires Books() && nextId == (4 + |sent|) % TWO32
      ensures RoomFor(TheLedger(), 1) <==> nextId >= 4 && exists i :: 0 <= i < |pending| && pending[i].id == 0
    {
      hide Books, Occupied;
      BooksCount();
      FreeSlots(pending);
    }

    twostate lemma SharesEntered(results: seq<Word>)
      requires unchanged(this`answered, this`accepted, this`rejected, this`abandoned)
      requires sent == old(sent) + Shares(old(Snapshot()), results) && submitted == old(submitted) + |results|
      ensures Entered(old(Snapshot()), results, TheLedger())
    {
      hide Shares;
    }

    twostate lemma OnlyShares()
      requires unchanged(this`subscribed, this`authorized, this`haveJob, this`running, this`exhausted, this`used,
                         this`job, this`target, this`extra1, this`extra2Size, this`pendingTarget, this`current,
                         this`extra2Hex, this`regs, this`rangeStart)
      ensures Snapshot() == old(Snapshot()).(header := header, ledger := TheLedger())
    {
    }

    twostate lemma RangeBegun()
      requires unchanged(this`subscribed, this`authorized, this`haveJob, this`exhausted, this`used, this`job,
                         this`target, this`extra1, this`extra2Size, this`pendingTarget, this`current, this`header,
                         this`extra2Hex)
      requires unchanged(this`pending, this`sent, this`answered, this`submitted, this`accepted, this`rejected,
                         this`abandoned)
      requires running == old(running) && rangeStart == (old(rangeStart) + RANGE) % TWO32 != 0
      requires regs == old(regs).(nonceStart := rangeStart, nonceCount := RANGE)
      ensures RangeDone(old(Snapshot()), Snapshot())
    {
      hide Begun;
    }

    twostate lemma HeaderFinished()
      requires unchanged(this`subscribed, this`authorized, this`haveJob, this`exhausted, this`used, this`job,
                         this`target, this`extra1, this`extra2Size, this`pendingTarget, this`current, this`header,
                         this`extra2Hex, this`regs)
      requires unchanged(this`pending, this`sent, this`answered, this`submitted, this`accepted, this`rejected,
                         this`abandoned)
      ensures Snapshot() == old(Snapshot()).(running := running, rangeStart := rangeStart)
    {
    }

    /** Everything that the result register offers in one poll, until the first failure. */
    method SubmitAll(results: seq<Word>, sends: seq<bool>) returns (ok: bool)
      requires Live() && running && |results| == |sends|
      modifies `header, `nextId, `pending, `sent, `origins, `submitted
      ensures ok <==> AllShares(old(header), target, results) && AllTrue(sends) && RoomFor(old(TheLedger()), |results|)
      ensures ok ==> Live() && sent == old(sent) + Shares(old(Snapshot()), results) && header[..76] == old(header)[..76]
      ensures old(sent) <= sent <= old(sent) + Shares(old(Snapshot()), results) && old(origins) <= origins
      ensures Books()
    {
      hide Books, MiningSound, CounterSound, IsShare, Occupied, Swap, Snapshot, Shares;
      ghost var m, first, all := Snapshot(), header, Shares(Snapshot(), results);
      SharesSize(m, results);
      BooksRoom();
      SnapshotFlags();
      for k := 0 to |results|
        invariant Live() && old(origins) <= origins && sent == old(sent) + all[..k]
        invariant forall j :: 0 <= j < k ==> IsShare(first, results[j], target) && sends[j]
        invariant header[..76] == first[..76]
        invariant Occupied(pending) == old(Occupied(pending)) + k && RoomFor(TheLedger(), 0)
      {
        ShareIgnoresNonceBytes(header, first, results[k], target);
        ShareAt(m, results, k);
        assert all[..k + 1] == all[..k] + [all[k]];
        ok := Submit(results[k], sends[k]);
        if !ok {
          return;
        }
      }
      assert all[..|results|] == all;
      ok := true;
    }

    /** The same, with the ledger as a whole. */
    method SubmitResults(results: seq<Word>, sends: seq<bool>) returns (ok: bool)
      requires Live() && running && |results| == |sends|
      modifies `header, `nextId, `pending, `sent, `origins, `submitted
      ensures ok <==> AllShares(old(header), target, results) && AllTrue(sends) && RoomFor(old(TheLedger()), |results|)
      ensures ok ==> Live() && Entered(old(Snapshot()), results, TheLedger()) && header[..76] == old(header)[..76]
      ensures Snapshot() == old(Snapshot()).(header := header, ledger := TheLedger())
      ensures old(sent) <= sent <= old(sent) + Shares(old(Snapshot()), results) && old(origins) <= origins
      ensures Books()
    {
      hide Books, MiningSound, CounterSound, Snapshot, Shares, AllShares, AllTrue, TheLedger, RoomFor, Entered;
      BooksCount();
      ok := SubmitAll(results, sends);
      BooksCount();
      OnlyShares();
      if ok {
        SharesSize(old(Snapshot()), results);
        SharesEntered(results);
      }
    }

    /** The end of a range: the next one or, after the last range of a header, the next header. */
    method NextRange() returns (ok: bool)
      requires Live() && running
      modifies `header, `extra2Hex, `regs, extra2, `exhausted, `used, `current, `rangeStart, `running
      ensures ok <==> (old(rangeStart) + RANGE) % TWO32 != 0 || !old(exhausted)
      ensures ok ==> Live() && RangeDone(old(Snapshot()), Snapshot())
      ensures Books()
    {
      hide Books, CounterSound, Loaded, JobOk, Buildable, Snapshot, Begun, RangeDone;
      LoadedIsBuildable(Here(), current, header, extra2Hex, regs);
      ghost var m := Snapshot();
      SnapshotFlags();
      rangeStart := (rangeStart + RANGE) % TWO32;
      if rangeStart == 0 {
        Stop();
        HeaderFinished();
        ok := NextHeader();
        if ok {
          HeaderAfter(m, Snapshot());
        }
      } else {
        StartRange();
        RangeBegun();
        ok := true;
      }
    }

    /** `service_results`: submit what the result register offers and, when the range is finished, go on to the next. */
    method ServiceResults(overflow: bool, results: seq<Word>, sends: seq<bool>, finished: bool) returns (ok: bool)
      requires Live() && |results| == |sends| <= 16
      modifies `header, `nextId, `pending, `sent, `origins, `submitted, `extra2Hex, `regs, extra2, `exhausted, `used,
               `current, `rangeStart, `running
      ensures ok <==> PollGoes(old(Snapshot()), overflow, results, sends, finished)
      ensures ok ==> Live() && PollDone(old(Snapshot()), results, finished, Snapshot())
      ensures old(sent) <= sent
           <= old(sent) + SharesOf(old(Snapshot()), Poll(overflow, results, sends, finished))
      ensures old(origins) <= origins
      ensures Books()
    {
      hide Books, MiningSound, CounterSound, Shares, AllShares, AllTrue, RoomFor, RangeDone, Entered, Snapshot,
           PollDone, TheLedger;
      BooksRoom();
      ghost var m := Snapshot();
      SnapshotFlags();
      if !running {
        PollIdle(m, results, finished);
        return true;
      }
      if overflow {
        return false;
      }
      ok := SubmitResults(results, sends);
      ghost var q := Snapshot();
      if ok && finished {
        ok := NextRange();
      }
      if ok {
        PollCombines(m, results, finished, q, Snapshot());
      }
    }

    lemma BooksRoom()
      requires Books()
      ensures RoomFor(TheLedger(), 0)
    {
      FreeSlots(pending);
    }

    /**
     * `service_results` on the registers of the miner, in one of the ranges of the session's header: STATUS bit 3 is
     * sampled first, every turn of the loop sees a result and reads its nonce, and the range counts as finished if
     * STATUS bit 2 and then RESULT_STATUS bit 0 say so. The shares sent are the results acknowledged, one each and in
     * order, and the session leaves the range only when the miner has shown done and then no result. It fails only
     * for an overflow, a failed send, want of slots or ids, or want of a next header, and never because a result is
     * not a share.
     */
    method ServiceMiner(ghost p: MiningBatch.Params, ghost k: Course, ghost s: MiningBatch.Sys,
                        ghost turns: seq<ResultPoll.Turn>, ghost done: nat, ghost empty: nat,
                        overflow: bool, results: seq<Word>, sends: seq<bool>, finished: bool) returns (ok: bool)
      requires Live() && |results| == |sends| <= 16 && ResultPoll.PollSees(p, s, turns)
      requires running ==> OnCourse(p, regs, k, s) && |k.done| == rangeStart / RANGE
      requires overflow <==> ReadPort.ReadReg(s.ctl.status, 0x004) / 8 % 2 == 1
      requires results == ResultPoll.PollNonces(p, s, turns)
      requires finished <==> ResultPoll.FinishedSeen(p, s, turns, done, empty)
      modifies `header, `nextId, `pending, `sent, `origins, `submitted, `extra2Hex, `regs, extra2, `exhausted, `used,
               `current, `rangeStart, `running
      ensures old(running) ==>
                (ok <==> && !s.ctl.status.overflow && AllTrue(sends) && RoomFor(old(TheLedger()), |turns|)
                         && (ResultPoll.FinishedSeen(p, s, turns, done, empty) ==>
                               (old(rangeStart) + RANGE) % TWO32 != 0 || !old(exhausted)))
      ensures ok ==> Live()
      ensures ok ==> PollDone(old(Snapshot()),
                              HeaderDelivery.Nonces(MinerLifecycle.Acked(p, s, ResultPoll.PollWrites(turns))),
                              ResultPoll.FinishedSeen(p, s, turns, done, empty), Snapshot())
      ensures old(sent) <= sent && old(origins) <= origins
      ensures Books()
    {
      hide Books, CounterSound, ResultPoll.PollSees, ResultPoll.PollNonces, ResultPoll.PollWrites, Loaded, Entered,
           ResultPoll.FinishedSeen, MinerLifecycle.Acked, HeaderDelivery.Nonces, OnCourse, AllShares, JobOk, RoomFor,
           Begun;
      ResultPoll.PollReadsAcknowledged(p, s, turns);
      if running {
        PollPasses(Here(), current, header, extra2Hex, regs, p, k, s, turns);
      }
      ok := ServiceResults(overflow, results, sends, finished);
    }

    // ----- sessions -----

    /** Forgets the shares that are still outstanding. */
    method ForgetShares()
      requires Books()
      modifies `pending, `nextId, `sent, `past, `answered, `abandoned
      ensures Books() && nextId == 4 && TheLedger() == Reopen(old(TheLedger()))
      ensures past == old(past + sent) && sent == []
    {
      hide LedgerOk, AllGood;
      ghost var l := TheLedger();
      ReopenKeeps(l);
      past, sent, answered, abandoned := past + sent, [], {}, abandoned + Occupied(pending);
      nextId, pending := 4, seq(8, _ => Slot(0, Submission(0, [], [], [], 0)));
      assert TheLedger() == Reopen(l);
      assert past + sent == past;
    }

    /** Every session starts with difficulty one. */
    method ResetTarget()
      modifies `pendingTarget
      ensures Value(TWO32, pendingTarget) == DifficultyTarget.DIFFICULTY_ONE
    {
      hide Value, DifficultyTarget.Admissible, DifficultyTarget.TargetOf, DecimalNumeral.Split;
      DifficultyTarget.TextOne();
      var words := new Word[8](i requires 0 <= i < 8 => 0);
      var _ := DifficultyTarget.BitcoinTarget("1", words);
      pendingTarget := words[..];
    }

    /** The reset before a connection. The extranonce size stays until the pool names one. */
    method Open()
      requires Books()
      modifies this, extra2
      ensures Live() && nextId == 4
      ensures past == old(past + sent) && origins == old(origins) && history == old(history)
      ensures Fresh(Snapshot()) && Snapshot().ledger == Reopen(old(TheLedger()))
    {
      hide Books, CounterSound, JobOk, Loaded, Value, Snapshot, Reopen;
      BooksSize();
      subscribed, authorized, haveJob, running := false, false, false, false;
      ZeroExtranonce();
      ForgetShares();
      ResetTarget();
      Reopened();
    }

    lemma Reopened()
      requires !subscribed && !authorized && !haveJob && !running && !exhausted && used == [] && sent == []
      requires Value(TWO32, pendingTarget) == DifficultyTarget.DIFFICULTY_ONE
      ensures Fresh(Snapshot()) && Snapshot().ledger == TheLedger()
    {
      hide Value;
    }

    /** The end of a connection. */
    method Close()
      modifies `running, `haveJob
      ensures !running && !haveJob
    {
      Stop();
      haveJob := false;
    }

    lemma LiveMining()
      requires Live()
      ensures MiningRight(Snapshot())
    {
      hide Books, CounterSound, Loaded;
    }

    /** One turn of the loop. */
    method Dispatch(e: Event) returns (ok: bool)
      requires Live() && EventOk(e)
      modifies this, extra2
      ensures ok <==> Goes(old(Snapshot()), e)
      ensures ok ==> Live() && Turn(old(Snapshot()), e, Snapshot())
      ensures Books()
      ensures past == old(past) && old(origins) <= origins
      ensures old(sent) <= sent <= old(sent) + SharesOf(old(Snapshot()), e)
    {
      hide Books, MiningSound, CounterSound, PollGoes, PollDone, LineGoes, LineDone, Shares, TheLedger, Snapshot;
      match e
      case Received(m, sendOk) =>
        ok := HandleLine(m, sendOk);
      case Poll(overflow, results, sends, finished) =>
        ok := ServiceResults(overflow, results, sends, finished);
      case Expired =>
        ok := false;
    }

    /** One turn of the loop, which records the state that it leads to. */
    method Handle(e: Event) returns (ok: bool)
      requires Live() && EventOk(e)
      modifies this, extra2
      ensures ok <==> Goes(old(Snapshot()), e)
      ensures ok ==> Live() && Turn(old(Snapshot()), e, Snapshot()) && history == old(history) + [Snapshot()]
      ensures !ok ==> history == old(history)
      ensures Books()
      ensures past == old(past) && old(origins) <= origins
      ensures old(sent) <= sent <= old(sent) + SharesOf(old(Snapshot()), e)
    {
      hide Books, MiningSound, CounterSound, EventOk, Goes, Turn, SharesOf;
      ghost var before := history;
      ok := Dispatch(e);
      history := if ok then before + [Snapshot()] else before;
    }

    /**
     * The loop of one connection. The states recorded are a run of the events, up to the first that the session cannot
     * go on after; there it ends. What it has submitted are the results of the polls, in order, and of the last poll,
     * if that is what failed, a beginning.
     */
    method Converse(events: seq<Event>) returns (ended: bool)
      requires Live() && forall i :: 0 <= i < |events| ==> EventOk(events[i])
      modifies this, extra2
      ensures Conversation(old(Snapshot()), old(history), events, history, sent, ended)
      ensures !ended ==> Live() && Snapshot() == Before(old(Snapshot()), history[|old(history)|..], |events|)
      ensures Books() && past == old(past) && old(origins) <= origins
    {
      hide Books, MiningSound, CounterSound, MiningRight, EventOk, Turn, Goes, SharesOf, RunShares;
      ghost var start := Snapshot();
      ghost var base := |history|;
      RunEmpty(start);
      for i := 0 to |events|
        invariant Live() && past == old(past) && old(origins) <= origins
        invariant old(history) <= history && |history| == base + i
        invariant Run(start, events[..i], history[base..]) && Snapshot() == Before(start, history[base..], i)
      {
        ghost var states := history[base..];
        RunSubmits(start, events[..i], states);
        var ok := Handle(events[i]);
        if !ok {
          return true;
        }
        LiveMining();
        RunExtends(start, events[..i], states, events[i], Snapshot());
        assert events[..i + 1] == events[..i] + [events[i]] && history[base..] == states + [Snapshot()];
      }
      assert events[..|events|] == events;
      RunSubmits(start, events, history[base..]);
      ended := false;
    }

    /** One connection, from reset to close. */
    method Serve(events: seq<Event>) returns (ghost start: Mining, ghost ended: bool)
      requires Books() && forall i :: 0 <= i < |events| ==> EventOk(events[i])
      modifies this, extra2
      ensures Fresh(start) && start.ledger == Reopen(old(TheLedger()))
      ensures Conversation(start, old(history), events, history, sent, ended)
      ensures Books() && !running && !haveJob
      ensures past == old(past + sent) && old(origins) <= origins
    {
      hide Books, MiningSound, CounterSound, MiningRight, Conversation, Value;
      Open();
      start := Snapshot();
      ended := Converse(events);
      Close();
    }
  }
}
