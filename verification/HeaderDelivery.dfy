/** What the 256 ranges of a header deliver together: every share over all nonce words, once. */
module HeaderDelivery {
  import opened Words
  import opened Sha256Message
  import opened ShareHash
  import opened ResultFifo
  import opened MinerControl
  import opened MiningBatch
  import opened BatchDelivery
  import opened MinerLifecycle
  import opened BatchShares
  import opened HeaderRanges

  /** One range: its reports are exact, and so are its acknowledged results unless overflow is flagged, when some are
      missing. */
  lemma RangeExact(p: Params, s: Sys, x: Range, r: Job, k: nat, header: seq<Byte>)
    requires RestsBefore(s, r, k) && RangeSeen(p, s, x, r, k)
    requires |header| == 80 && r.midstate == Midstate(header) && r.tail == TailWords(header)
    ensures var j, acked, made := RangeJob(r, k), RangeAcked(p, s, x), Made(p, RangeJob(r, k), |x.ws + x.idle|);
            var overflow := AfterRange(p, s, x).ctl.status.overflow;
            && ExactlyTheShares(j, header, made) && (ExactlyTheShares(j, header, acked) <==> !overflow)
            && |acked| <= |made| && (overflow <==> |acked| < |made|)
  {
    hide SysStep, SysRun, Silent, Emptied, Acked, BatchEnd, Delivered, LoadOk, RestsBefore, Midstate, TailWords,
         ExactlyTheShares, Made;
    RangeStarts(p, s, x, r, k);
    var j, n := RangeJob(r, k), |x.ws + x.idle|;
    DoneAndEmptyMeansDelivered(p, SysRun(p, s, x.load), x.ws, x.idle);
    DeliveredIsExact(p, j, n, AfterRange(p, s, x).ctl.status.overflow, RangeAcked(p, s, x), header);
    MadeIsExact(p, j, n, header);
  }

  // ----- counting nonces -----

  function Nonces(rs: seq<Result>): (ns: seq<Word>)
    ensures |ns| == |rs|
  {
    seq(|rs|, i requires 0 <= i < |rs| => rs[i].nonce)
  }

  lemma NoncesAppend(a: seq<Result>, b: seq<Result>)
    ensures Nonces(a + b) == Nonces(a) + Nonces(b)
  {
  }

  /** If only one result has a certain nonce, the nonce occurs as often as that result. */
  lemma {:induction false} CountNonce(rs: seq<Result>, v: Result)
    requires forall r :: r in rs && r.nonce == v.nonce ==> r == v
    ensures multiset(Nonces(rs))[v.nonce] == multiset(rs)[v]
  {
    if rs != [] {
      var n := |rs| - 1;
      assert rs == rs[..n] + [rs[n]];
      CountNonce(rs[..n], v);
      NoncesAppend(rs[..n], [rs[n]]);
      assert Nonces([rs[n]]) == [rs[n].nonce];
    }
  }

  lemma NonceOfRange(r: Job, k: nat, m: nat, y: Word)
    requires k < 256 && m < RANGE
    ensures BatchNonce(RangeJob(r, k), m) == y <==> y / RANGE == k && y % RANGE == m
  {
  }

  /** A range delivers exactly the share nonces between k * 2^24 and (k + 1) * 2^24, each once. */
  lemma ExactNonces(r: Job, k: nat, header: seq<Byte>, rs: seq<Result>, y: Word)
    requires k < 256 && |header| == 80 && ExactlyTheShares(RangeJob(r, k), header, rs)
    ensures multiset(Nonces(rs))[y] == if y / RANGE == k && IsShare(header, y, r.target) then 1 else 0
  {
    hide IsShare, BatchNonce, Nonces;
    var j, m := RangeJob(r, k), y % RANGE;
    NonceOfRange(r, k, m, y);
    var v := if y / RANGE == k then BatchResult(j, m) else Result(3, y);
    forall q | q in rs && q.nonce == y
      ensures y / RANGE == k && q == BatchResult(j, m)
    {
      var i: nat :| i < j.nonceCount && q == BatchResult(j, i);
      NonceOfRange(r, k, i, y);
    }
    CountNonce(rs, v);
    if y / RANGE != k {
      assert v !in rs;
    }
  }

  // ----- all ranges -----

  /** The results acknowledged in all ranges, and the reports of all ranges. */
  ghost function AllAcked(p: Params, s: Sys, xs: seq<Range>): seq<Result> {
    if xs == [] then []
    else
      var n := |xs| - 1;
      AllAcked(p, s, xs[..n]) + RangeAcked(p, AfterRanges(p, s, xs[..n]), xs[n])
  }

  ghost function AllMade(p: Params, r: Job, xs: seq<Range>): seq<Result> {
    if xs == [] then []
    else
      var n := |xs| - 1;
      AllMade(p, r, xs[..n]) + Made(p, RangeJob(r, n), |xs[n].ws + xs[n].idle|)
  }

  /** No range ended with the overflow flag up. */
  ghost predicate NoOverflow(p: Params, s: Sys, xs: seq<Range>) {
    forall k :: 0 <= k < |xs| ==> !AfterRange(p, AfterRanges(p, s, xs[..k]), xs[k]).ctl.status.overflow
  }

  /** Among these nonces, every share below the end of range n occurs once, and nothing else occurs. */
  ghost predicate ExactBelow(header: seq<Byte>, t: Target, n: nat, nonces: seq<Word>)
    requires |header| == 80
  {
    forall y: Word :: multiset(nonces)[y] == if y / RANGE < n && IsShare(header, y, t) then 1 else 0
  }

  lemma ExactStep(r: Job, n: nat, header: seq<Byte>, a: seq<Result>, b: seq<Result>)
    requires n < 256 && |header| == 80 && ExactBelow(header, r.target, n, Nonces(a))
        && ExactlyTheShares(RangeJob(r, n), header, b)
    ensures ExactBelow(header, r.target, n + 1, Nonces(a + b))
  {
    hide IsShare, Nonces, ExactlyTheShares;
    NoncesAppend(a, b);
    forall y: Word
      ensures multiset(Nonces(a + b))[y] == if y / RANGE < n + 1 && IsShare(header, y, r.target) then 1 else 0
    {
      ExactNonces(r, n, header, b, y);
    }
  }

  lemma NothingBelow(header: seq<Byte>, t: Target)
    requires |header| == 80
    ensures ExactBelow(header, t, 0, Nonces([]))
  {
    hide IsShare;
    assert Nonces([]) == [];
  }

  lemma OverflowPrefix(p: Params, s: Sys, xs: seq<Range>)
    requires xs != []
    ensures var n := |xs| - 1;
            NoOverflow(p, s, xs)
            <==> NoOverflow(p, s, xs[..n]) && !AfterRange(p, AfterRanges(p, s, xs[..n]), xs[n]).ctl.status.overflow
  {
    hide AfterRange, AfterRanges;
    var n := |xs| - 1;
    assert forall k :: 0 <= k < n ==> xs[..n][..k] == xs[..k] && xs[..n][k] == xs[k];
  }

  /** The reports of the ranges are exact; the acknowledged results are, if no range overflowed; and otherwise there are
      fewer of them. */
  lemma {:induction false} RangesExact(p: Params, s: Sys, xs: seq<Range>, r: Job, header: seq<Byte>)
    requires Silent(s) && s.ctl.job == RangeJob(r, 0) && RangesSeen(p, s, xs, r) && |xs| <= 256
    requires |header| == 80 && r.midstate == Midstate(header) && r.tail == TailWords(header)
    ensures ExactBelow(header, r.target, |xs|, Nonces(AllMade(p, r, xs)))
    ensures NoOverflow(p, s, xs) ==> ExactBelow(header, r.target, |xs|, Nonces(AllAcked(p, s, xs)))
    ensures |AllAcked(p, s, xs)| <= |AllMade(p, r, xs)|
    ensures !NoOverflow(p, s, xs) ==> |AllAcked(p, s, xs)| < |AllMade(p, r, xs)|
  {
    hide Silent, RangeSeen, RangeAcked, AfterRange, ExactBelow, ExactlyTheShares, NoOverflow, Made, Midstate,
         TailWords, Nonces, RestsBefore;
    if xs == [] {
      NothingBelow(header, r.target);
      NoRangesNoOverflow(p, s);
    } else {
      var n := |xs| - 1;
      SeenPrefix(p, s, xs, r, n);
      RangesExact(p, s, xs[..n], r, header);
      RangesRest(p, s, xs[..n], r);
      var t := AfterRanges(p, s, xs[..n]);
      RangeExact(p, t, xs[n], r, n, header);
      OverflowPrefix(p, s, xs);
      ExactStep(r, n, header, AllMade(p, r, xs[..n]), Made(p, RangeJob(r, n), |xs[n].ws + xs[n].idle|));
      if NoOverflow(p, s, xs) {
        ExactStep(r, n, header, AllAcked(p, s, xs[..n]), RangeAcked(p, t, xs[n]));
      }
    }
  }

  lemma NoRangesNoOverflow(p: Params, s: Sys)
    ensures NoOverflow(p, s, [])
  {
  }

  lemma ExactSameLength(header: seq<Byte>, t: Target, n: nat, a: seq<Word>, b: seq<Word>)
    requires |header| == 80 && ExactBelow(header, t, n, a) && ExactBelow(header, t, n, b)
    ensures |a| == |b|
  {
    hide IsShare;
    assert forall y: Word :: multiset(a)[y] == multiset(b)[y];
    assert multiset(a) == multiset(b);
    assert |a| == |multiset(a)| && |b| == |multiset(b)|;
  }

  /** The acknowledged nonces are exactly the share nonces of a header among all 2^32 words, each once. */
  ghost predicate HeaderExact(header: seq<Byte>, t: Target, nonces: seq<Word>)
    requires |header| == 80
  {
    forall y: Word :: multiset(nonces)[y] == if IsShare(header, y, t) then 1 else 0
  }

  lemma AllWordsBelow(header: seq<Byte>, t: Target, nonces: seq<Word>)
    requires |header| == 80
    ensures ExactBelow(header, t, 256, nonces) <==> HeaderExact(header, t, nonces)
  {
    hide IsShare;
    assert forall y: Word :: y / RANGE < 256;
  }

  /**
   * The 256 ranges of a header, each started where the one before was seen done and empty: the acknowledged results of
   * all of them are the shares of the header over all nonce words, each exactly once and nothing else, if and only if
   * no range ended with overflow flagged.
   */
  lemma RangesCoverNonceSpace(p: Params, s: Sys, xs: seq<Range>, r: Job, header: seq<Byte>)
    requires Silent(s) && s.ctl.job == RangeJob(r, 0) && RangesSeen(p, s, xs, r) && |xs| == 256
    requires |header| == 80 && r.midstate == Midstate(header) && r.tail == TailWords(header)
    ensures HeaderExact(header, r.target, Nonces(AllAcked(p, s, xs))) <==> NoOverflow(p, s, xs)
  {
    hide Silent, RangesSeen, AllAcked, AllMade, HeaderExact, ExactBelow, NoOverflow, Midstate, TailWords, Nonces;
    RangesExact(p, s, xs, r, header);
    var acked, made := Nonces(AllAcked(p, s, xs)), Nonces(AllMade(p, r, xs));
    AllWordsBelow(header, r.target, acked);
    if ExactBelow(header, r.target, 256, acked) {
      ExactSameLength(header, r.target, 256, acked, made);
    }
  }
}
