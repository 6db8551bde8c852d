/** Bookkeeping of a Stratum session: submitted shares and their replies, and the extranonce counter. */
module StratumLedger {
  import opened Words
  import opened Positional

  // ----- the extranonce counter -----

  function Pow256(n: nat): (p: nat)
    ensures p > 0
  {
    if n == 0 then 1 else Pow256(n - 1) * 256
  }

  /** Whether adding one carries out of the whole number: every byte is 255. */
  predicate AllFull(bs: seq<Byte>) {
    forall i :: 0 <= i < |bs| ==> bs[i] == 255
  }

  lemma {:induction false} CounterBound(bs: seq<Byte>)
    ensures Value(256, bs) < Pow256(|bs|)
    ensures AllFull(bs) <==> Value(256, bs) == Pow256(|bs|) - 1
  {
    if bs != [] {
      var n := |bs| - 1;
      CounterBound(bs[..n]);
      if AllFull(bs) {
        assert AllFull(bs[..n]);
      } else if AllFull(bs[..n]) && bs[n] == 255 {
        assert forall i :: 0 <= i < |bs| ==> bs[i] == if i < n then bs[..n][i] else 255;
      }
    }
  }

  /** The increment loop of `build_header`, on the first `size` bytes of the counter. */
  method Increment(counter: array<Byte>, size: nat) returns (exhausted: bool)
    requires size <= counter.Length
    modifies counter
    ensures counter[size..] == old(counter[size..])
    ensures exhausted <==> size > 0 && AllFull(old(counter[..size]))
    ensures Value(256, counter[..size]) == if size == 0 || exhausted then 0 else Value(256, old(counter[..size])) + 1
  {
    hide Value;
    exhausted := false;
    ghost var before := counter[..];
    var i := size;
    EmptyValue();
    while i > 0
      invariant 0 <= i <= size && counter[..i] == before[..i] && counter[size..] == before[size..]
      invariant !exhausted && forall k :: i <= k < size ==> before[k] == 255 && counter[k] == 0
      decreases i
    {
      i := i - 1;
      assert before[..i + 1] == before[..i] + [before[i]];
      if counter[i] != 255 {
        counter[i] := counter[i] + 1;
        assert before[..size][..i] == counter[..size][..i] by { assert before[..size][..i] == before[..i]; }
        CarryStops(before[..size], counter[..size], i);
        return;
      }
      counter[i] := 0;
    }
    if size > 0 {
      exhausted := true;
      assert AllFull(before[..size]);
    }
    ZeroValue(counter[..size]);
  }

  lemma EmptyValue()
    ensures Value(256, []) == 0
  {
  }

  lemma {:induction false} ZeroValue(bs: seq<Byte>)
    requires forall i :: 0 <= i < |bs| ==> bs[i] == 0
    ensures Value(256, bs) == 0
  {
    if bs != [] {
      ZeroValue(bs[..|bs| - 1]);
    }
  }

  /** Raising byte i and clearing the full bytes behind it adds one. */
  lemma {:induction false} CarryStops(a: seq<Byte>, b: seq<Byte>, i: nat)
    requires i < |a| == |b| && a[..i] == b[..i] && b[i] as int == a[i] as int + 1
    requires forall k :: i < k < |a| ==> a[k] == 255 && b[k] == 0
    ensures Value(256, b) == Value(256, a) + 1
  {
    var n := |a| - 1;
    if i < n {
      assert a[..n][..i] == a[..i] && b[..n][..i] == b[..i];
      CarryStops(a[..n], b[..n], i);
    } else {
      assert a[..n] == b[..n];
    }
  }

  /** The extranonces used since the last reset are 0, 1, 2, ... in order, and the counter is exhausted exactly when
      all of them have been used. */
  ghost predicate CounterOk(counter: seq<Byte>, size: nat, exhausted: bool, used: seq<seq<Byte>>) {
    && |counter| == 16 && size <= 16
    && (forall k :: 0 <= k < |used| ==> |used[k]| == size && Value(256, used[k]) == k)
    && (if exhausted then |used| == Pow256(size) else Value(256, counter[..size]) == |used|)
    && (used == [] ==> !exhausted && forall k :: 0 <= k < 16 ==> counter[k] == 0)
  }

  /** Hence no two of them are equal. */
  lemma ExtranoncesDistinct(counter: seq<Byte>, size: nat, exhausted: bool, used: seq<seq<Byte>>, i: nat, j: nat)
    requires CounterOk(counter, size, exhausted, used) && i < j < |used|
    ensures used[i] != used[j] && |used| <= Pow256(size)
  {
    CounterBound(counter[..size]);
  }

  /** The counter is exhausted after exactly 256^size headers. */
  lemma ExhaustedAfterAll(counter: seq<Byte>, size: nat, exhausted: bool, used: seq<seq<Byte>>)
    requires CounterOk(counter, size, exhausted, used)
    ensures exhausted <==> |used| == Pow256(size)
  {
    CounterBound(counter[..size]);
  }

  lemma CounterFresh(size: nat)
    requires size <= 16
    ensures CounterOk(seq(16, _ => 0), size, false, [])
  {
    ZeroValue(seq(16, _ => 0)[..size]);
  }

  lemma CounterResized(counter: seq<Byte>, size: nat, size': nat)
    requires CounterOk(counter, size, false, []) && size' <= 16
    ensures CounterOk(counter, size', false, [])
  {
    ZeroValue(counter[..size']);
  }

  lemma CounterNext(before: seq<Byte>, after: seq<Byte>, size: nat, full: bool, used: seq<seq<Byte>>)
    requires CounterOk(before, size, false, used) && size > 0 && |after| == 16
    requires full <==> AllFull(before[..size])
    requires Value(256, after[..size]) == if full then 0 else Value(256, before[..size]) + 1
    ensures CounterOk(after, size, full, used + [before[..size]])
  {
    CounterBound(before[..size]);
  }

  // ----- shares -----

  /** What a `mining.submit` request says. */
  datatype Submission = Submission(id: nat, jobId: seq<Byte>, extra2Hex: seq<Byte>, time: seq<Byte>, nonce: Word)

  /** A pending slot; id 0 is free. */
  datatype Slot = Slot(id: nat, event: Submission)

  function Occupied(pending: seq<Slot>): nat {
    if pending == [] then 0 else Occupied(pending[..|pending| - 1]) + (if pending[|pending| - 1].id != 0 then 1 else 0)
  }

  lemma {:induction false} OccupiedUpdate(pending: seq<Slot>, i: nat, s: Slot)
    requires i < |pending|
    ensures Occupied(pending[i := s])
         == Occupied(pending) - (if pending[i].id != 0 then 1 else 0) + (if s.id != 0 then 1 else 0)
  {
    var n := |pending| - 1;
    if i < n {
      OccupiedUpdate(pending[..n], i, s);
      assert pending[i := s][..n] == pending[..n][i := s];
    } else {
      assert pending[i := s][..n] == pending[..n];
    }
  }

  lemma {:induction false} OccupiedZero(pending: seq<Slot>)
    requires forall i :: 0 <= i < |pending| ==> pending[i].id == 0
    ensures Occupied(pending) == 0
  {
    if pending != [] {
      OccupiedZero(pending[..|pending| - 1]);
    }
  }

  /** There is a free slot exactly if fewer slots are occupied than there are. */
  lemma {:induction false} FreeSlots(pending: seq<Slot>)
    ensures Occupied(pending) <= |pending|
    ensures Occupied(pending) < |pending| <==> exists i :: 0 <= i < |pending| && pending[i].id == 0
  {
    if pending != [] {
      var n := |pending| - 1;
      FreeSlots(pending[..n]);
      if Occupied(pending[..n]) < n {
        var i :| 0 <= i < n && pending[..n][i].id == 0;
        assert pending[i].id == 0;
      } else {
        assert forall i :: 0 <= i < n ==> pending[i].id == pending[..n][i].id;
      }
    }
  }

  /** The ledger of one session: the shares sent so far, which of them have been answered, and the counters. */
  datatype Ledger = Ledger(pending: seq<Slot>, sent: seq<Submission>, answered: set<nat>,
                           submitted: nat, accepted: nat, rejected: nat, abandoned: nat)

  /** Ids are 4, 5, 6, ...; every sent share is either answered or in exactly one slot, with its own data; and the
      counters balance over all sessions. */
  ghost predicate LedgerOk(l: Ledger) {
    && |l.pending| == 8 && 4 + |l.sent| <= TWO32
    && (forall k :: 0 <= k < |l.sent| ==> l.sent[k].id == 4 + k)
    && (forall i :: 0 <= i < 8 && l.pending[i].id != 0 ==>
          && 4 <= l.pending[i].id < 4 + |l.sent| && l.pending[i].event == l.sent[l.pending[i].id - 4]
          && l.pending[i].id !in l.answered)
    && (forall i, j :: 0 <= i < j < 8 && l.pending[i].id != 0 ==> l.pending[i].id != l.pending[j].id)
    && (forall id :: id in l.answered ==> 4 <= id < 4 + |l.sent|)
    && |l.sent| == |l.answered| + Occupied(l.pending)
    && l.submitted == l.accepted + l.rejected + Occupied(l.pending) + l.abandoned
  }

  /** Accepted and rejected shares never exceed the submitted ones. */
  lemma AnswersBounded(l: Ledger)
    requires LedgerOk(l)
    ensures l.accepted + l.rejected <= l.submitted
  {
  }

  /** A share is sent: the next id, a free slot, one more submitted. */
  function Send(l: Ledger, slot: nat, s: Submission): Ledger
    requires slot < |l.pending|
  {
    l.(pending := l.pending[slot := Slot(s.id, s)], sent := l.sent + [s], submitted := l.submitted + 1)
  }

  lemma SendKeeps(l: Ledger, slot: nat, s: Submission)
    requires LedgerOk(l) && slot < 8 && l.pending[slot].id == 0 && s.id == 4 + |l.sent| < TWO32
    ensures LedgerOk(Send(l, slot, s))
  {
    hide Occupied;
    OccupiedUpdate(l.pending, slot, Slot(s.id, s));
    var m := Send(l, slot, s);
    assert |m.sent| == |l.sent| + 1;
  }

  /** A reply is matched to its slot: the slot is freed and the share counted once. */
  function Answer(l: Ledger, slot: nat, good: bool): Ledger
    requires slot < |l.pending|
  {
    l.(pending := l.pending[slot := l.pending[slot].(id := 0)], answered := l.answered + {l.pending[slot].id},
       accepted := if good then l.accepted + 1 else l.accepted, rejected := if good then l.rejected else l.rejected + 1)
  }

  lemma AnswerKeeps(l: Ledger, slot: nat, good: bool)
    requires LedgerOk(l) && slot < 8 && l.pending[slot].id != 0
    ensures LedgerOk(Answer(l, slot, good))
    ensures l.pending[slot].event == l.sent[l.pending[slot].id - 4] && l.pending[slot].id !in l.answered
  {
    hide Occupied;
    OccupiedUpdate(l.pending, slot, l.pending[slot].(id := 0));
  }

  /** Whether slot i waits for the reply with this id. */
  predicate Waits(l: Ledger, i: nat, id: nat) {
    i < |l.pending| && id >= 4 && l.pending[i].id == id
  }

  /** What a reply does: the slot that waits for it is answered; a reply that nothing waits for changes nothing. */
  ghost predicate Replied(l: Ledger, id: nat, good: bool, l': Ledger) {
    if exists i :: Waits(l, i, id) then exists i :: Waits(l, i, id) && l' == Answer(l, i, good) else l' == l
  }

  /** A new session forgets the outstanding shares but not the counters. */
  function Reopen(l: Ledger): Ledger {
    Ledger(seq(8, _ => Slot(0, Submission(0, [], [], [], 0))), [], {}, l.submitted, l.accepted, l.rejected,
           l.abandoned + Occupied(l.pending))
  }

  lemma ReopenKeeps(l: Ledger)
    requires LedgerOk(l)
    ensures LedgerOk(Reopen(l))
  {
    OccupiedZero(Reopen(l).pending);
  }
}
