/** One cluster's result collector: two pipeline stages in front of a ring buffer
    (rtl/bitcoin_result_cluster_fifo.sv). */
module ResultFifo {
  import opened Options
  import opened Words

  datatype Result = Result(engine: nat, nonce: Word)

  /** The valid flags and nonces presented by the lanes of the cluster in one clock. */
  datatype Ports = Ports(valid: seq<bool>, nonce: seq<Word>)

  datatype FifoIn = FifoIn(clear: bool, pop: bool, ports: Ports)

  /** The collector as a queue behind two stages; stage 1 may hold several simultaneous results. */
  datatype FifoView = FifoView(queue: seq<Result>, stage2: Option<Result>, stage1: seq<Result>,
                               overflow1: bool, overflow2: bool, overflow: bool, clearing: bool)

  const EMPTY := FifoView([], None, [], false, false, false, false)

  /** The results presented on the ports from lane i on, lowest lane first. */
  function Hits(base: nat, p: Ports, i: nat): (hits: seq<Result>)
    requires |p.valid| == |p.nonce| && i <= |p.valid|
    decreases |p.valid| - i
  {
    if i == |p.valid| then []
    else (if p.valid[i] then [Result(base + i, p.nonce[i])] else []) + Hits(base, p, i + 1)
  }

  predicate DoPop(v: FifoView, i: FifoIn) {
    i.pop && v.queue != []
  }

  predicate DoPush(depth: nat, v: FifoView, i: FifoIn) {
    v.stage2.Some? && (|v.queue| < depth || DoPop(v, i))
  }

  /** One clock edge, on the queue. */
  function FifoStep(depth: nat, base: nat, v: FifoView, i: FifoIn): FifoView
    requires |i.ports.valid| == |i.ports.nonce|
  {
    if v.clearing then EMPTY.(clearing := i.clear)
    else
      var arrivals := Hits(base, i.ports, 0);
      var kept := if DoPop(v, i) then v.queue[1..] else v.queue;
      FifoView(
        if DoPush(depth, v, i) then kept + [v.stage2.value] else kept,
        if v.stage1 == [] then None else Some(v.stage1[0]),
        arrivals,
        |arrivals| > 1,
        v.overflow1 || |v.stage1| > 1,
        v.overflow || v.overflow2 || (v.stage2.Some? && !DoPush(depth, v, i)),
        i.clear)
  }

  /** A ring index below 2 * depth, wrapped once. */
  function Wrap(depth: nat, x: nat): nat {
    if x < depth then x else x - depth
  }

  /** The ring memories read from the oldest entry. */
  function Ring(ids: seq<nat>, nonces: seq<Word>, rd: nat, count: nat): (q: seq<Result>)
    requires rd < |ids| == |nonces| && count <= |ids|
    ensures |q| == count
  {
    seq(count, i requires 0 <= i < count => Result(ids[Wrap(|ids|, rd + i)], nonces[Wrap(|ids|, rd + i)]))
  }

  lemma RingAt(ids: seq<nat>, nonces: seq<Word>, rd: nat, count: nat)
    requires rd < |ids| == |nonces| && count <= |ids|
    ensures var q := Ring(ids, nonces, rd, count);
            forall i :: 0 <= i < count ==> q[i] == Result(ids[Wrap(|ids|, rd + i)], nonces[Wrap(|ids|, rd + i)])
  {
  }

  lemma RingPush(ids: seq<nat>, nonces: seq<Word>, rd: nat, count: nat, x: Result)
    requires rd < |ids| == |nonces| && count < |ids|
    ensures var w := Wrap(|ids|, rd + count);
            Ring(ids[w := x.engine], nonces[w := x.nonce], rd, count + 1) == Ring(ids, nonces, rd, count) + [x]
  {
    var w := Wrap(|ids|, rd + count);
    RingAt(ids, nonces, rd, count);
    RingAt(ids[w := x.engine], nonces[w := x.nonce], rd, count + 1);
  }

  lemma RingPop(ids: seq<nat>, nonces: seq<Word>, rd: nat, count: nat)
    requires rd < |ids| == |nonces| && 0 < count <= |ids|
    ensures Ring(ids, nonces, Wrap(|ids|, rd + 1), count - 1) == Ring(ids, nonces, rd, count)[1..]
  {
    RingAt(ids, nonces, rd, count);
    RingAt(ids, nonces, Wrap(|ids|, rd + 1), count - 1);
  }

  /** The registers of the two stages and the flags. */
  datatype Stages = Stages(stage1: Ports, overflow1: bool, stage2Valid: bool, stage2: Result,
                           overflow2: bool, overflow: bool, clearing: bool)

  function ViewOf(base: nat, queue: seq<Result>, s: Stages): FifoView
    requires |s.stage1.valid| == |s.stage1.nonce|
  {
    FifoView(queue, if s.stage2Valid then Some(s.stage2) else None, Hits(base, s.stage1, 0),
             s.overflow1, s.overflow2, s.overflow, s.clearing)
  }

  /** The stage registers after a clock, from what the priority encoder saw on the ports and in stage 1. */
  function NextStages(base: nat, s: Stages, i: FifoIn, inputs: nat, held: nat, hit: int, lost: bool): Stages
    requires hit < |s.stage1.nonce|
  {
    Stages(i.ports, inputs > 1, hit >= 0, if hit >= 0 then Result(base + hit, s.stage1.nonce[hit]) else Result(0, 0),
           s.overflow1 || held > 1, s.overflow || s.overflow2 || lost, i.clear)
  }

  ghost predicate Encodes(base: nat, p: Ports, hits: nat, hit: int)
    requires |p.valid| == |p.nonce|
  {
    && hits == |Hits(base, p, 0)| && (hit < 0 <==> Hits(base, p, 0) == []) && hit < |p.nonce|
    && (hit >= 0 ==> Hits(base, p, 0)[0] == Result(base + hit, p.nonce[hit]))
  }

  lemma StagesRefine(depth: nat, base: nat, q: seq<Result>, s: Stages, i: FifoIn, inputs: nat, held: nat, hit: int)
    requires |s.stage1.valid| == |s.stage1.nonce| && |i.ports.valid| == |i.ports.nonce|
    requires !s.clearing && inputs == |Hits(base, i.ports, 0)| && Encodes(base, s.stage1, held, hit)
    ensures ViewOf(base, NextQueue(depth, q, s, i), NextStages(base, s, i, inputs, held, hit, Lost(depth, q, s, i)))
         == FifoStep(depth, base, ViewOf(base, q, s), i)
  {
    hide Hits;
  }

  predicate Lost(depth: nat, q: seq<Result>, s: Stages, i: FifoIn) {
    s.stage2Valid && |q| >= depth && !(i.pop && q != [])
  }

  function NextQueue(depth: nat, q: seq<Result>, s: Stages, i: FifoIn): seq<Result> {
    var kept := if i.pop && q != [] then q[1..] else q;
    if s.stage2Valid && (|q| < depth || (i.pop && q != [])) then kept + [s.stage2] else kept
  }

  class Fifo {
    const base: nat
    const size: nat
    const depth: nat
    const engineMem: array<nat>
    const nonceMem: array<Word>
    var wr: nat
    var rd: nat
    var count: nat
    var stages: Stages

    ghost predicate Valid()
      reads this
    {
      && 0 < depth && engineMem.Length == depth && nonceMem.Length == depth
      && rd < depth && count <= depth && wr == Wrap(depth, rd + count)
      && |stages.stage1.valid| == size && |stages.stage1.nonce| == size
    }

    ghost function Queue(): seq<Result>
      requires Valid()
      reads this, engineMem, nonceMem
    {
      Ring(engineMem[..], nonceMem[..], rd, count)
    }

    ghost function View(): FifoView
      requires Valid()
      reads this, engineMem, nonceMem
    {
      ViewOf(base, Queue(), stages)
    }

    constructor (cluster: nat, size: nat, depth: nat)
      requires 0 < depth
      ensures Valid() && this.base == cluster * size && this.size == size && this.depth == depth
      ensures fresh(engineMem) && fresh(nonceMem)
      ensures View() == EMPTY
    {
      this.base, this.size, this.depth := cluster * size, size, depth;
      engineMem := new nat[depth](_ => 0);
      nonceMem := new Word[depth](_ => 0);
      wr, rd, count := 0, 0, 0;
      stages := Stages(Ports(seq(size, _ => false), seq(size, _ => 0)), false, false, Result(0, 0), false, false,
          false);
      new;
      NoHits(base, stages.stage1, 0);
    }

    /** The head of the ring drives `engine_id_o` and `nonce_o`; `valid_o` tells whether there is one. */
    method Head() returns (valid: bool, r: Result)
      requires Valid()
      ensures valid <==> View().queue != []
      ensures valid ==> r == View().queue[0]
    {
      hide Hits;
      RingAt(engineMem[..], nonceMem[..], rd, count);
      valid := count != 0;
      r := Result(engineMem[rd], nonceMem[rd]);
    }

    /** The priority encoder: how many ports are valid and which is the first. */
    method Scan(p: Ports) returns (hits: nat, hit: int)
      requires |p.valid| == |p.nonce|
      ensures Encodes(base, p, hits, hit)
    {
      hits, hit := 0, -1;
      for i := 0 to |p.valid|
        invariant hits + |Hits(base, p, i)| == |Hits(base, p, 0)|
        invariant hit < 0 ==> hits == 0 && Hits(base, p, i) == Hits(base, p, 0)
        invariant hit >= 0 ==> hits > 0 && hit < i && Hits(base, p, 0)[0] == Result(base + hit, p.nonce[hit])
      {
        if p.valid[i] {
          hits := hits + 1;
          if hit < 0 {
            hit := i;
          }
        }
      }
    }

    /** One rising clock edge. */
    method Clock(i: FifoIn)
      requires Valid()
      requires |i.ports.valid| == size && |i.ports.nonce| == size
      modifies this, engineMem, nonceMem
      ensures Valid()
      ensures View() == FifoStep(depth, base, old(View()), i)
    {
      if stages.clearing {
        wr, rd, count := 0, 0, 0;
        var idle := Ports(seq(size, _ => false), stages.stage1.nonce);
        stages := Stages(idle, false, false, stages.stage2, false, false, i.clear);
        NoHits(base, idle, 0);
      } else {
        Advance(i);
      }
    }

    method Advance(i: FifoIn)
      requires Valid() && !stages.clearing
      requires |i.ports.valid| == size && |i.ports.nonce| == size
      modifies this, engineMem, nonceMem
      ensures Valid()
      ensures View() == FifoStep(depth, base, old(View()), i)
    {
      hide Ring, Hits, ViewOf, FifoStep, Wrap;
      ghost var q := Queue();
      var inputs, _ := Scan(i.ports);
      var held, hit := Scan(stages.stage1);
      var doPop := i.pop && count != 0;
      var doPush := stages.stage2Valid && (count < depth || doPop);
      StagesRefine(depth, base, q, stages, i, inputs, held, hit);
      MoveRing(doPop, doPush);
      ghost var q' := Queue();
      assert q' == NextQueue(depth, q, stages, i);
      stages := NextStages(base, stages, i, inputs, held, hit, stages.stage2Valid && !doPush);
      assert Queue() == q';
    }

    /** Push stage 2 and pop the head, in either combination, also when the ring is full. */
    method MoveRing(doPop: bool, doPush: bool)
      requires Valid()
      requires doPop ==> count > 0
      requires doPush ==> count < depth || doPop
      modifies `wr, `rd, `count, engineMem, nonceMem
      ensures Valid()
      ensures Queue() == (if doPop then old(Queue())[1..] else old(Queue())) + (if doPush then [stages.stage2] else [])
    {
      hide Ring;
      var x := stages.stage2;
      ghost var ids, nonces, popped := engineMem[..], nonceMem[..], if doPop then 1 else 0;
      if doPop {
        RingPop(ids, nonces, rd, count);
      }
      if doPush {
        RingPush(ids, nonces, Wrap(depth, rd + popped), count - popped, x);
        engineMem[wr], nonceMem[wr] := x.engine, x.nonce;
        wr := if wr == depth - 1 then 0 else wr + 1;
      }
      if doPop {
        rd := if rd == depth - 1 then 0 else rd + 1;
      }
      count := if doPush && !doPop then count + 1 else if doPop && !doPush then count - 1 else count;
    }
  }

  lemma {:induction false} NoHits(base: nat, p: Ports, i: nat)
    requires |p.valid| == |p.nonce| && i <= |p.valid|
    requires forall j :: 0 <= j < |p.valid| ==> !p.valid[j]
    ensures Hits(base, p, i) == []
    decreases |p.valid| - i
  {
    if i < |p.valid| {
      NoHits(base, p, i + 1);
    }
  }

  function FifoRun(depth: nat, base: nat, v: FifoView, ins: seq<FifoIn>): FifoView
    requires WellFormed(ins)
  {
    if ins == [] then v else FifoStep(depth, base, FifoRun(depth, base, v, ins[..|ins| - 1]), ins[|ins| - 1])
  }

  ghost predicate WellFormed(ins: seq<FifoIn>) {
    forall j :: 0 <= j < |ins| ==> |ins[j].ports.valid| == |ins[j].ports.nonce|
  }

  /** The results taken from the head of the queue along a run. */
  ghost function Popped(depth: nat, base: nat, v: FifoView, ins: seq<FifoIn>): seq<Result>
    requires WellFormed(ins)
  {
    if ins == [] then []
    else
      var w := FifoRun(depth, base, v, ins[..|ins| - 1]);
      Popped(depth, base, v, ins[..|ins| - 1]) + (if DoPop(w, ins[|ins| - 1]) then [w.queue[0]] else [])
  }

  /** The results presented on the ports along a run. */
  ghost function Arrived(base: nat, ins: seq<FifoIn>): seq<Result>
    requires WellFormed(ins)
  {
    if ins == [] then [] else Arrived(base, ins[..|ins| - 1]) + Hits(base, ins[|ins| - 1].ports, 0)
  }

  /** The results still on their way to the head. */
  function Held(v: FifoView): seq<Result> {
    v.queue + Contents(v.stage2) + First(v.stage1)
  }

  /** No overflow is flagged or on its way to being flagged. */
  predicate Clean(v: FifoView) {
    !v.overflow && !v.overflow2 && !v.overflow1 && |v.stage1| <= 1
  }

  /** One clock moves results along the queue; a result disappears exactly when the collector stops being clean. */
  lemma FifoConserves(depth: nat, base: nat, v: FifoView, i: FifoIn)
    requires |i.ports.valid| == |i.ports.nonce| && !v.clearing && Clean(v)
    ensures var w := FifoStep(depth, base, v, i);
            var out := if DoPop(v, i) then [v.queue[0]] else [];
            var all := Held(v) + Hits(base, i.ports, 0);
            if Clean(w) then out + Held(w) == all else |out + Held(w)| < |all|
  {
    hide Hits;
    var w, arrivals := FifoStep(depth, base, v, i), Hits(base, i.ports, 0);
    var out := if DoPop(v, i) then [v.queue[0]] else [];
    var kept := if DoPop(v, i) then v.queue[1..] else v.queue;
    assert out + kept == v.queue;
    if v.stage2.None? || DoPush(depth, v, i) {
      FiveParts(out, kept, Contents(v.stage2), First(v.stage1), First(arrivals));
      assert Held(v) == v.queue + Contents(v.stage2) + First(v.stage1);
      assert Held(w) == kept + Contents(v.stage2) + First(v.stage1) + First(arrivals);
    } else {
      assert !Clean(w);
    }
  }

  function Contents(o: Option<Result>): seq<Result> {
    if o.Some? then [o.value] else []
  }

  function First(s: seq<Result>): seq<Result> {
    if s == [] then [] else [s[0]]
  }

  lemma FiveParts(a: seq<Result>, b: seq<Result>, c: seq<Result>, d: seq<Result>, e: seq<Result>)
    ensures a + (b + c + d + e) == (a + b) + c + d + e
  {
  }

  lemma UncleanStays(depth: nat, base: nat, v: FifoView, i: FifoIn)
    requires |i.ports.valid| == |i.ports.nonce| && !v.clearing && !Clean(v)
    ensures !Clean(FifoStep(depth, base, v, i))
    ensures var w := FifoStep(depth, base, v, i);
            |(if DoPop(v, i) then [v.queue[0]] else []) + Held(w)| <= |Held(v) + Hits(base, i.ports, 0)|
  {
    hide Hits;
  }

  ghost predicate NoClear(ins: seq<FifoIn>) {
    forall j :: 0 <= j < |ins| ==> !ins[j].clear
  }

  /**
   * From lane pulse to head of the queue: along any run without a flush, what came out followed by what is still held
   * is exactly what was held and what came in, in order, if and only if no overflow is flagged or in flight.
   */
  lemma {:induction false} FifoIsQueue(depth: nat, base: nat, v: FifoView, ins: seq<FifoIn>)
    requires WellFormed(ins) && NoClear(ins) && !v.clearing && Clean(v)
    ensures var w := FifoRun(depth, base, v, ins);
            var out := Popped(depth, base, v, ins) + Held(w);
            var all := Held(v) + Arrived(base, ins);
            !w.clearing && |out| <= |all| && (Clean(w) <==> out == all) && (Clean(w) <==> |out| == |all|)
  {
    hide Hits, FifoStep, Held, Clean;
    if ins == [] {
      assert Held(v) + [] == Held(v) && [] + Held(v) == Held(v);
    } else {
      var n := |ins| - 1;
      var init, last := ins[..n], ins[n];
      FifoIsQueue(depth, base, v, init);
      var u := FifoRun(depth, base, v, init);
      NotClearing(depth, base, u, last);
      if Clean(u) {
        FifoConserves(depth, base, u, last);
        var step := if DoPop(u, last) then [u.queue[0]] else [];
        var w := FifoStep(depth, base, u, last);
        assert Popped(depth, base, v, ins) + Held(w) == Popped(depth, base, v, init) + (step + Held(w));
        assert Held(v) + Arrived(base, ins) == (Held(v) + Arrived(base, init)) + Hits(base, last.ports, 0);
        assert Popped(depth, base, v, init) + (Held(u) + Hits(base, last.ports, 0))
            == (Popped(depth, base, v, init) + Held(u)) + Hits(base, last.ports, 0);
      } else {
        UncleanStays(depth, base, u, last);
      }
    }
  }

  lemma NotClearing(depth: nat, base: nat, v: FifoView, i: FifoIn)
    requires |i.ports.valid| == |i.ports.nonce| && !i.clear
    ensures !FifoStep(depth, base, v, i).clearing
  {
    hide Hits;
  }
}
