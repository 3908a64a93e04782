/**
 Pipeline mode: an RX thread, the worker and a TX thread joined by two bounded rings
 (src/dpdk/netif.cpp, src/base/ring.hpp). Each ring operation, NIC call and free is one step of
 its thread, and steps of the three threads interleave freely.
 */
module Pipeline {
  import opened Base

  const IO_BURST := 32

  /** A burst handed on as far as `taken`; the rest of it was freed. */
  datatype Burst = Burst(ids: seq<Mbuf>, taken: nat)

  datatype RxThread = RxIdle | Pushing(burst: seq<Mbuf>, enqueued: nat)
  datatype Sender = NotSending | Sending(batch: seq<Mbuf>, sent: nat)
  datatype TxThread = TxIdle | Popped(batch: seq<Mbuf>)

  /**
   The rings, each thread's local state, and histories: bursts received and transmitted with how
   much of each was taken, everything pushed on and popped from each ring, and what the worker
   created, freed and handed to `send_burst`.
   */
  datatype Pipe = Pipe(
    capacity: nat,
    rxRing: seq<Mbuf>, txRing: seq<Mbuf>,
    rx: RxThread, sender: Sender, tx: TxThread,
    received: seq<Burst>, rxIn: seq<Mbuf>, rxOut: seq<Mbuf>,
    created: seq<Mbuf>, dropped: seq<Mbuf>, handed: seq<Mbuf>,
    txIn: seq<Mbuf>, txOut: seq<Mbuf>, transmitted: seq<Burst>)

  function Empty(capacity: nat): Pipe {
    Pipe(capacity, [], [], RxIdle, NotSending, TxIdle, [], [], [], [], [], [], [], [], [])
  }

  lemma {:induction false} CountConcat(a: seq<Mbuf>, b: seq<Mbuf>, m: Mbuf)
    ensures Occurrences(a + b, m) == Occurrences(a, m) + Occurrences(b, m)
    decreases |b|
  {
    if b == [] {
      assert a + b == a;
    } else {
      var k := |b| - 1;
      CountConcat(a, b[..k], m);
      assert (a + b)[..|a + b| - 1] == a + b[..k];
    }
  }

  /**
   How often the worker has `m` in its hands, by what it took, made, freed and handed over.
   `PipelinedGateway` proves that this is what the gateway's own lists have.
   */
  ghost function Held(s: Pipe, m: Mbuf): int {
    Occurrences(s.rxOut, m) + Occurrences(s.created, m) - Occurrences(s.dropped, m) - Occurrences(s.handed, m)
  }

  datatype Step =
    | NicReceives(ids: seq<Mbuf>)
    | RxPush
    | WorkerPops(max: nat)
    | WorkerAllocates(m: Mbuf)
    | WorkerFrees(m: Mbuf)
    | WorkerSends(batch: seq<Mbuf>)
    | WorkerPush
    | TxPop
    | NicTransmits(accepted: nat)

  /** The worker frees and sends only what it holds. */
  ghost predicate Enabled(s: Pipe, step: Step) {
    match step
    case NicReceives(ids) => s.rx.RxIdle? && 0 < |ids| <= IO_BURST
    case RxPush => s.rx.Pushing? && s.rx.enqueued < |s.rx.burst| && |s.rxRing| <= s.capacity
    case WorkerPops(_) => true
    case WorkerAllocates(_) => true
    case WorkerFrees(m) => Held(s, m) > 0
    case WorkerSends(batch) => s.sender.NotSending? && batch != [] && forall m :: Occurrences(batch, m) <= Held(s, m)
    case WorkerPush => s.sender.Sending? && s.sender.sent < |s.sender.batch| && |s.txRing| <= s.capacity
    case TxPop => s.tx.TxIdle? && s.txRing != []
    case NicTransmits(accepted) => s.tx.Popped? && accepted <= |s.tx.batch|
  }

  /** One turn of the loop in `nic_recv`: push what fits; if nothing does, free the rest. */
  ghost function PushRx(s: Pipe): Pipe
    requires Enabled(s, RxPush)
  {
    var b, e := s.rx.burst, s.rx.enqueued;
    var got := Min(s.capacity - |s.rxRing|, |b| - e);
    if got == 0 then s.(rx := RxIdle, received := s.received + [Burst(b, e)])
    else
      var s1 := s.(rxRing := s.rxRing + b[e..e + got], rxIn := s.rxIn + b[e..e + got]);
      if e + got == |b| then s1.(rx := RxIdle, received := s.received + [Burst(b, |b|)])
      else s1.(rx := Pushing(b, e + got))
  }

  /** One turn of the loop in `send_burst`: push what fits; if nothing does, try again later. */
  ghost function PushTx(s: Pipe): Pipe
    requires Enabled(s, WorkerPush)
  {
    var b, e := s.sender.batch, s.sender.sent;
    var got := Min(s.capacity - |s.txRing|, |b| - e);
    s.(txRing := s.txRing + b[e..e + got], txIn := s.txIn + b[e..e + got],
       sender := if e + got == |b| then NotSending else Sending(b, e + got))
  }

  ghost function Apply(s: Pipe, step: Step): Pipe
    requires Enabled(s, step)
  {
    match step
    case NicReceives(ids) => s.(rx := Pushing(ids, 0))
    case RxPush => PushRx(s)
    case WorkerPops(max) =>
      var k := Min(max, |s.rxRing|);
      s.(rxRing := s.rxRing[k..], rxOut := s.rxOut + s.rxRing[..k])
    case WorkerAllocates(m) => s.(created := s.created + [m])
    case WorkerFrees(m) => s.(dropped := s.dropped + [m])
    case WorkerSends(batch) => s.(handed := s.handed + batch, sender := Sending(batch, 0))
    case WorkerPush => PushTx(s)
    case TxPop =>
      var k := Min(IO_BURST, |s.txRing|);
      s.(txRing := s.txRing[k..], txOut := s.txOut + s.txRing[..k], tx := Popped(s.txRing[..k]))
    case NicTransmits(accepted) =>
      s.(tx := TxIdle, transmitted := s.transmitted + [Burst(s.tx.batch, accepted)])
  }

  // ------------------------------------------------------------- what is kept

  function TakenOf(b: Burst): seq<Mbuf> {
    if b.taken <= |b.ids| then b.ids[..b.taken] else b.ids
  }

  function LostOf(b: Burst): seq<Mbuf> {
    if b.taken <= |b.ids| then b.ids[b.taken..] else []
  }

  /** All bursts, the parts of them that were taken, and the parts that were freed, in order. */
  function All(bs: seq<Burst>): seq<Mbuf> {
    if bs == [] then [] else All(bs[..|bs| - 1]) + bs[|bs| - 1].ids
  }

  function Taken(bs: seq<Burst>): seq<Mbuf> {
    if bs == [] then [] else Taken(bs[..|bs| - 1]) + TakenOf(bs[|bs| - 1])
  }

  function Lost(bs: seq<Burst>): seq<Mbuf> {
    if bs == [] then [] else Lost(bs[..|bs| - 1]) + LostOf(bs[|bs| - 1])
  }

  lemma BurstSnoc(bs: seq<Burst>, b: Burst)
    ensures All(bs + [b]) == All(bs) + b.ids
    ensures Taken(bs + [b]) == Taken(bs) + TakenOf(b)
    ensures Lost(bs + [b]) == Lost(bs) + LostOf(b)
  {
    assert (bs + [b])[..|bs|] == bs;
  }

  lemma {:induction false} TakenPlusLost(bs: seq<Burst>, m: Mbuf)
    ensures Occurrences(All(bs), m) == Occurrences(Taken(bs), m) + Occurrences(Lost(bs), m)
  {
    if bs != [] {
      hide Occurrences, TakenOf, LostOf;
      var k := |bs| - 1;
      var b := bs[k];
      TakenPlusLost(bs[..k], m);
      CountConcat(All(bs[..k]), b.ids, m);
      CountConcat(Taken(bs[..k]), TakenOf(b), m);
      CountConcat(Lost(bs[..k]), LostOf(b), m);
      SplitBurst(b, m);
    }
  }

  lemma SplitBurst(b: Burst, m: Mbuf)
    ensures Occurrences(b.ids, m) == Occurrences(TakenOf(b), m) + Occurrences(LostOf(b), m)
  {
    CountConcat(TakenOf(b), LostOf(b), m);
    hide Occurrences;
    assert TakenOf(b) + LostOf(b) == b.ids;
  }

  function RxDone(s: Pipe): seq<Mbuf> {
    if s.rx.Pushing? && s.rx.enqueued <= |s.rx.burst| then s.rx.burst[..s.rx.enqueued] else []
  }

  function RxLeft(s: Pipe): seq<Mbuf> {
    if s.rx.Pushing? && s.rx.enqueued <= |s.rx.burst| then s.rx.burst[s.rx.enqueued..] else []
  }

  function TxLeft(s: Pipe): seq<Mbuf> {
    if s.sender.Sending? && s.sender.sent <= |s.sender.batch| then s.sender.batch[s.sender.sent..] else []
  }

  function InTxThread(s: Pipe): seq<Mbuf> {
    if s.tx.Popped? then s.tx.batch else []
  }

  /**
   The RX side: what went on the ring is, in order, a prefix of every burst the NIC delivered; the
   ring gives it out in that order; so only tails of bursts are lost.
   */
  ghost predicate RxInv(s: Pipe) {
    && |s.rxRing| <= s.capacity
    && (s.rx.Pushing? ==> s.rx.enqueued < |s.rx.burst|)
    && s.rxIn == Taken(s.received) + RxDone(s)
    && s.rxIn == s.rxOut + s.rxRing
  }

  /** The worker: what it handed over goes on the ring in that order, and it never gave up what it did not hold. */
  ghost predicate WorkerInv(s: Pipe) {
    && (s.sender.Sending? ==> s.sender.sent < |s.sender.batch|)
    && s.handed == s.txIn + TxLeft(s)
    && forall m :: 0 <= Held(s, m)
  }

  /** The TX side: the ring gives out in push order, and each batch goes to the NIC in turn. */
  ghost predicate TxInv(s: Pipe) {
    && |s.txRing| <= s.capacity
    && s.txIn == s.txOut + s.txRing
    && s.txOut == All(s.transmitted) + InTxThread(s)
  }

  ghost predicate Inv(s: Pipe) {
    RxInv(s) && WorkerInv(s) && TxInv(s)
  }

  lemma Cut(b: seq<Mbuf>, e: nat, n: nat)
    requires e + n <= |b|
    ensures b[..e] + b[e..e + n] == b[..e + n]
    ensures b[e..e + n] + b[e + n..] == b[e..]
    ensures b[..|b|] == b && b[0..] == b && b[|b|..] == []
  {
  }

  lemma Nothing(a: seq<Mbuf>)
    ensures a + [] == a
  {
  }

  lemma PushRxFull(s: Pipe)
    requires RxInv(s) && Enabled(s, RxPush) && |s.rxRing| == s.capacity
    ensures RxInv(PushRx(s))
  {
    BurstSnoc(s.received, Burst(s.rx.burst, s.rx.enqueued));
    hide Taken, Lost, All;
    Nothing(s.rxIn);
  }

  lemma PushRxMore(s: Pipe)
    requires RxInv(s) && Enabled(s, RxPush)
    requires s.capacity - |s.rxRing| < |s.rx.burst| - s.rx.enqueued && |s.rxRing| < s.capacity
    ensures RxInv(PushRx(s))
  {
    hide Taken, Lost, All;
    var b, e := s.rx.burst, s.rx.enqueued;
    var got := s.capacity - |s.rxRing|;
    var more := b[e..e + got];
    var t := PushRx(s);
    assert t.rxIn == s.rxIn + more && t.rxRing == s.rxRing + more && t.rx == Pushing(b, e + got);
    assert t.received == s.received && t.rxOut == s.rxOut && t.capacity == s.capacity;
    assert s.rxIn == Taken(s.received) + b[..e] && s.rxIn == s.rxOut + s.rxRing;
    hide PushRx;
    assert b[..e] + more == b[..e + got];
    Extended(s.rxIn, Taken(s.received), b[..e], s.rxOut, s.rxRing, more);
  }

  lemma PushRxAll(s: Pipe)
    requires RxInv(s) && Enabled(s, RxPush)
    requires |s.rx.burst| - s.rx.enqueued <= s.capacity - |s.rxRing| && |s.rxRing| < s.capacity
    ensures RxInv(PushRx(s))
  {
    hide Taken, Lost, All;
    var b, e := s.rx.burst, s.rx.enqueued;
    var more := b[e..|b|];
    var t := PushRx(s);
    assert t.rxIn == s.rxIn + more && t.rxRing == s.rxRing + more && t.rx.RxIdle?;
    assert t.received == s.received + [Burst(b, |b|)] && t.rxOut == s.rxOut && t.capacity == s.capacity;
    assert s.rxIn == Taken(s.received) + b[..e] && s.rxIn == s.rxOut + s.rxRing;
    assert |t.rxRing| <= t.capacity;
    assert RxDone(t) == [];
    hide PushRx;
    BurstSnoc(s.received, Burst(b, |b|));
    assert b[..e] + more == b;
    assert TakenOf(Burst(b, |b|)) == b;
    Extended(s.rxIn, Taken(s.received), b[..e], s.rxOut, s.rxRing, more);
    Nothing(Taken(s.received) + b);
  }

  lemma Extended(all: seq<Mbuf>, a: seq<Mbuf>, b: seq<Mbuf>, c: seq<Mbuf>, d: seq<Mbuf>, more: seq<Mbuf>)
    requires all == a + b && all == c + d
    ensures all + more == a + (b + more) && all + more == c + (d + more)
  {
  }

  lemma RxStep(s: Pipe, step: Step)
    requires RxInv(s) && Enabled(s, step)
    ensures RxInv(Apply(s, step))
  {
    hide Taken, Lost, All, Occurrences;
    if step.RxPush? {
      if |s.rxRing| == s.capacity {
        PushRxFull(s);
      } else if s.capacity - |s.rxRing| < |s.rx.burst| - s.rx.enqueued {
        PushRxMore(s);
      } else {
        PushRxAll(s);
      }
      hide RxInv, PushRx;
    } else if step.WorkerPops? {
      var k := Min(step.max, |s.rxRing|);
      Cut(s.rxRing, 0, k);
      Assoc(s.rxOut, s.rxRing[..k], s.rxRing[k..]);
    } else if step.NicReceives? {
      assert step.ids[..0] == [];
    }
  }

  lemma PushTxKeeps(s: Pipe)
    requires Enabled(s, WorkerPush)
    ensures PushTx(s).txIn + TxLeft(PushTx(s)) == s.txIn + TxLeft(s)
    ensures PushTx(s).txIn == s.txIn + PushTx(s).txRing[|s.txRing|..] && s.txRing <= PushTx(s).txRing
    ensures |PushTx(s).txRing| <= s.capacity
  {
    var b, e := s.sender.batch, s.sender.sent;
    var got := Min(s.capacity - |s.txRing|, |b| - e);
    Cut(b, e, got);
    Assoc(s.txIn, b[e..e + got], b[e + got..]);
    assert (s.txRing + b[e..e + got])[|s.txRing|..] == b[e..e + got];
    assert s.txIn + b[e..e + got] + [] == s.txIn + b[e..e + got];
  }

  lemma HeldStep(s: Pipe, step: Step, m: Mbuf)
    requires WorkerInv(s) && Enabled(s, step)
    ensures 0 <= Held(Apply(s, step), m)
  {
    if step.WorkerPops? {
      CountConcat(s.rxOut, s.rxRing[..Min(step.max, |s.rxRing|)], m);
    } else if step.WorkerAllocates? {
      CountConcat(s.created, [step.m], m);
    } else if step.WorkerFrees? {
      CountConcat(s.dropped, [step.m], m);
      assert Occurrences([step.m], m) == if step.m == m then 1 else 0;
    } else if step.WorkerSends? {
      CountConcat(s.handed, step.batch, m);
    }
    hide Occurrences;
    assert 0 <= Held(s, m);
  }

  lemma WorkerStep(s: Pipe, step: Step)
    requires WorkerInv(s) && Enabled(s, step)
    ensures WorkerInv(Apply(s, step))
  {
    forall m
      ensures 0 <= Held(Apply(s, step), m)
    {
      HeldStep(s, step, m);
    }
    hide Held, Occurrences;
    if step.WorkerPush? {
      PushTxKeeps(s);
    } else if step.WorkerSends? {
      Cut(step.batch, 0, 0);
      assert s.txIn + [] == s.txIn;
    }
  }

  lemma TxStep(s: Pipe, step: Step)
    requires TxInv(s) && Enabled(s, step)
    ensures TxInv(Apply(s, step))
  {
    hide Occurrences, All, Taken, Lost;
    if step.WorkerPush? {
      PushTxKeeps(s);
      var r := PushTx(s);
      Assoc(s.txOut, s.txRing, r.txRing[|s.txRing|..]);
      assert s.txRing + r.txRing[|s.txRing|..] == r.txRing;
      hide PushTx;
    } else if step.TxPop? {
      var k := Min(IO_BURST, |s.txRing|);
      Cut(s.txRing, 0, k);
      Assoc(s.txOut, s.txRing[..k], s.txRing[k..]);
      assert All(s.transmitted) + [] == All(s.transmitted);
    } else if step.NicTransmits? {
      BurstSnoc(s.transmitted, Burst(s.tx.batch, step.accepted));
      Nothing(All(s.transmitted) + s.tx.batch);
    }
  }

  lemma StepKeeps(s: Pipe, step: Step)
    requires Inv(s) && Enabled(s, step)
    ensures Inv(Apply(s, step))
  {
    hide RxInv, WorkerInv, TxInv;
    RxStep(s, step);
    WorkerStep(s, step);
    TxStep(s, step);
  }

  ghost predicate IsRun(s: Pipe, steps: seq<Step>)
    decreases |steps|
  {
    steps == [] || (Enabled(s, steps[0]) && IsRun(Apply(s, steps[0]), steps[1..]))
  }

  ghost function Run(s: Pipe, steps: seq<Step>): Pipe
    requires IsRun(s, steps)
    decreases |steps|
  {
    if steps == [] then s else Run(Apply(s, steps[0]), steps[1..])
  }

  lemma {:induction false} RunKeeps(s: Pipe, steps: seq<Step>)
    requires Inv(s) && IsRun(s, steps)
    ensures Inv(Run(s, steps))
    decreases |steps|
  {
    hide Inv, Apply, Enabled;
    if steps != [] {
      StepKeeps(s, steps[0]);
      RunKeeps(Apply(s, steps[0]), steps[1..]);
    }
  }

  /** How often `m` came in, from the NIC or the pool. */
  ghost function CameIn(s: Pipe, m: Mbuf): nat {
    Occurrences(All(s.received), m) + Occurrences(RxDone(s), m) + Occurrences(RxLeft(s), m) + Occurrences(s.created, m)
  }

  /** How often `m` is under way: in the RX thread, a ring, the worker's hands, or the TX thread. */
  ghost function InFlight(s: Pipe, m: Mbuf): int {
    Occurrences(RxLeft(s), m) + Occurrences(s.rxRing, m) + Held(s, m) + Occurrences(TxLeft(s), m) + Occurrences(s.txRing, m)
    + Occurrences(InTxThread(s), m)
  }

  ghost function Freed(s: Pipe, m: Mbuf): nat {
    Occurrences(Lost(s.received), m) + Occurrences(s.dropped, m) + Occurrences(Lost(s.transmitted), m)
  }

  /**
   Over every interleaving: each buffer that came in is under way, was transmitted, or was freed
   explicitly, as many times as it came in; both rings deliver in push order; and what the RX thread
   accepted is, burst by burst, a prefix.
   */
  lemma Conservation(capacity: nat, steps: seq<Step>, m: Mbuf)
    requires IsRun(Empty(capacity), steps)
    ensures var s := Run(Empty(capacity), steps);
            && CameIn(s, m) == InFlight(s, m) + Occurrences(Taken(s.transmitted), m) + Freed(s, m)
            && 0 <= Held(s, m)
            && s.rxIn == s.rxOut + s.rxRing && s.rxIn == Taken(s.received) + RxDone(s)
            && s.txIn == s.txOut + s.txRing && s.handed == s.txIn + TxLeft(s)
  {
    assert Inv(Empty(capacity));
    RunKeeps(Empty(capacity), steps);
    hide Run, IsRun;
    Balance(Run(Empty(capacity), steps), m);
  }

  lemma Balance(s: Pipe, m: Mbuf)
    requires Inv(s)
    ensures CameIn(s, m) == InFlight(s, m) + Occurrences(Taken(s.transmitted), m) + Freed(s, m)
  {
    TakenPlusLost(s.received, m);
    TakenPlusLost(s.transmitted, m);
    CountConcat(Taken(s.received), RxDone(s), m);
    CountConcat(s.rxOut, s.rxRing, m);
    CountConcat(s.txIn, TxLeft(s), m);
    CountConcat(s.txOut, s.txRing, m);
    CountConcat(All(s.transmitted), InTxThread(s), m);
    hide Occurrences, Taken, Lost, All;
  }

  /** The RX thread frees only when the ring is full, and then only the unpushed tail of its burst. */
  lemma RxFreesOnlyWhenFull(s: Pipe)
    requires RxInv(s) && Enabled(s, RxPush)
    ensures var r := PushRx(s);
            && (|s.rxRing| < s.capacity ==> Lost(r.received) == Lost(s.received))
            && (|s.rxRing| == s.capacity ==> Lost(r.received) == Lost(s.received) + RxLeft(s))
  {
    hide Taken, Lost, All, RxInv, TakenOf;
    var b, e := s.rx.burst, s.rx.enqueued;
    if |s.rxRing| == s.capacity {
      BurstSnoc(s.received, Burst(b, e));
    } else {
      BurstSnoc(s.received, Burst(b, |b|));
      assert LostOf(Burst(b, |b|)) == [];
      Nothing(Lost(s.received));
    }
  }

  /** `send_burst` progresses exactly when the TX ring has room, so it ends if the TX thread keeps popping. */
  lemma SendProgress(s: Pipe)
    requires Inv(s) && Enabled(s, WorkerPush)
    ensures |TxLeft(PushTx(s))| < |TxLeft(s)| <==> |s.txRing| < s.capacity
    ensures |s.txRing| == s.capacity ==> PushTx(s) == s
  {
    hide Occurrences, Taken, Lost, All, Held;
    var b, e := s.sender.batch, s.sender.sent;
    if |s.txRing| == s.capacity {
      assert b[e..e] == [];
      assert s.txRing + [] == s.txRing && s.txIn + [] == s.txIn;
    }
  }
}

/**
 The burst loops themselves, on a ring object, each proved to be a run of the machine. What the thread
 at the other end does between two ring operations is a parameter.
 */
module Netif {
  import opened Base
  import P = Pipeline

  class Ring {
    const capacity: nat
    var items: seq<Mbuf>

    constructor (capacity: nat)
      ensures this.capacity == capacity && items == []
    {
      this.capacity, items := capacity, [];
    }

    ghost predicate Valid()
      reads this
    {
      |items| <= capacity
    }

    /** Enqueues as many as fit, from the front. */
    method PushBurst(eles: seq<Mbuf>) returns (n: nat)
      requires Valid()
      modifies this
      ensures Valid() && n == Min(capacity - |old(items)|, |eles|)
      ensures items == old(items) + eles[..n]
    {
      n := Min(capacity - |items|, |eles|);
      items := items + eles[..n];
    }

    /** Dequeues at most `max`, oldest first. */
    method PopBurst(max: nat) returns (eles: seq<Mbuf>)
      requires Valid()
      modifies this
      ensures Valid() && |eles| == Min(max, |old(items)|) && eles + items == old(items)
    {
      var n := Min(max, |items|);
      eles := items[..n];
      items := items[n..];
    }
  }

  /** Popping at one end and pushing at the other leaves everything in order. */
  lemma RoundOrder(popped: seq<Mbuf>, taken: seq<Mbuf>, items: seq<Mbuf>, base: seq<Mbuf>, b: seq<Mbuf>, e: nat, n: nat)
    requires e + n <= |b| && popped + (taken + items) == base + b[..e]
    ensures (popped + taken) + (items + b[e..][..n]) == base + b[..e + n]
  {
    var more := b[e..][..n];
    assert (popped + taken) + (items + more) == (popped + (taken + items)) + more;
    assert (base + b[..e]) + more == base + (b[..e] + more);
    assert b[..e] + more == b[..e + n];
  }

  // ------------------------------------------------------- runs of the machine

  /** A step taken at the end of a run extends it. */
  lemma {:induction false} RunSnoc(p: P.Pipe, steps: seq<P.Step>, s: P.Step)
    requires P.IsRun(p, steps) && P.Enabled(P.Run(p, steps), s)
    ensures P.IsRun(p, steps + [s]) && P.Run(p, steps + [s]) == P.Apply(P.Run(p, steps), s)
    decreases |steps|
  {
    hide P.Apply, P.Enabled;
    if steps == [] {
      assert [s][1..] == [];
    } else {
      RunSnoc(P.Apply(p, steps[0]), steps[1..], s);
      assert (steps + [s])[1..] == steps[1..] + [s];
    }
  }

  /** The machine has followed `steps` from `p` and is now at `q`. */
  ghost predicate Reached(p: P.Pipe, steps: seq<P.Step>, q: P.Pipe) {
    P.IsRun(p, steps) && P.Run(p, steps) == q
  }

  lemma ReachedStep(p: P.Pipe, steps: seq<P.Step>, q: P.Pipe, s: P.Step)
    requires Reached(p, steps, q) && P.Enabled(q, s)
    ensures Reached(p, steps + [s], P.Apply(q, s))
  {
    RunSnoc(p, steps, s);
  }

  /** The RX side: `enqueued` packets of the burst are on the ring or were popped from it. */
  ghost predicate AtRx(p: P.Pipe, q: P.Pipe, ring: seq<Mbuf>, burst: seq<Mbuf>, enqueued: nat, popped: seq<Mbuf>) {
    && q.capacity == p.capacity && |ring| <= p.capacity
    && q.rxRing == ring && q.rx == P.Pushing(burst, enqueued) && q.received == p.received
    && q.rxOut == p.rxOut + popped
  }

  lemma PopStep(p: P.Pipe, q: P.Pipe, ring: seq<Mbuf>, burst: seq<Mbuf>, e: nat, popped: seq<Mbuf>,
                max: nat, taken: seq<Mbuf>, rest: seq<Mbuf>)
    requires AtRx(p, q, ring, burst, e, popped) && taken + rest == ring && |taken| == Min(max, |ring|)
    ensures P.Enabled(q, P.WorkerPops(max))
    ensures AtRx(p, P.Apply(q, P.WorkerPops(max)), rest, burst, e, popped + taken)
  {
    hide P.Held;
    assert ring[..|taken|] == taken && ring[|taken|..] == rest;
    Assoc(p.rxOut, popped, taken);
  }

  lemma PushStep(p: P.Pipe, q: P.Pipe, ring: seq<Mbuf>, burst: seq<Mbuf>, e: nat, popped: seq<Mbuf>, got: nat)
    requires AtRx(p, q, ring, burst, e, popped) && e < |burst| && got == Min(p.capacity - |ring|, |burst| - e)
    ensures P.Enabled(q, P.RxPush)
    ensures var r := P.Apply(q, P.RxPush);
            if got == 0 || e + got == |burst| then
              && r.rx.RxIdle? && r.rxRing == ring + burst[e..][..got] && r.rxOut == p.rxOut + popped
              && r.received == p.received + [P.Burst(burst, e + got)]
            else AtRx(p, r, ring + burst[e..][..got], burst, e + got, popped)
  {
    hide P.Held;
    assert burst[e..e + got] == burst[e..][..got];
    assert got == 0 ==> ring + burst[e..][..got] == ring;
  }

  /**
   `nic_recv` on one burst of the NIC, the worker popping `pops[i]` entries before round `i`. It is a run
   of the machine; so a prefix is enqueued in order and the rest is freed, only when the ring is full.
   */
  method NicRecv(ring: Ring, burst: seq<Mbuf>, pops: seq<nat>, ghost p: P.Pipe)
    returns (enqueued: nat, freed: seq<Mbuf>, popped: seq<Mbuf>, ghost steps: seq<P.Step>, ghost q: P.Pipe)
    requires ring.Valid() && 0 < |burst| <= P.IO_BURST
    requires p.rx.RxIdle? && p.rxRing == ring.items && p.capacity == ring.capacity
    modifies ring
    ensures ring.Valid() && enqueued <= |burst| && freed == burst[enqueued..]
    ensures popped + ring.items == old(ring.items) + burst[..enqueued]
    ensures freed != [] ==> |ring.items| == ring.capacity
    ensures Reached(p, steps, q) && q.rx.RxIdle? && q.rxRing == ring.items
    ensures q.received == p.received + [P.Burst(burst, enqueued)]
  {
    hide P.Apply, P.Enabled, P.Run, P.IsRun;
    enqueued, freed, popped := 0, [], [];
    steps, q := Delivered(p, burst);
    var round := 0;
    while enqueued < |burst|
      invariant ring.Valid() && enqueued <= |burst| && freed == [] && Reached(p, steps, q)
      invariant popped + ring.items == old(ring.items) + burst[..enqueued]
      invariant enqueued < |burst| ==> AtRx(p, q, ring.items, burst, enqueued, popped)
      invariant enqueued == |burst| ==>
                  q.rx.RxIdle? && q.rxRing == ring.items && q.received == p.received + [P.Burst(burst, enqueued)]
      decreases |burst| - enqueued
    {
      var max := if round < |pops| then pops[round] else 0;
      ghost var before := ring.items;
      var taken := ring.PopBurst(max);
      PopStep(p, q, before, burst, enqueued, popped, max, taken, ring.items);
      ReachedStep(p, steps, q, P.WorkerPops(max));
      steps, q := steps + [P.WorkerPops(max)], P.Apply(q, P.WorkerPops(max));
      before := ring.items;
      var got := ring.PushBurst(burst[enqueued..]);
      RoundOrder(popped, taken, before, old(ring.items), burst, enqueued, got);
      popped := popped + taken;
      PushStep(p, q, before, burst, enqueued, popped, got);
      ReachedStep(p, steps, q, P.RxPush);
      steps, q := steps + [P.RxPush], P.Apply(q, P.RxPush);
      if got == 0 {
        freed := burst[enqueued..];
        break;
      }
      enqueued, round := enqueued + got, round + 1;
    }
  }

  lemma Delivered(p: P.Pipe, burst: seq<Mbuf>) returns (steps: seq<P.Step>, q: P.Pipe)
    requires p.rx.RxIdle? && |p.rxRing| <= p.capacity && 0 < |burst| <= P.IO_BURST
    ensures Reached(p, steps, q) && AtRx(p, q, p.rxRing, burst, 0, [])
  {
    assert Reached(p, [], p);
    q := P.Apply(p, P.NicReceives(burst));
    hide P.Run, P.IsRun, Reached;
    ReachedStep(p, [], p, P.NicReceives(burst));
    steps := [] + [P.NicReceives(burst)];
    assert p.rxOut + [] == p.rxOut;
  }

  /** The TX side: `sent` packets of the batch are on the ring or beyond it. */
  ghost predicate AtTx(p: P.Pipe, q: P.Pipe, ring: seq<Mbuf>, batch: seq<Mbuf>, sent: nat) {
    && q.capacity == p.capacity && |ring| <= p.capacity && sent <= |batch|
    && q.txRing == ring && q.tx.TxIdle? && q.txIn == p.txIn + batch[..sent]
    && q.sender == if sent == |batch| then P.NotSending else P.Sending(batch, sent)
  }

  lemma TxThreadStep(p: P.Pipe, steps: seq<P.Step>, q: P.Pipe, ring: seq<Mbuf>, batch: seq<Mbuf>, sent: nat,
                     taken: seq<Mbuf>, rest: seq<Mbuf>, accepted: nat) returns (steps': seq<P.Step>, q': P.Pipe)
    requires Reached(p, steps, q) && AtTx(p, q, ring, batch, sent)
    requires taken + rest == ring && |taken| == Min(P.IO_BURST, |ring|) && accepted <= |taken|
    ensures Reached(p, steps', q') && AtTx(p, q', rest, batch, sent)
  {
    hide Reached, P.Held;
    if ring == [] {
      steps', q' := steps, q;
    } else {
      assert ring[..|taken|] == taken && ring[|taken|..] == rest;
      var q1 := P.Apply(q, P.TxPop);
      ReachedStep(p, steps, q, P.TxPop);
      q' := P.Apply(q1, P.NicTransmits(accepted));
      ReachedStep(p, steps + [P.TxPop], q1, P.NicTransmits(accepted));
      steps' := steps + [P.TxPop] + [P.NicTransmits(accepted)];
    }
  }

  lemma SendStep(p: P.Pipe, q: P.Pipe, ring: seq<Mbuf>, batch: seq<Mbuf>, sent: nat, got: nat)
    requires AtTx(p, q, ring, batch, sent) && sent < |batch| && got == Min(p.capacity - |ring|, |batch| - sent)
    ensures P.Enabled(q, P.WorkerPush)
    ensures AtTx(p, P.Apply(q, P.WorkerPush), ring + batch[sent..][..got], batch, sent + got)
  {
    hide P.Held;
    assert batch[sent..sent + got] == batch[sent..][..got];
    assert batch[..sent] + batch[sent..sent + got] == batch[..sent + got];
    Assoc(p.txIn, batch[..sent], batch[sent..sent + got]);
  }

  method Taken(popped: seq<Mbuf>, taken: seq<Mbuf>, ghost rest: seq<Mbuf>, ghost before: seq<Mbuf>) returns (all: seq<Mbuf>)
    requires taken + rest == before
    ensures all == popped + taken && all + rest == popped + before
  {
    Assoc(popped, taken, rest);
    all := popped + taken;
  }

  /** One push of `send_burst`. */
  method PushRound(ring: Ring, batch: seq<Mbuf>, sent: nat, ghost popped: seq<Mbuf>, ghost base: seq<Mbuf>,
                   ghost p: P.Pipe, ghost steps: seq<P.Step>, ghost q: P.Pipe)
    returns (got: nat, ghost steps': seq<P.Step>, ghost q': P.Pipe)
    requires ring.Valid() && sent < |batch| && Reached(p, steps, q) && AtTx(p, q, ring.items, batch, sent)
    requires popped + ring.items == base + batch[..sent] && p.capacity == ring.capacity
    modifies ring
    ensures ring.Valid() && got == Min(ring.capacity - |old(ring.items)|, |batch| - sent)
    ensures Reached(p, steps', q') && AtTx(p, q', ring.items, batch, sent + got)
    ensures popped + ring.items == base + batch[..sent + got]
  {
    hide P.Apply, P.Enabled, Reached, AtTx;
    ghost var before := ring.items;
    got := ring.PushBurst(batch[sent..]);
    assert [] + before == before && popped + [] == popped;
    RoundOrder(popped, [], before, base, batch, sent, got);
    SendStep(p, q, before, batch, sent, got);
    ReachedStep(p, steps, q, P.WorkerPush);
    steps', q' := steps + [P.WorkerPush], P.Apply(q, P.WorkerPush);
  }

  /**
   `send_burst`. Before round `r` the TX thread runs `nic_send` if `runs(r)`, the NIC accepting
   `accepts(r)`. It keeps trying; so it ends because the TX thread runs again and again, which `fair`
   witnesses, and then the whole batch has gone on the ring, in order. It is a run of the machine.
   */
  method SendBurst(ring: Ring, batch: seq<Mbuf>, runs: nat -> bool, accepts: nat -> nat,
                   ghost fair: nat -> nat, ghost p: P.Pipe)
    returns (sent: nat, popped: seq<Mbuf>, ghost steps: seq<P.Step>, ghost q: P.Pipe)
    requires ring.Valid() && 0 < ring.capacity
    requires forall r: nat :: r <= fair(r) && runs(fair(r))
    requires AtTx(p, p, ring.items, batch, 0) && p.capacity == ring.capacity
    modifies ring
    ensures ring.Valid() && sent == |batch| && popped + ring.items == old(ring.items) + batch
    ensures Reached(p, steps, q) && q.sender.NotSending? && q.txRing == ring.items && q.txIn == p.txIn + batch
  {
    assert Reached(p, [], p);
    hide P.Apply, P.Enabled, P.Run, P.IsRun, Reached;
    steps, q, sent, popped := [], p, 0, [];
    var round := 0;
    ghost var mark: nat := 0;
    while sent < |batch|
      invariant ring.Valid() && sent <= |batch| && Reached(p, steps, q) && AtTx(p, q, ring.items, batch, sent)
      invariant popped + ring.items == old(ring.items) + batch[..sent]
      invariant round <= fair(mark)
      decreases |batch| - sent, fair(mark) - round
    {
      hide AtTx;
      ghost var before := ring.items;
      var taken: seq<Mbuf> := [];
      if runs(round) {
        var out, freed := NicSend(ring, P.IO_BURST, accepts(round));
        taken := out + freed;
        steps, q := TxThreadStep(p, steps, q, before, batch, sent, out + freed, ring.items, |out|);
      }
      assert taken + ring.items == before;
      assert runs(round) ==> |ring.items| < ring.capacity;
      popped := Taken(popped, taken, ring.items, before);
      var got;
      got, steps, q := PushRound(ring, batch, sent, popped, old(ring.items), p, steps, q);
      round := round + 1;
      if got > 0 {
        sent, mark := sent + got, round;
      }
    }
    assert batch[..sent] == batch;
  }

  /** `nic_send`: one batch off the ring, a prefix accepted by the NIC, the rest freed. */
  method NicSend(ring: Ring, burst: nat, accepts: nat) returns (sent: seq<Mbuf>, freed: seq<Mbuf>)
    requires ring.Valid()
    modifies ring
    ensures ring.Valid() && sent + freed + ring.items == old(ring.items)
    ensures |sent + freed| == Min(burst, |old(ring.items)|) && |sent| == Min(accepts, |sent + freed|)
  {
    var batch := ring.PopBurst(burst);
    var n := Min(accepts, |batch|);
    sent, freed := batch[..n], batch[n..];
    assert sent + freed == batch;
  }
}
