/**
 Pipeline mode from NIC to NIC: the gateway's worker runs between the RX and TX threads of
 `Pipeline`. The worker pops its burst from the RX ring, what it logs as acquired or freed is what the
 pipeline records, and its transmit batch is what `send_burst` pushes on the TX ring.

 The only premise about buffers is the NIC's and the pool's: they hand out buffers that are
 nowhere in the system. That the worker never receives a buffer it already has is then proved.
 */
module PipelinedGateway {
  import opened Base
  import opened Packet
  import opened Worker
  import opened Ownership
  import opened HeldPackets
  import opened WorkerSteps
  import opened GatewayProofs
  import G = Gateway
  import P = Pipeline
  import R = RunTheorems
  import N = NatTheorems
  import Arp
  import F = Forward

  datatype Sys = Sys(p: P.Pipe, g: G.Gw)

  /** Ring threads and NIC; the worker taking a burst; its own steps; its batch handed to `send_burst`. */
  datatype Step =
    | Threads(t: P.Step)
    | Take(burst: seq<(Mbuf, Frame)>)
    | Work(w: G.Step)
    | HandOver

  function One(b: bool): nat {
    if b then 1 else 0
  }

  // -------------------------------------------------------------- the log

  function Acquired(log: seq<Event>): seq<Mbuf> {
    if log == [] then []
    else
      var e := log[|log| - 1];
      Acquired(log[..|log| - 1]) + if e.Acquire? then [e.m] else []
  }

  function Discarded(log: seq<Event>): seq<Mbuf> {
    if log == [] then []
    else
      var e := log[|log| - 1];
      Discarded(log[..|log| - 1]) + if e.Free? then [e.m] else []
  }

  function Shipped(log: seq<Event>): seq<Mbuf> {
    if log == [] then []
    else
      var e := log[|log| - 1];
      Shipped(log[..|log| - 1]) + if e.Send? then [e.m] else []
  }

  lemma CountOne(a: seq<Mbuf>, x: Mbuf, m: Mbuf)
    ensures Occurrences(a + [x], m) == Occurrences(a, m) + One(x == m)
    ensures Occurrences(a + [], m) == Occurrences(a, m)
  {
    assert (a + [x])[..|a|] == a && a + [] == a;
  }

  lemma LedgerEvent(before: seq<Event>, e: Event, m: Mbuf)
    requires Replay(before + [e]).Some?
    ensures Replay(before).Some?
    ensures One(m in Replay(before + [e]).value) ==
              One(m in Replay(before).value) + (if e.m != m then 0 else if e.Acquire? then 1 else -1)
  {
    ReplaySnoc(before, e);
  }

  /** A balanced ledger holds a buffer once for each time it was acquired and not given up. */
  lemma {:induction false} LedgerCount(log: seq<Event>, ext: seq<Event>, m: Mbuf)
    requires Replay(log).Some? && Replay(log + ext).Some?
    ensures One(m in Replay(log + ext).value) == One(m in Replay(log).value)
              + Occurrences(Acquired(ext), m) - Occurrences(Discarded(ext), m) - Occurrences(Shipped(ext), m)
    decreases |ext|
  {
    if ext == [] {
      assert log + ext == log;
    } else {
      var k := |ext| - 1;
      var init, e := ext[..k], ext[k];
      assert log + ext == (log + init) + [e];
      LedgerEvent(log + init, e, m);
      hide Replay;
      LedgerCount(log, init, m);
      CountOne(Acquired(init), e.m, m);
      CountOne(Discarded(init), e.m, m);
      CountOne(Shipped(init), e.m, m);
      hide Occurrences;
    }
  }

  // ------------------------------------------------------------ the machine

  /** How often `m` is in the system outside the worker. */
  ghost function Elsewhere(p: P.Pipe, m: Mbuf): nat {
    Occurrences(P.RxLeft(p), m) + Occurrences(p.rxRing, m) + Occurrences(P.TxLeft(p), m)
    + Occurrences(p.txRing, m) + Occurrences(P.InTxThread(p), m)
  }

  ghost predicate Absent(s: Sys, m: Mbuf) {
    Elsewhere(s.p, m) == 0 && m !in s.g.io.owner
  }

  ghost predicate IsThreadStep(t: P.Step) {
    t.NicReceives? || t.RxPush? || t.WorkerPush? || t.TxPop? || t.NicTransmits?
  }

  ghost predicate Popped(p: P.Pipe, burst: seq<(Mbuf, Frame)>) {
    && |burst| == Min(BURST, |p.rxRing|)
    && forall i :: 0 <= i < |burst| ==> burst[i].0 == p.rxRing[i]
  }

  /** While `send_burst` waits for room the worker does nothing else. */
  ghost predicate Enabled(cfg: F.Config, s: Sys, step: Step) {
    match step
    case Threads(t) =>
      && IsThreadStep(t) && P.Enabled(s.p, t)
      && (t.NicReceives? ==> NoDup(t.ids) && forall m :: m in t.ids ==> Absent(s, m))
    case Take(burst) =>
      && s.p.sender.NotSending? && Popped(s.p, burst)
      && s.g.io.rx == [] && s.g.io.tx == [] && s.g.io.drop == []
      && forall i :: 0 <= i < |burst| ==> G.NamesClient(cfg, burst[i].1)
    case Work(w) =>
      && s.p.sender.NotSending? && !w.Recv? && !w.Finish? && G.Enabled(cfg, s.g, w)
      && (w.HandleNext? && w.alloc.Some? ==> Elsewhere(s.p, w.alloc.value) == 0)
    case HandOver => s.p.sender.NotSending? && s.g.io.rx == []
  }

  /** The pipeline records what the worker logged. */
  ghost function Record(p: P.Pipe, ext: seq<Event>): P.Pipe {
    p.(created := p.created + Acquired(ext), dropped := p.dropped + Discarded(ext))
  }

  /** `send_burst` is called with the transmit batch. */
  ghost function Handed(p: P.Pipe, tx: seq<Mbuf>): P.Pipe {
    p.(handed := p.handed + tx, sender := if tx == [] then P.NotSending else P.Sending(tx, 0))
  }

  ghost function Logged(g: G.Gw, r: G.Gw): seq<Event> {
    if |g.io.log| <= |r.io.log| then r.io.log[|g.io.log|..] else []
  }

  ghost function Apply(cfg: F.Config, s: Sys, step: Step): Sys
    requires Enabled(cfg, s, step)
  {
    match step
    case Threads(t) => s.(p := P.Apply(s.p, t))
    case Take(burst) =>
      Sys(P.Apply(s.p, P.WorkerPops(BURST)), s.g.(io := Receive(s.g.io, burst)))
    case Work(w) =>
      var r := G.Apply(cfg, s.g, w);
      Sys(Record(s.p, Logged(s.g, r)), r)
    case HandOver =>
      var tx, r := s.g.io.tx, s.g.(io := Drain(s.g.io, |s.g.io.tx|));
      Sys(Handed(Record(s.p, Logged(s.g, r)), tx), r)
  }

  // ------------------------------------------------------------- what is kept

  /** What the pipeline counts as held is what the worker has. */
  ghost predicate Coupled(s: Sys) {
    forall m :: P.Held(s.p, m) == One(m in s.g.io.owner)
  }

  /** No buffer is in the system twice. */
  ghost predicate Unique(s: Sys) {
    forall m :: Elsewhere(s.p, m) + One(m in s.g.io.owner) <= 1
  }

  ghost predicate SysInv(cfg: F.Config, s: Sys) {
    P.Inv(s.p) && GwInv(cfg, s.g) && Coupled(s) && Unique(s)
  }

  // ---- ring threads

  lemma {:induction false} CountNoDup(ids: seq<Mbuf>, m: Mbuf)
    requires NoDup(ids)
    ensures Occurrences(ids, m) == One(m in ids)
  {
    if ids != [] {
      var k := |ids| - 1;
      CountNoDup(ids[..k], m);
      assert ids == ids[..k] + [ids[k]];
    }
  }

  lemma CountSplit(a: seq<Mbuf>, k: nat, m: Mbuf)
    requires k <= |a|
    ensures Occurrences(a, m) == Occurrences(a[..k], m) + Occurrences(a[k..], m)
  {
    P.CountConcat(a[..k], a[k..], m);
    assert a[..k] + a[k..] == a;
  }

  /** One push of the RX thread: a prefix of what is left goes on the ring; the rest stays or is freed. */
  lemma PushRxShape(p: P.Pipe) returns (more: seq<Mbuf>)
    requires P.Enabled(p, P.RxPush)
    ensures var r := P.PushRx(p);
            && more <= P.RxLeft(p) && r.rxRing == p.rxRing + more
            && (P.RxLeft(r) == [] || P.RxLeft(r) == P.RxLeft(p)[|more|..])
            && r == p.(rx := r.rx, rxRing := r.rxRing, rxIn := r.rxIn, received := r.received)
  {
    var b, e := p.rx.burst, p.rx.enqueued;
    var got := Min(p.capacity - |p.rxRing|, |b| - e);
    more := b[e..e + got];
    assert b[e..][got..] == b[e + got..];
  }

  lemma PushTxShape(p: P.Pipe) returns (more: seq<Mbuf>)
    requires P.Enabled(p, P.WorkerPush)
    ensures var r := P.PushTx(p);
            && more <= P.TxLeft(p) && r.txRing == p.txRing + more && P.TxLeft(r) == P.TxLeft(p)[|more|..]
            && r == p.(sender := r.sender, txRing := r.txRing, txIn := r.txIn)
  {
    var b, e := p.sender.batch, p.sender.sent;
    var got := Min(p.capacity - |p.txRing|, |b| - e);
    more := b[e..e + got];
    assert b[e..][got..] == b[e + got..];
  }

  lemma RxElsewhere(p: P.Pipe, m: Mbuf)
    requires P.Enabled(p, P.RxPush)
    ensures Elsewhere(P.PushRx(p), m) <= Elsewhere(p, m) && P.Held(P.PushRx(p), m) == P.Held(p, m)
  {
    var more := PushRxShape(p);
    var r := P.PushRx(p);
    assert P.TxLeft(r) == P.TxLeft(p) && P.InTxThread(r) == P.InTxThread(p);
    hide P.PushRx, Occurrences, P.RxLeft, P.TxLeft, P.InTxThread;
    assert P.RxLeft(p)[..|more|] == more;
    CountSplit(P.RxLeft(p), |more|, m);
    P.CountConcat(p.rxRing, more, m);
    CountEmpty(m);
  }

  lemma TxElsewhere(p: P.Pipe, m: Mbuf)
    requires P.Enabled(p, P.WorkerPush)
    ensures Elsewhere(P.PushTx(p), m) <= Elsewhere(p, m) && P.Held(P.PushTx(p), m) == P.Held(p, m)
  {
    var more := PushTxShape(p);
    var r := P.PushTx(p);
    assert P.RxLeft(r) == P.RxLeft(p) && P.InTxThread(r) == P.InTxThread(p);
    hide P.PushTx, Occurrences, P.RxLeft, P.TxLeft, P.InTxThread;
    assert P.TxLeft(p)[..|more|] == more;
    CountSplit(P.TxLeft(p), |more|, m);
    P.CountConcat(p.txRing, more, m);
  }

  lemma CountEmpty(m: Mbuf)
    ensures Occurrences([], m) == 0
  {
  }

  /** What one thread step does to the count outside the worker: only the NIC adds. */
  lemma ThreadsElsewhere(p: P.Pipe, t: P.Step, m: Mbuf)
    requires P.Inv(p) && IsThreadStep(t) && P.Enabled(p, t)
    ensures Elsewhere(P.Apply(p, t), m) <= Elsewhere(p, m) + if t.NicReceives? then Occurrences(t.ids, m) else 0
    ensures P.Held(P.Apply(p, t), m) == P.Held(p, m)
  {
    hide P.Inv, Occurrences;
    match t {
      case NicReceives(ids) =>
        assert ids[0..] == ids;
      case RxPush =>
        RxElsewhere(p, m);
        hide P.PushRx, Elsewhere, P.Held;
      case WorkerPush =>
        TxElsewhere(p, m);
        hide P.PushTx, Elsewhere, P.Held;
      case TxPop =>
        CountSplit(p.txRing, Min(P.IO_BURST, |p.txRing|), m);
      case NicTransmits(_) =>
        CountEmpty(m);
    }
  }

  lemma ThreadsKeep(cfg: F.Config, s: Sys, t: P.Step)
    requires SysInv(cfg, s) && Enabled(cfg, s, Threads(t))
    ensures SysInv(cfg, Apply(cfg, s, Threads(t)))
  {
    var r := Apply(cfg, s, Threads(t));
    P.StepKeeps(s.p, t);
    hide P.Inv, GwInv, P.Apply, P.Held, P.Enabled, Elsewhere;
    forall m
      ensures P.Held(r.p, m) == One(m in r.g.io.owner) && Elsewhere(r.p, m) + One(m in r.g.io.owner) <= 1
    {
      ThreadsElsewhere(s.p, t, m);
      assert Elsewhere(s.p, m) + One(m in s.g.io.owner) <= 1;
      if t.NicReceives? {
        CountNoDup(t.ids, m);
      }
    }
  }

  // ---- the worker takes a burst

  /** Buffers on the RX ring are there once, and the worker does not have them. */
  lemma RingIsFresh(s: Sys)
    requires Unique(s)
    ensures NoDup(s.p.rxRing) && forall i :: 0 <= i < |s.p.rxRing| ==> s.p.rxRing[i] !in s.g.io.owner
  {
    var ring := s.p.rxRing;
    hide Occurrences;
    forall m
      ensures Occurrences(ring, m) + One(m in s.g.io.owner) <= 1
    {
      assert Elsewhere(s.p, m) + One(m in s.g.io.owner) <= 1;
    }
    hide Elsewhere, Unique;
    forall i | 0 <= i < |ring|
      ensures ring[i] !in s.g.io.owner
    {
      CountAt(ring, i);
    }
    forall i, j | 0 <= i < j < |ring|
      ensures ring[i] != ring[j]
    {
      CountTwice(ring, i, j);
    }
  }

  lemma PoppedIsFresh(s: Sys, burst: seq<(Mbuf, Frame)>)
    requires Unique(s) && Popped(s.p, burst)
    ensures FreshBurst(s.g.io, burst) && NoDup(s.p.rxRing[..|burst|])
  {
    hide Unique;
    RingIsFresh(s);
  }

  lemma {:induction false} CountAt(a: seq<Mbuf>, i: nat)
    requires i < |a|
    ensures 1 <= Occurrences(a, a[i])
  {
    if i < |a| - 1 {
      CountAt(a[..|a| - 1], i);
    }
  }

  lemma CountTwice(a: seq<Mbuf>, i: nat, j: nat)
    requires i < j < |a|
    ensures a[i] == a[j] ==> 2 <= Occurrences(a, a[j])
  {
    CountSplit(a, j, a[j]);
    CountAt(a[..j], i);
    CountAt(a[j..], 0);
  }

  lemma {:induction false} ReceivedOwner(io: Io, burst: seq<(Mbuf, Frame)>, ids: seq<Mbuf>, m: Mbuf)
    requires |ids| == |burst| && forall i :: 0 <= i < |burst| ==> burst[i].0 == ids[i]
    ensures m in Receive(io, burst).owner <==> m in io.owner || m in ids
  {
    if burst != [] {
      var k := |burst| - 1;
      ReceivedOwner(io, burst[..k], ids[..k], m);
      assert ids == ids[..k] + [ids[k]];
    }
  }

  lemma TakeCounts(p: P.Pipe, m: Mbuf)
    ensures var r, ids := P.Apply(p, P.WorkerPops(BURST)), p.rxRing[..Min(BURST, |p.rxRing|)];
            && Elsewhere(r, m) == Elsewhere(p, m) - Occurrences(ids, m)
            && P.Held(r, m) == P.Held(p, m) + Occurrences(ids, m)
  {
    hide Occurrences;
    var k := Min(BURST, |p.rxRing|);
    CountSplit(p.rxRing, k, m);
    P.CountConcat(p.rxOut, p.rxRing[..k], m);
  }

  lemma BurstCounts(s: Sys, burst: seq<(Mbuf, Frame)>, m: Mbuf)
    requires Coupled(s) && Unique(s) && Popped(s.p, burst)
    ensures var p, io := P.Apply(s.p, P.WorkerPops(BURST)), Receive(s.g.io, burst);
            P.Held(p, m) == One(m in io.owner) && Elsewhere(p, m) + One(m in io.owner) <= 1
  {
    hide P.Held, Elsewhere, Receive, Occurrences, P.Apply;
    var ids := s.p.rxRing[..|burst|];
    PoppedIsFresh(s, burst);
    ReceivedOwner(s.g.io, burst, ids, m);
    CountNoDup(ids, m);
    TakeCounts(s.p, m);
    assert P.Held(s.p, m) == One(m in s.g.io.owner);
    assert Elsewhere(s.p, m) + One(m in s.g.io.owner) <= 1;
  }

  lemma TakeKeeps(cfg: F.Config, s: Sys, burst: seq<(Mbuf, Frame)>)
    requires SysInv(cfg, s) && Enabled(cfg, s, Take(burst))
    ensures SysInv(cfg, Apply(cfg, s, Take(burst)))
  {
    hide P.Inv, GwInv, Receive, P.Apply, P.Held, Elsewhere, G.NamesClient;
    var r := Apply(cfg, s, Take(burst));
    PoppedIsFresh(s, burst);
    RecvKeeps(cfg, s.g, burst);
    P.StepKeeps(s.p, P.WorkerPops(BURST));
    forall m
      ensures P.Held(r.p, m) == One(m in r.g.io.owner) && Elsewhere(r.p, m) + One(m in r.g.io.owner) <= 1
    {
      BurstCounts(s, burst, m);
    }
  }

  // ---- the worker's own steps

  /** Nothing is sent, and only `alloc` can be a new buffer. */
  ghost predicate Quiet(io: Io, r: Io, alloc: Option<Mbuf>) {
    && io.log <= r.log && (forall i :: |io.log| <= i < |r.log| ==> !r.log[i].Send?)
    && (forall m :: m in r.owner ==> m in io.owner || Some(m) == alloc)
  }

  lemma QuietTransitive(a: Io, b: Io, c: Io, alloc: Option<Mbuf>)
    requires Quiet(a, b, alloc) && Quiet(b, c, alloc)
    ensures Quiet(a, c, alloc)
  {
  }

  lemma EnqueueQuiet(io: Io, ip: u32, now: u64, alloc: Option<Mbuf>)
    requires io.rx != [] && io.rx[0] in io.owner
    ensures Quiet(io, Enqueue(io, ip, now), alloc)
  {
  }

  lemma ProbeQuiet(cfg: Arp.ArpConfig, io: Io, ip: u32, now: u64, alloc: Option<Mbuf>)
    ensures Quiet(io, Probe(cfg, io, ip, now, alloc), alloc)
  {
    hide Arp.MakeRequest;
  }

  lemma DisposeQuiet(cfg: F.Config, io: Io, o: F.Outcome, now: u64, alloc: Option<Mbuf>)
    requires io.rx != [] && io.rx[0] in io.owner
    ensures Quiet(io, G.Dispose(cfg, io, o, now, alloc), alloc)
  {
    if o.result == F.PendingArp {
      hide Enqueue, Probe, Quiet;
      EnqueueQuiet(io, o.waitIp, now, alloc);
      ProbeQuiet(G.ArpCfg(cfg), Enqueue(io, o.waitIp, now), o.waitIp, now, alloc);
      QuietTransitive(io, Enqueue(io, o.waitIp, now), G.Dispose(cfg, io, o, now, alloc), alloc);
    }
  }

  lemma FlushedQuiet(cfg: F.Config, io: Io, h: G.Handled, now: u64, alloc: Option<Mbuf>)
    requires HeldInv(io, now) && io.rx != []
    ensures var r := G.Flushed(cfg, io, h, now);
            Quiet(io, r, alloc) && r.rx == io.rx && r.rx[0] in r.owner
  {
    FirstOwned(io, now);
    FlushedKeeps(cfg, io, h, now);
    FirstOwned(G.Flushed(cfg, io, h, now), now);
    RelabelRxHeld(io, io.rx[0], h.frame, now);
    hide HeldInv, Flush;
    FlushKeepsUnlessFreed(cfg, h.cache, io.(frames := io.frames[io.rx[0] := h.frame]), h.outcome.learnedIp, now, io.rx[0]);
  }

  lemma HandleQuiet(cfg: F.Config, g: G.Gw, now: u64, alloc: Option<Mbuf>)
    requires GwInv(cfg, g) && g.io.rx != [] && g.clock <= now
    ensures Quiet(g.io, G.HandleOne(cfg, g, now, alloc).io, alloc)
  {
    hide SessInv, HeldInv, G.NamesClient, G.Verdict, G.Dispose, G.Flushed, Quiet;
    TimedLater(g.io, g.clock, now);
    var h := G.Verdict(cfg, g, now);
    FlushedQuiet(cfg, g.io, h, now, alloc);
    var io := G.Flushed(cfg, g.io, h, now);
    DisposeQuiet(cfg, io, h.outcome, now, alloc);
    QuietTransitive(g.io, io, G.HandleOne(cfg, g, now, alloc).io, alloc);
  }

  function AllocOf(w: G.Step): Option<Mbuf> {
    if w.HandleNext? then w.alloc else None
  }

  /** No step of the worker but the last sends anything, and only a probe brings in a new buffer. */
  lemma WorkQuiet(cfg: F.Config, g: G.Gw, w: G.Step)
    requires GwInv(cfg, g) && G.Enabled(cfg, g, w) && !w.Recv? && !w.Finish?
    ensures Quiet(g.io, G.Apply(cfg, g, w).io, AllocOf(w))
  {
    match w {
      case HandleNext(now, alloc) =>
        HandleQuiet(cfg, g, now, alloc);
        hide G.HandleOne, GwInv, Quiet;
      case ExpireHeld(now, ips) =>
        ExpirePendingFrees(g.io, ips, now);
        ExpirePendingShrunk(g.io, ips, now);
        hide ExpirePending, GwInv;
      case _ =>
    }
  }

  lemma {:induction false} NothingShipped(ext: seq<Event>)
    requires forall i :: 0 <= i < |ext| ==> !ext[i].Send?
    ensures Shipped(ext) == []
  {
    if ext != [] {
      NothingShipped(ext[..|ext| - 1]);
    }
  }

  lemma LedgerOf(cfg: F.Config, g: G.Gw)
    requires GwInv(cfg, g)
    ensures Replay(g.io.log) == Some(g.io.owner.Keys)
  {
  }

  lemma RecordCounts(p: P.Pipe, ext: seq<Event>, m: Mbuf)
    ensures P.Held(Record(p, ext), m) == P.Held(p, m) + Occurrences(Acquired(ext), m) - Occurrences(Discarded(ext), m)
    ensures Elsewhere(Record(p, ext), m) == Elsewhere(p, m)
  {
    hide Occurrences, Acquired, Discarded;
    P.CountConcat(p.created, Acquired(ext), m);
    P.CountConcat(p.dropped, Discarded(ext), m);
  }

  /** What the worker has changes by what it logs. */
  lemma LoggedCounts(cfg: F.Config, g: G.Gw, r: G.Gw, m: Mbuf)
    requires GwInv(cfg, g) && GwInv(cfg, r) && g.io.log <= r.io.log
    ensures var ext := Logged(g, r);
            One(m in r.io.owner) == One(m in g.io.owner)
              + Occurrences(Acquired(ext), m) - Occurrences(Discarded(ext), m) - Occurrences(Shipped(ext), m)
  {
    LedgerOf(cfg, g);
    LedgerOf(cfg, r);
    hide GwInv, Occurrences, Replay, Acquired, Discarded, Shipped;
    assert g.io.log + Logged(g, r) == r.io.log;
    LedgerCount(g.io.log, Logged(g, r), m);
  }

  /** The rings and threads do not look at what the worker creates and drops. */
  lemma RecordKeeps(p: P.Pipe, ext: seq<Event>)
    requires P.Inv(p) && forall m :: 0 <= P.Held(Record(p, ext), m)
    ensures P.Inv(Record(p, ext))
  {
    hide P.Taken, P.All, Acquired, Discarded, P.Held;
  }

  lemma WorkCounts(cfg: F.Config, s: Sys, r: G.Gw, alloc: Option<Mbuf>, m: Mbuf)
    requires Coupled(s) && Unique(s) && GwInv(cfg, s.g) && GwInv(cfg, r) && Quiet(s.g.io, r.io, alloc)
    requires alloc.Some? ==> Elsewhere(s.p, alloc.value) == 0
    ensures var p := Record(s.p, Logged(s.g, r));
            P.Held(p, m) == One(m in r.io.owner) && Elsewhere(p, m) + One(m in r.io.owner) <= 1
  {
    var ext := Logged(s.g, r);
    hide GwInv, P.Held, Elsewhere, Record, Acquired, Discarded, Shipped, Occurrences;
    NothingShipped(ext);
    CountEmpty(m);
    RecordCounts(s.p, ext, m);
    LoggedCounts(cfg, s.g, r, m);
    assert P.Held(s.p, m) == One(m in s.g.io.owner);
    assert Elsewhere(s.p, m) + One(m in s.g.io.owner) <= 1;
  }

  lemma WorkKeeps(cfg: F.Config, s: Sys, w: G.Step)
    requires SysInv(cfg, s) && Enabled(cfg, s, Work(w))
    ensures SysInv(cfg, Apply(cfg, s, Work(w)))
  {
    hide GwInv, P.Held, Elsewhere, Record, P.Inv, Quiet, G.Apply, G.Enabled;
    var r := Apply(cfg, s, Work(w));
    StepKeeps(cfg, s.g, w);
    WorkQuiet(cfg, s.g, w);
    forall m
      ensures P.Held(r.p, m) == One(m in r.g.io.owner) && Elsewhere(r.p, m) + One(m in r.g.io.owner) <= 1
    {
      WorkCounts(cfg, s, r.g, AllocOf(w), m);
    }
    RecordKeeps(s.p, Logged(s.g, r.g));
  }

  // ---- the worker hands its batch over

  lemma DrainOne(io: Io) returns (next: Io, e: Event)
    requires io.tx != [] || io.drop != []
    ensures Drain(io, |io.tx|) == Drain(next, |next.tx|) && next.log == io.log + [e]
    ensures if io.tx != [] then e == Send(io.tx[0]) && next.tx == io.tx[1..] && next.drop == io.drop
            else e.Free? && next.tx == [] && next.drop == io.drop[1..]
  {
    if io.tx != [] {
      next, e := Release(io.(tx := io.tx[1..]), io.tx[0], true), Send(io.tx[0]);
    } else {
      next, e := Release(io.(drop := io.drop[1..]), io.drop[0], false), Free(io.drop[0]);
    }
  }

  /** Draining with everything sent: the batch is sent in order, then the drop batch is freed. */
  lemma {:induction false} DrainLogged(io: Io) returns (ext: seq<Event>)
    ensures Drain(io, |io.tx|).log == io.log + ext && Shipped(ext) == io.tx && Acquired(ext) == []
    decreases |io.tx| + |io.drop|
  {
    if io.tx == [] && io.drop == [] {
      ext := [];
    } else {
      hide Drain, Shipped, Acquired;
      var next, e := DrainOne(io);
      var rest := DrainLogged(next);
      ext := [e] + rest;
      EventFirst(e, rest);
      Assoc(io.log, [e], rest);
    }
  }

  lemma {:induction false} EventFirst(e: Event, rest: seq<Event>)
    ensures Shipped([e] + rest) == (if e.Send? then [e.m] else []) + Shipped(rest)
    ensures Acquired([e] + rest) == (if e.Acquire? then [e.m] else []) + Acquired(rest)
    decreases |rest|
  {
    var ext := [e] + rest;
    if rest == [] {
      assert ext[..0] == [] && ext[0] == e;
    } else {
      var k := |rest| - 1;
      assert ext[..|ext| - 1] == [e] + rest[..k] && ext[|ext| - 1] == rest[k];
      EventFirst(e, rest[..k]);
    }
  }

  lemma HandOverCounts(p: P.Pipe, tx: seq<Mbuf>, m: Mbuf)
    requires p.sender.NotSending?
    ensures P.Held(Handed(p, tx), m) == P.Held(p, m) - Occurrences(tx, m)
    ensures Elsewhere(Handed(p, tx), m) == Elsewhere(p, m) + Occurrences(tx, m)
  {
    hide Occurrences;
    P.CountConcat(p.handed, tx, m);
    CountEmpty(m);
    assert tx[0..] == tx;
  }

  lemma HandedKeeps(p: P.Pipe, tx: seq<Mbuf>)
    requires P.Inv(p) && p.sender.NotSending? && forall m :: 0 <= P.Held(Handed(p, tx), m)
    ensures P.Inv(Handed(p, tx))
  {
    hide P.Taken, P.All, P.Held;
    assert tx[0..] == tx && p.txIn + [] == p.txIn;
  }

  lemma ShippedCounts(cfg: F.Config, s: Sys, r: G.Gw, tx: seq<Mbuf>, m: Mbuf)
    requires Coupled(s) && Unique(s) && GwInv(cfg, s.g) && GwInv(cfg, r) && s.g.io.log <= r.io.log
    requires s.p.sender.NotSending?
    requires Shipped(Logged(s.g, r)) == tx && Acquired(Logged(s.g, r)) == []
    ensures var p := Record(s.p, Logged(s.g, r));
            && P.Held(p, m) >= 0 && P.Held(Handed(p, tx), m) == One(m in r.io.owner)
            && Elsewhere(Handed(p, tx), m) + One(m in r.io.owner) <= 1
  {
    var ext := Logged(s.g, r);
    var p := Record(s.p, ext);
    assert p.sender.NotSending?;
    hide GwInv, P.Held, Elsewhere, Record, Handed, Acquired, Discarded, Shipped, Occurrences;
    RecordCounts(s.p, ext, m);
    LoggedCounts(cfg, s.g, r, m);
    HandOverCounts(p, tx, m);
    CountEmpty(m);
    assert P.Held(s.p, m) == One(m in s.g.io.owner);
    assert Elsewhere(s.p, m) + One(m in s.g.io.owner) <= 1;
  }

  lemma HandOverKeeps(cfg: F.Config, s: Sys)
    requires SysInv(cfg, s) && Enabled(cfg, s, HandOver)
    ensures SysInv(cfg, Apply(cfg, s, HandOver))
  {
    hide GwInv, Drain, P.Held, Elsewhere, P.Inv, Acquired, Discarded, Shipped;
    var r, tx := Apply(cfg, s, HandOver), s.g.io.tx;
    var p := Record(s.p, Logged(s.g, r.g));
    assert p.sender.NotSending?;
    FinishKeeps(cfg, s.g, |tx|);
    var logged := DrainLogged(s.g.io);
    assert logged == Logged(s.g, r.g);
    hide Record, Handed;
    forall m
      ensures P.Held(p, m) >= 0
      ensures P.Held(r.p, m) == One(m in r.g.io.owner) && Elsewhere(r.p, m) + One(m in r.g.io.owner) <= 1
    {
      ShippedCounts(cfg, s, r.g, tx, m);
    }
    RecordKeeps(s.p, logged);
    HandedKeeps(p, tx);
  }

  // ---------------------------------------------------------------- the theorem

  lemma StepKeepsSys(cfg: F.Config, s: Sys, step: Step)
    requires SysInv(cfg, s) && Enabled(cfg, s, step)
    ensures SysInv(cfg, Apply(cfg, s, step))
  {
    match step {
      case Threads(t) => ThreadsKeep(cfg, s, t);
      case Take(burst) => TakeKeeps(cfg, s, burst);
      case Work(w) => WorkKeeps(cfg, s, w);
      case HandOver => HandOverKeeps(cfg, s);
    }
  }

  ghost predicate IsRun(cfg: F.Config, s: Sys, steps: seq<Step>)
    decreases |steps|
  {
    steps == [] || (Enabled(cfg, s, steps[0]) && IsRun(cfg, Apply(cfg, s, steps[0]), steps[1..]))
  }

  ghost function Run(cfg: F.Config, s: Sys, steps: seq<Step>): Sys
    requires IsRun(cfg, s, steps)
    decreases |steps|
  {
    if steps == [] then s else Run(cfg, Apply(cfg, s, steps[0]), steps[1..])
  }

  lemma {:induction false} RunKeepsSys(cfg: F.Config, s: Sys, steps: seq<Step>)
    requires SysInv(cfg, s) && IsRun(cfg, s, steps)
    ensures SysInv(cfg, Run(cfg, s, steps))
    decreases |steps|
  {
    hide SysInv, Apply, Enabled;
    if steps != [] {
      StepKeepsSys(cfg, s, steps[0]);
      RunKeepsSys(cfg, Apply(cfg, s, steps[0]), steps[1..]);
    }
  }

  ghost predicate Initial(cfg: F.Config, s: Sys) {
    s.p == P.Empty(s.p.capacity) && G.Initial(cfg, s.g)
  }

  lemma InitialKeeps(cfg: F.Config, s: Sys)
    requires Initial(cfg, s)
    ensures SysInv(cfg, s)
  {
    InitialInv(cfg, s.g);
    assert P.Inv(s.p);
    hide GwInv, P.Inv;
    forall m
      ensures P.Held(s.p, m) == 0 && Elsewhere(s.p, m) == 0 && m !in s.g.io.owner
    {
      CountEmpty(m);
    }
  }

  /** What a step of the system is to the gateway: one of its own steps, or none. */
  lemma StepIsGatewayStep(cfg: F.Config, s: Sys, step: Step) returns (gs: seq<G.Step>)
    requires SysInv(cfg, s) && Enabled(cfg, s, step)
    ensures |gs| <= 1 && (gs == [] ==> Apply(cfg, s, step).g == s.g)
    ensures gs != [] ==> G.Enabled(cfg, s.g, gs[0]) && G.Apply(cfg, s.g, gs[0]) == Apply(cfg, s, step).g
  {
    hide GwInv, P.Inv, Coupled, P.Apply, Record, Handed;
    match step {
      case Threads(_) => gs := [];
      case Take(burst) =>
        PoppedIsFresh(s, burst);
        hide Unique, Receive;
        gs := [G.Recv(burst)];
      case Work(w) =>
        hide G.Apply, G.Enabled;
        gs := [w];
      case HandOver =>
        hide Drain;
        gs := [G.Finish(|s.g.io.tx|)];
    }
  }

  /** A run of the system is a run of the gateway; so what holds of every run of the gateway holds here. */
  lemma {:induction false} RunIsGatewayRun(cfg: F.Config, s: Sys, steps: seq<Step>) returns (gs: seq<G.Step>)
    requires SysInv(cfg, s) && IsRun(cfg, s, steps)
    ensures G.IsRun(cfg, s.g, gs) && G.Run(cfg, s.g, gs) == Run(cfg, s, steps).g
    decreases |steps|
  {
    hide SysInv, Apply, Enabled, G.Apply, G.Enabled;
    if steps == [] {
      gs := [];
    } else {
      StepKeepsSys(cfg, s, steps[0]);
      var first := StepIsGatewayStep(cfg, s, steps[0]);
      var rest := RunIsGatewayRun(cfg, Apply(cfg, s, steps[0]), steps[1..]);
      gs := first + rest;
      if first == [] {
        assert gs == rest;
      } else {
        assert gs[0] == first[0] && gs[1..] == rest;
      }
    }
  }

  /** For example, in pipeline mode too the session table is consistent in every reachable state. */
  lemma PipelinedSessions(cfg: F.Config, s: Sys, steps: seq<Step>)
    requires Initial(cfg, s) && IsRun(cfg, s, steps)
    ensures N.Consistent(Run(cfg, s, steps).g.sess)
  {
    InitialKeeps(cfg, s);
    var gs := RunIsGatewayRun(cfg, s, steps);
    hide Run, IsRun, SysInv, G.Run, G.IsRun, N.Consistent;
    N.ReachableSessions(cfg, s.g, gs);
  }

  /** Both rings deliver in push order, and what the RX thread pushed is a prefix of each burst. */
  ghost predicate InOrder(p: P.Pipe) {
    && p.rxIn == p.rxOut + p.rxRing && p.rxIn == P.Taken(p.received) + P.RxDone(p)
    && p.txIn == p.txOut + p.txRing && p.handed == p.txIn + P.TxLeft(p)
    && p.txOut == P.All(p.transmitted) + P.InTxThread(p)
  }

  /**
   From NIC to NIC, over every interleaving of RX thread, worker and TX thread: a buffer has come in
   (from the NIC or the pool) as often as it is under way outside the worker, in the worker's lists,
   transmitted or freed; it is under way at most once; the worker's own accounts balance; and both
   rings deliver in order.
   */
  lemma NicToNic(cfg: F.Config, s: Sys, steps: seq<Step>, m: Mbuf)
    requires Initial(cfg, s) && IsRun(cfg, s, steps)
    ensures var r := Run(cfg, s, steps);
            && P.CameIn(r.p, m) == Elsewhere(r.p, m) + One(m in r.g.io.owner)
                                   + Occurrences(P.Taken(r.p.transmitted), m) + P.Freed(r.p, m)
            && Elsewhere(r.p, m) + One(m in r.g.io.owner) <= 1
            && R.Accounted(r.g.io) && InOrder(r.p)
  {
    InitialKeeps(cfg, s);
    RunKeepsSys(cfg, s, steps);
    hide Run, IsRun;
    var r := Run(cfg, s, steps);
    P.Balance(r.p, m);
    R.OwnedAccounted(r.g.io);
    assert P.Held(r.p, m) == One(m in r.g.io.owner);
    hide P.Inv, GwInv, R.Accounted, Occurrences, P.Held;
  }
}
