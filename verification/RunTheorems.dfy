/**
 The worker over whole runs: where every buffer is, what a held packet becomes, when a reply is
 sent at once, how full the transmit batch gets, and how often an address is probed.
 */
module RunTheorems {
  import opened Base
  import opened Packet
  import opened PacketProofs
  import opened Sessions
  import SessionProofs
  import opened Upstreams
  import opened Neighbors
  import opened Arp
  import opened Worker
  import opened Ownership
  import opened HeldPackets
  import opened WorkerSteps
  import opened Gateway
  import opened GatewayProofs
  import F = Forward

  // ------------------------------------------------------------ packet ownership

  /** The ledger balances, and each buffer held is in exactly one list, exactly once. */
  ghost predicate Accounted(io: Io) {
    && Replay(io.log) == Some(io.owner.Keys)
    && (forall p, m :: m in ListAt(io, p) <==> m in io.owner && io.owner[m] == p)
    && (forall p :: NoDup(ListAt(io, p)))
  }

  lemma OwnedAccounted(io: Io)
    requires Owned(io)
    ensures Accounted(io)
    ensures io.rx == [] && io.tx == [] && io.drop == [] ==> forall m :: m in io.owner ==> io.owner[m].Held?
  {
    forall p
      ensures NoDup(ListAt(io, p)) && forall m :: m in ListAt(io, p) <==> m in io.owner && io.owner[m] == p
    {
      assert PlaceOwned(io, p);
    }
    forall m | m in io.owner
      ensures m in ListAt(io, io.owner[m])
    {
      assert PlaceOwned(io, io.owner[m]);
    }
  }

  /**
   At every point of every run: the ledger of acquisitions, sends and frees balances (nothing is
   sent or freed that is not held, nothing is acquired twice), each buffer held is in exactly one
   list, exactly once, and between iterations only the pending queues hold buffers.
   */
  lemma PacketOwnership(cfg: F.Config, g: Gw, steps: seq<Step>)
    requires Initial(cfg, g) && IsRun(cfg, g, steps)
    ensures var io := Run(cfg, g, steps).io;
            && Accounted(io)
            && (io.rx == [] && io.tx == [] && io.drop == [] ==> forall m :: m in io.owner ==> io.owner[m].Held?)
  {
    InitialInv(cfg, g);
    RunKeeps(cfg, g, steps);
    hide Run, IsRun, Initial, SessInv, Owned, Accounted, HeldReady;
    OwnedAccounted(Run(cfg, g, steps).io);
  }

  /** Every queue of every reachable state is non-empty, time-ordered and at most 64 long. */
  lemma ReachableQueues(cfg: F.Config, g: Gw, steps: seq<Step>)
    requires Initial(cfg, g) && IsRun(cfg, g, steps)
    ensures var r := Run(cfg, g, steps);
            forall ip :: ip in r.io.pending ==> ip != 0 && r.io.pending[ip] != [] && QueueOk(r.io.pending[ip], r.clock)
  {
    InitialInv(cfg, g);
    RunKeeps(cfg, g, steps);
    hide Run, IsRun, Owned, HeldReady, SessInv;
  }

  /** Any two probes to one address are at least an interval apart, so their rate is bounded. */
  lemma ReachableProbes(cfg: F.Config, g: Gw, steps: seq<Step>, ip: u32, lo: u64, hi: u64)
    requires Initial(cfg, g) && IsRun(cfg, g, steps) && lo <= hi
    ensures Spaced(Run(cfg, g, steps).io.probes)
    ensures ProbesIn(Run(cfg, g, steps).io.probes, ip, lo, hi) <= (hi - lo) / 1_000 + 1
  {
    InitialInv(cfg, g);
    RunKeeps(cfg, g, steps);
    hide Run, IsRun, HeldInv, SessInv, ProbesIn, Initial;
    ProbeRate(Run(cfg, g, steps).io.probes, ip, lo, hi);
  }

  // ------------------------------------------------- holding refines sending

  /**
   What a step may do to a packet held for `ip`. If the step frees it, the buffer is gone, or was
   taken on again as a probe; otherwise it is held or sent, as `FrameFate` says.
   */
  ghost predicate HeldFate(cfg: F.Config, c: Cache, io: Io, r: Io, ip: u32, m: Mbuf)
    requires m in io.owner
  {
    if Freed(io.log, r.log, m) then m in r.owner ==> r.owner[m] == InTx
    else m in r.owner && FrameFate(cfg, c, io, r, ip, m)
  }

  lemma HeldLength(io: Io, m: Mbuf, clock: u64)
    requires HeldInv(io, clock) && m in io.owner && io.owner[m].Held?
    ensures ETH_LEN <= |FrameOf(io, m)| && SameBody(FrameOf(io, m), FrameOf(io, m))
  {
    assert Ready(io.frames[m], io.owner[m].ip);
  }

  /** `m` stays where it is, and nothing is logged about it. */
  ghost predicate Untouched(io: Io, r: Io, m: Mbuf) {
    && io.log <= r.log && !Freed(io.log, r.log, m)
    && m in io.owner && m in r.owner && r.owner[m] == io.owner[m] && FrameOf(r, m) == FrameOf(io, m)
  }

  lemma UntouchedTransitive(a: Io, b: Io, c: Io, m: Mbuf)
    requires Untouched(a, b, m) && Untouched(b, c, m)
    ensures Untouched(a, c, m)
  {
    FreedSplit(a.log, b.log, c.log, m);
  }

  lemma UntouchedFate(cfg: F.Config, c: Cache, io: Io, r: Io, ip: u32, m: Mbuf, clock: u64)
    requires HeldInv(io, clock) && m in io.owner && io.owner[m] == Held(ip) && Untouched(io, r, m)
    ensures HeldFate(cfg, c, io, r, ip, m)
  {
    HeldLength(io, m, clock);
  }

  lemma EnqueueOther(io: Io, ip: u32, now: u64, m: Mbuf)
    requires io.rx != [] && m != io.rx[0]
    ensures io.log <= Enqueue(io, ip, now).log
    ensures m in Enqueue(io, ip, now).owner <==> m in io.owner
    ensures m in io.owner ==> Untouched(io, Enqueue(io, ip, now), m)
  {
  }

  lemma ProbeOther(cfg: ArpConfig, io: Io, ip: u32, now: u64, alloc: Option<Mbuf>, m: Mbuf)
    requires alloc.Some? ==> alloc.value !in io.owner
    ensures io.log <= Probe(cfg, io, ip, now, alloc).log
    ensures m in io.owner ==> Untouched(io, Probe(cfg, io, ip, now, alloc), m)
    ensures m !in io.owner && m in Probe(cfg, io, ip, now, alloc).owner ==>
              Probe(cfg, io, ip, now, alloc).owner[m] == InTx
  {
    hide MakeRequest;
  }

  /** Disposing of the packet at hand leaves the others alone; only a probe can take on a new buffer. */
  lemma DisposeOther(cfg: F.Config, io: Io, o: F.Outcome, now: u64, alloc: Option<Mbuf>, m: Mbuf)
    requires io.rx != [] && m != io.rx[0] && Allocatable(io, o, now, alloc)
    ensures var r := Dispose(cfg, io, o, now, alloc);
            && io.log <= r.log
            && (m in io.owner ==> Untouched(io, r, m))
            && (m !in io.owner && m in r.owner ==> r.owner[m] == InTx)
  {
    if o.result == F.PendingArp {
      var e := Enqueue(io, o.waitIp, now);
      EnqueueOther(io, o.waitIp, now, m);
      ProbeOther(ArpCfg(cfg), e, o.waitIp, now, alloc, m);
      hide Enqueue, Probe, Untouched;
      if m in io.owner {
        UntouchedTransitive(io, e, Dispose(cfg, io, o, now, alloc), m);
      }
    }
  }

  lemma FlushedFate(cfg: F.Config, io: Io, h: Handled, now: u64, ip: u32, m: Mbuf)
    requires HeldInv(io, now) && io.rx != [] && m in io.owner && io.owner[m] == Held(ip)
    ensures var r := Flushed(cfg, io, h, now);
            && m != io.rx[0] && io.log <= r.log && (m in r.owner <==> !Freed(io.log, r.log, m))
            && FrameFate(cfg, h.cache, io, r, ip, m)
  {
    ListedIsOwned(io, InRx, 0);
    HeldLength(io, m, now);
    RelabelRxHeld(io, io.rx[0], h.frame, now);
    var io1 := io.(frames := io.frames[io.rx[0] := h.frame]);
    var learned := h.outcome.learnedIp;
    assert FrameOf(io1, m) == FrameOf(io, m);
    if learned != 0 {
      FlushFates(cfg, h.cache, io1, learned, now);
      FlushKeepsUnlessFreed(cfg, h.cache, io1, learned, now, m);
      hide HeldInv, Flush, SetL2, FrameOf;
      if learned == ip {
        assert FrameFate(cfg, h.cache, io1, Flush(cfg, h.cache, io1, learned, now), ip, m);
      }
    }
  }

  lemma HandleOneFate(cfg: F.Config, g: Gw, now: u64, alloc: Option<Mbuf>, ip: u32, m: Mbuf)
    requires GwInv(cfg, g) && Enabled(cfg, g, HandleNext(now, alloc))
    requires m in g.io.owner && g.io.owner[m] == Held(ip)
    ensures var r := HandleOne(cfg, g, now, alloc); HeldFate(cfg, r.cache, g.io, r.io, ip, m)
  {
    var h := Verdict(cfg, g, now);
    TimedLater(g.io, g.clock, now);
    FlushedRx(cfg, g.io, h, now);
    FlushedFate(cfg, g.io, h, now, ip, m);
    var io := Flushed(cfg, g.io, h, now);
    hide GwInv, Verdict, Flushed, Dispose, HeldInv, FrameOf, SetL2, SameBody, Allocatable;
    DisposeOther(cfg, io, h.outcome, now, alloc, m);
    FreedSplit(g.io.log, io.log, HandleOne(cfg, g, now, alloc).io.log, m);
  }

  lemma ExpiryFate(cfg: F.Config, c: Cache, io: Io, ips: seq<u32>, now: u64, clock: u64, ip: u32, m: Mbuf)
    requires HeldInv(io, clock) && m in io.owner && io.owner[m] == Held(ip)
    ensures HeldFate(cfg, c, io, ExpirePending(io, ips, now), ip, m)
  {
    var r := ExpirePending(io, ips, now);
    ExpirePendingFrees(io, ips, now);
    ExpirePendingShrunk(io, ips, now);
    ExpirePendingOwned(io, ips, now);
    HeldLength(io, m, clock);
    hide ExpirePending, AllPlaces, HeldReady, SetL2;
    FreedIsGone(io, r, m);
  }

  /** Sending and freeing the batches does not touch the queues. */
  lemma FinishUntouched(io: Io, sent: nat, clock: u64, ip: u32, m: Mbuf)
    requires HeldInv(io, clock) && m in io.owner && io.owner[m] == Held(ip)
    ensures Untouched(io, Drain(io, sent), m)
  {
    ListedIsNot(io, ip, m);
    DrainUntouched(io, sent, m);
  }

  lemma ListedIsNot(io: Io, ip: u32, m: Mbuf)
    requires Owned(io) && m in io.owner && io.owner[m] == Held(ip)
    ensures m !in io.tx && m !in io.drop
  {
    assert PlaceOwned(io, InTx) && PlaceOwned(io, InDrop);
  }

  lemma {:induction false} DrainUntouched(io: Io, sent: nat, m: Mbuf)
    requires m in io.owner && m !in io.tx && m !in io.drop
    ensures Untouched(io, Drain(io, sent), m)
    decreases |io.tx| + |io.drop|
  {
    if io.tx != [] {
      var next := Release(io.(tx := io.tx[1..]), io.tx[0], sent > 0);
      DrainUntouched(next, if sent > 0 then sent - 1 else 0, m);
      UntouchedTransitive(io, next, Drain(io, sent), m);
    } else if io.drop != [] {
      var next := Release(io.(drop := io.drop[1..]), io.drop[0], false);
      DrainUntouched(next, 0, m);
      UntouchedTransitive(io, next, Drain(io, sent), m);
    }
  }

  lemma {:induction false} ReceiveUntouched(io: Io, burst: seq<(Mbuf, Frame)>, m: Mbuf)
    requires m in io.owner && forall i :: 0 <= i < |burst| ==> burst[i].0 != m
    ensures Untouched(io, Receive(io, burst), m)
  {
    if burst != [] {
      var before := Receive(io, burst[..|burst| - 1]);
      ReceiveUntouched(io, burst[..|burst| - 1], m);
      UntouchedTransitive(io, before, Receive(io, burst), m);
    }
  }

  /**
   Over any step a held packet is freed, keeps its bytes beyond the MACs, or is sent with the
   neighbor's MAC.
   */
  lemma StepFate(cfg: F.Config, g: Gw, s: Step, ip: u32, m: Mbuf)
    requires GwInv(cfg, g) && Enabled(cfg, g, s) && m in g.io.owner && g.io.owner[m] == Held(ip)
    ensures var r := Apply(cfg, g, s); HeldFate(cfg, r.cache, g.io, r.io, ip, m)
  {
    var r := Apply(cfg, g, s);
    match s {
      case HandleNext(now, alloc) =>
        HandleOneFate(cfg, g, now, alloc, ip, m);
        hide HandleOne, HeldFate, GwInv;
      case ExpireHeld(now, ips) =>
        ExpiryFate(cfg, g.cache, g.io, ips, now, g.clock, ip, m);
        hide GwInv, ExpirePending, HeldFate;
      case Recv(burst) =>
        ReceiveUntouched(g.io, burst, m);
        hide Receive, Untouched, HeldFate, SessInv;
        UntouchedFate(cfg, r.cache, g.io, r.io, ip, m, g.clock);
      case Finish(sent) =>
        FinishUntouched(g.io, sent, g.clock, ip, m);
        hide Drain, Untouched, HeldFate, SessInv;
        UntouchedFate(cfg, r.cache, g.io, r.io, ip, m, g.clock);
      case _ =>
        UntouchedFate(cfg, r.cache, g.io, r.io, ip, m, g.clock);
        hide HeldFate;
    }
  }

  /** `m` is held for `ip` at every point of the run. */
  ghost predicate HeldThroughout(cfg: F.Config, g: Gw, steps: seq<Step>, ip: u32, m: Mbuf)
    requires IsRun(cfg, g, steps)
    decreases |steps|
  {
    && m in g.io.owner && g.io.owner[m] == Held(ip)
    && (steps != [] ==> HeldThroughout(cfg, Apply(cfg, g, steps[0]), steps[1..], ip, m))
  }

  lemma {:induction false} HeldBytes(cfg: F.Config, g: Gw, steps: seq<Step>, ip: u32, m: Mbuf)
    requires GwInv(cfg, g) && IsRun(cfg, g, steps) && HeldThroughout(cfg, g, steps, ip, m)
    ensures var r := Run(cfg, g, steps);
            && m in r.io.owner && r.io.owner[m] == Held(ip)
            && SameBody(FrameOf(r.io, m), FrameOf(g.io, m))
    decreases |steps|
  {
    hide GwInv, Apply, SetL2, Enabled, FrameOf, SameBody;
    if steps == [] {
      HeldSame(cfg, g, ip, m);
    } else {
      var next := Apply(cfg, g, steps[0]);
      StepKeeps(cfg, g, steps[0]);
      HeldStepSame(cfg, g, steps[0], ip, m);
      HeldBytes(cfg, next, steps[1..], ip, m);
      SameBodyTransitive(FrameOf(Run(cfg, g, steps).io, m), FrameOf(next.io, m), FrameOf(g.io, m));
    }
  }

  lemma SameBodyTransitive(a: Frame, b: Frame, c: Frame)
    requires SameBody(a, b) && SameBody(b, c)
    ensures SameBody(a, c)
  {
  }

  lemma HeldSame(cfg: F.Config, g: Gw, ip: u32, m: Mbuf)
    requires GwInv(cfg, g) && m in g.io.owner && g.io.owner[m] == Held(ip)
    ensures SameBody(FrameOf(g.io, m), FrameOf(g.io, m))
  {
    HeldLength(g.io, m, g.clock);
  }

  /** A packet that is held before a step and after it has the same bytes beyond the MACs. */
  lemma HeldStepSame(cfg: F.Config, g: Gw, s: Step, ip: u32, m: Mbuf)
    requires GwInv(cfg, g) && Enabled(cfg, g, s) && m in g.io.owner && g.io.owner[m] == Held(ip)
    requires var r := Apply(cfg, g, s); m in r.io.owner && r.io.owner[m] == Held(ip)
    ensures SameBody(FrameOf(Apply(cfg, g, s).io, m), FrameOf(g.io, m))
  {
    hide GwInv, Apply, SetL2, Enabled, FrameOf, SameBody;
    StepFate(cfg, g, s, ip, m);
  }

  /** Had the neighbor been known, the forwarder would have sent the frame it now holds, with that MAC. */
  lemma DirectFrame(cfg: F.Config, c: Cache, sess: Table, ups: Ups, f: Frame, now: u64, ip: u32, e: Neighbors.Entry)
    requires F.Handle(cfg, c, sess, ups, f, now).outcome == F.Outcome(F.PendingArp, ip, 0)
    ensures var held := F.Handle(cfg, c, sess, ups, f, now);
            var direct := F.Handle(cfg, c[ip := e], sess, ups, f, now);
            && direct.outcome.result in {F.TxForward, F.TxReverse}
            && ETH_LEN <= |held.frame|
            && direct.frame == SetL2(held.frame, cfg.gatewayMac, e.mac)
            && direct.sess == held.sess && direct.ups == held.ups
  {
    hide F.SessionFor, F.ForwardNat, F.ReverseNat, SetL2, Touch, LookupReverse;
  }

  /**
   Holding refines sending at once. A packet held for a missing neighbor and sent in a later step
   leaves byte for byte as the frame that the forwarder would have produced when it arrived, had
   it known the MAC that the neighbor turned out to have.
   */
  lemma HoldingRefinesSending(cfg: F.Config, g: Gw, now: u64, alloc: Option<Mbuf>, steps: seq<Step>, last: Step, ip: u32)
    requires GwInv(cfg, g) && Enabled(cfg, g, HandleNext(now, alloc)) && g.clock <= now
    requires var g1, m := HandleOne(cfg, g, now, alloc), g.io.rx[0];
             && IsRun(cfg, g1, steps) && HeldThroughout(cfg, g1, steps, ip, m)
             && Enabled(cfg, Run(cfg, g1, steps), last)
             && var held, end := Run(cfg, g1, steps).io, Apply(cfg, Run(cfg, g1, steps), last).io;
                !Freed(held.log, end.log, m) && m in end.owner && end.owner[m] == InTx
    ensures var m, f := g.io.rx[0], FrameOf(g.io, g.io.rx[0]);
            var end := Apply(cfg, Run(cfg, HandleOne(cfg, g, now, alloc), steps), last);
            && ip in end.cache
            && var c := PassiveLearn(g.cache, f, now)[ip := end.cache[ip]];
               var direct := F.Handle(cfg, c, g.sess, g.ups, f, now);
               direct.outcome.result in {F.TxForward, F.TxReverse} && FrameOf(end.io, m) == direct.frame
  {
    var m, f := g.io.rx[0], FrameOf(g.io, g.io.rx[0]);
    var g1 := HandleOne(cfg, g, now, alloc);
    HandleOneKeeps(cfg, g, now, alloc);
    HeldOnArrival(cfg, g, now, alloc, ip);
    var r := Run(cfg, g1, steps);
    HeldBytes(cfg, g1, steps, ip, m);
    RunKeeps(cfg, g1, steps);
    StepFate(cfg, r, last, ip, m);
    HeldLength(r.io, m, r.clock);
    hide GwInv, Run, IsRun, HandleOne, Apply, Enabled, HeldThroughout, SameBody, F.Handle, PassiveLearn, HeldInv;
    var end := Apply(cfg, r, last);
    SetL2Body(FrameOf(r.io, m), FrameOf(g1.io, m), cfg.gatewayMac, end.cache[ip].mac);
    DirectFrame(cfg, PassiveLearn(g.cache, f, now), g.sess, g.ups, f, now, ip, end.cache[ip]);
  }

  /** A packet that is held on arrival is held with the frame the forwarder made of it. */
  lemma HeldOnArrival(cfg: F.Config, g: Gw, now: u64, alloc: Option<Mbuf>, ip: u32)
    requires GwInv(cfg, g) && Enabled(cfg, g, HandleNext(now, alloc))
    requires var r, m := HandleOne(cfg, g, now, alloc).io, g.io.rx[0]; m in r.owner && r.owner[m] == Held(ip)
    ensures var m, f := g.io.rx[0], FrameOf(g.io, g.io.rx[0]);
            var o := F.Handle(cfg, PassiveLearn(g.cache, f, now), g.sess, g.ups, f, now);
            o.outcome == F.Outcome(F.PendingArp, ip, 0) && FrameOf(HandleOne(cfg, g, now, alloc).io, m) == o.frame
  {
    var m, f := g.io.rx[0], FrameOf(g.io, g.io.rx[0]);
    ListedIsOwned(g.io, InRx, 0);
    var h := HandleFrame(cfg, g, g.io.pending.Keys, f, now);
    TimedLater(g.io, g.clock, now);
    FlushedKeeps(cfg, g.io, h, now);
    var io := Flushed(cfg, g.io, h, now);
    FirstOwned(io, now);
    hide GwInv, Flushed, HeldInv, HandleFrame;
    DisposedFirst(cfg, io, h.outcome, now, alloc, ip);
    WaitingOutcome(cfg, g, g.io.pending.Keys, f, now);
  }

  lemma DisposedFirst(cfg: F.Config, io: Io, o: F.Outcome, now: u64, alloc: Option<Mbuf>, ip: u32)
    requires io.rx != [] && Allocatable(io, o, now, alloc)
    requires var r, m := Dispose(cfg, io, o, now, alloc), io.rx[0]; m in r.owner && r.owner[m] == Held(ip)
    ensures o.result == F.PendingArp && o.waitIp == ip
    ensures FrameOf(Dispose(cfg, io, o, now, alloc), io.rx[0]) == FrameOf(io, io.rx[0])
  {
    if o.result == F.PendingArp {
      ProbeOther(ArpCfg(cfg), Enqueue(io, o.waitIp, now), o.waitIp, now, alloc, io.rx[0]);
      hide Probe;
    }
  }

  lemma WaitingOutcome(cfg: F.Config, g: Gw, waiting: set<u32>, f: Frame, now: u64)
    requires HandleFrame(cfg, g, waiting, f, now).outcome.result == F.PendingArp
    ensures var o := F.Handle(cfg, PassiveLearn(g.cache, f, now), g.sess, g.ups, f, now);
            var h := HandleFrame(cfg, g, waiting, f, now);
            o.outcome == F.Outcome(F.PendingArp, h.outcome.waitIp, 0) && o.frame == h.frame
  {
    hide F.SessionFor, F.ForwardNat, F.ReverseNat, SetL2, Touch, LookupReverse, Arp.Handle;
  }

  /** Looking at the source again changes neither the result nor the address to wait for. */
  lemma WaitKept(cfg: F.Config, g: Gw, waiting: set<u32>, f: Frame, now: u64)
    requires EtherType(f) == ETHER_TYPE_IPV4
    ensures var o := F.Handle(cfg, PassiveLearn(g.cache, f, now), g.sess, g.ups, f, now).outcome;
            var v := HandleFrame(cfg, g, waiting, f, now).outcome;
            v.result == o.result && v.waitIp == o.waitIp
  {
    hide F.Handle, PassiveLearn, EtherType, Ipv4Src;
  }

  // ------------------------------------------------------- replies sent at once

  lemma StepKnown(cfg: F.Config, g: Gw, s: Step, ip: u32, since: u64)
    requires GwInv(cfg, g) && Enabled(cfg, g, s)
    requires KnownSince(g.cache, ip, since) && since <= g.clock
    requires Apply(cfg, g, s).clock < since + NEIGHBOR_TIMEOUT
    ensures KnownSince(Apply(cfg, g, s).cache, ip, since)
  {
    match s {
      case HandleNext(now, alloc) =>
        hide GwInv, HandleFrame, Flushed, Dispose;
        HandleFrameKnown(cfg, g, g.io.pending.Keys, FrameOf(g.io, g.io.rx[0]), now, ip, since);
      case ExpireNeighbors(now) =>
        ExpireKeepsKnown(g.cache, ip, since, NEIGHBOR_TIMEOUT, now);
      case _ =>
    }
  }

  lemma HandleFrameKnown(cfg: F.Config, g: Gw, waiting: set<u32>, f: Frame, now: u64, ip: u32, since: u64)
    requires KnownSince(g.cache, ip, since) && since <= now
    ensures KnownSince(HandleFrame(cfg, g, waiting, f, now).cache, ip, since)
  {
    hide F.Handle, MakeReply;
  }

  lemma {:induction false} RunKnown(cfg: F.Config, g: Gw, steps: seq<Step>, ip: u32, since: u64)
    requires GwInv(cfg, g) && IsRun(cfg, g, steps)
    requires KnownSince(g.cache, ip, since) && since <= g.clock
    requires Run(cfg, g, steps).clock < since + NEIGHBOR_TIMEOUT
    ensures KnownSince(Run(cfg, g, steps).cache, ip, since)
    decreases |steps|
  {
    if steps != [] {
      var next := Apply(cfg, g, steps[0]);
      StepKeeps(cfg, g, steps[0]);
      RunKeeps(cfg, next, steps[1..]);
      hide GwInv, Apply, Enabled, KnownSince;
      StepKnown(cfg, g, steps[0], ip, since);
      RunKnown(cfg, next, steps[1..], ip, since);
    }
  }

  /** The next packet is for the VIP, from a unicast client address. */
  ghost predicate VipPacketNext(cfg: F.Config, g: Gw, client: u32) {
    g.io.rx != [] &&
    var f := FrameOf(g.io, g.io.rx[0]);
    && Parse(f, cfg.verify).Parsed? && HeadersFit(f) && F.ForVip(cfg, f)
    && IpAt(f, SRC_AT) == client && client != 0 && client % 0x100 < 224
  }

  /** The next packet is a reply to the live session `h`, whose client is `client`. */
  ghost predicate ReplyNext(cfg: F.Config, g: Gw, h: Handle, client: u32) {
    g.io.rx != [] &&
    var f := FrameOf(g.io, g.io.rx[0]);
    && Parse(f, cfg.verify).Parsed? && HeadersFit(f) && !F.ForVip(cfg, f)
    && h in g.sess.heap && g.sess.heap[h].reverseKey == F.KeyOf(f) && g.sess.heap[h].clientIp == client
  }

  lemma ParsedIsIpv4(f: Frame, verify: bool)
    requires Parse(f, verify).Parsed?
    ensures EtherType(f) == ETHER_TYPE_IPV4
  {
  }

  lemma KnownReverse(cfg: F.Config, c: Cache, sess: Table, ups: Ups, f: Frame, now: u64, h: Handle)
    requires Parse(f, cfg.verify).Parsed? && HeadersFit(f) && !F.ForVip(cfg, f)
    requires LookupReverse(sess, F.KeyOf(f)) == Some(h) && F.KeyOf(f).dstIp == cfg.gatewayIp
    requires sess.heap[h].clientIp in c
    ensures F.Handle(cfg, c, sess, ups, f, now).outcome.result == F.TxReverse
  {
    hide Parse, HeadersFit, SetL2, F.ReverseNat, F.ForVip;
  }

  lemma KnownReplySent(cfg: F.Config, g: Gw, now: u64, h: Handle, client: u32)
    requires SessInv(cfg, g.sess) && ReplyNext(cfg, g, h, client) && client in g.cache
    ensures Verdict(cfg, g, now).outcome.result == F.TxReverse
  {
    hide SessInv, F.Handle, Parse, LookupReverse, F.KeyOf, HeadersFit, F.ForVip, EtherType, Ipv4Src;
    var f := FrameOf(g.io, g.io.rx[0]);
    ReplyLooksUp(cfg, g, h, client);
    ParsedIsIpv4(f, cfg.verify);
    KnownReverse(cfg, PassiveLearn(g.cache, f, now), g.sess, g.ups, f, now, h);
  }

  lemma ReplyLooksUp(cfg: F.Config, g: Gw, h: Handle, client: u32)
    requires SessInv(cfg, g.sess) && ReplyNext(cfg, g, h, client)
    ensures var f := FrameOf(g.io, g.io.rx[0]);
            LookupReverse(g.sess, F.KeyOf(f)) == Some(h) && F.KeyOf(f).dstIp == cfg.gatewayIp
  {
    SessionProofs.LiveSession(g.sess, h);
    ReverseLookup(g.sess, F.KeyOf(FrameOf(g.io, g.io.rx[0])));
    hide Sessions.Inv, Parse, HeadersFit;
  }

  /**
   A reply for a live session, handled less than 300000 ms after a VIP packet from its client, goes
   straight to the transmit batch, whatever packets, learns and expiries came in between.
   */
  lemma ReplySentAtOnce(cfg: F.Config, g: Gw, t0: u64, alloc0: Option<Mbuf>, steps: seq<Step>,
                        now: u64, alloc: Option<Mbuf>, h: Handle, client: u32)
    requires GwInv(cfg, g) && Enabled(cfg, g, HandleNext(t0, alloc0)) && VipPacketNext(cfg, g, client)
    requires IsRun(cfg, HandleOne(cfg, g, t0, alloc0), steps)
    requires var r := Run(cfg, HandleOne(cfg, g, t0, alloc0), steps);
             && Enabled(cfg, r, HandleNext(now, alloc)) && now < t0 + 300_000
             && ReplyNext(cfg, r, h, client)
    ensures var r := Run(cfg, HandleOne(cfg, g, t0, alloc0), steps);
            SentDirectly(cfg, r, now, alloc)
  {
    var g1 := HandleOne(cfg, g, t0, alloc0);
    HandleOneKeeps(cfg, g, t0, alloc0);
    VipPacketKnows(cfg, g, t0, alloc0, client);
    RunKeeps(cfg, g1, steps);
    hide GwInv, Run, IsRun, HandleOne, VipPacketNext, ReplyNext, KnownSince, SentDirectly;
    RunKnown(cfg, g1, steps, client, t0);
    KnownReplyToTx(cfg, Run(cfg, g1, steps), now, alloc, h, client, t0);
  }

  /** The next packet ends up in the transmit batch, in the step that handles it. */
  ghost predicate SentDirectly(cfg: F.Config, g: Gw, now: u64, alloc: Option<Mbuf>)
    requires g.io.rx != []
  {
    var end, m := HandleOne(cfg, g, now, alloc).io, g.io.rx[0];
    m in end.owner && end.owner[m] == InTx && m in end.tx
  }

  lemma KnownReplyToTx(cfg: F.Config, g: Gw, now: u64, alloc: Option<Mbuf>, h: Handle, client: u32, since: u64)
    requires GwInv(cfg, g) && Enabled(cfg, g, HandleNext(now, alloc))
    requires KnownSince(g.cache, client, since) && ReplyNext(cfg, g, h, client)
    ensures SentDirectly(cfg, g, now, alloc)
  {
    hide SessInv, HeldInv, ReplyNext, SentDirectly, HandleFrame;
    KnownReplySent(cfg, g, now, h, client);
    hide GwInv;
    SentToTx(cfg, g, now, alloc);
  }

  lemma VipPacketKnows(cfg: F.Config, g: Gw, now: u64, alloc: Option<Mbuf>, client: u32)
    requires VipPacketNext(cfg, g, client)
    ensures var r := HandleOne(cfg, g, now, alloc); KnownSince(r.cache, client, now) && r.clock == now
  {
    hide F.Handle, Flushed, Dispose;
  }

  lemma SentToTx(cfg: F.Config, g: Gw, now: u64, alloc: Option<Mbuf>)
    requires g.io.rx != [] && Verdict(cfg, g, now).outcome.result == F.TxReverse
    ensures SentDirectly(cfg, g, now, alloc)
  {
    var h := Verdict(cfg, g, now);
    FlushedRx(cfg, g.io, h, now);
    hide HandleFrame, Flushed;
  }

  // --------------------------------------------------- how full the batch gets

  /** How many held packets the flush after `handle` moves: those unexpired, as far as there is room. */
  ghost function Moves(io: Io, h: Handled, now: u64): nat {
    var ip := h.outcome.learnedIp;
    if ip != 0 && ip in io.pending && ip in h.cache && |io.tx| < BURST
    then Min(|Unexpired(io.pending[ip], now)|, BURST - |io.tx|)
    else 0
  }

  lemma {:induction false} UnexpiredSuffix(q: seq<HeldPacket>, a: nat, now: u64)
    requires a <= |q| && forall i :: 0 <= i < |q| ==> (Expired(q[i], now) <==> i < a)
    ensures Unexpired(q, now) == q[a..]
  {
    if q != [] {
      assert Expired(q[0], now) <==> 0 < a;
      var rest := q[1..];
      forall i | 0 <= i < |rest|
        ensures Expired(rest[i], now) <==> i < (if a == 0 then 0 else a - 1)
      {
        assert rest[i] == q[i + 1];
      }
      UnexpiredSuffix(rest, if a == 0 then 0 else a - 1, now);
    }
  }

  /** The transmit batch after handle and flush. */
  lemma FlushedTx(cfg: F.Config, io: Io, h: Handled, now: u64)
    requires HeldInv(io, now) && io.rx != []
    ensures |Flushed(cfg, io, h, now).tx| == |io.tx| + Moves(io, h, now)
  {
    ListedIsOwned(io, InRx, 0);
    RelabelRxHeld(io, io.rx[0], h.frame, now);
    var io1, ip := io.(frames := io.frames[io.rx[0] := h.frame]), h.outcome.learnedIp;
    if ip != 0 && ip in io.pending {
      var a, b := FlushSplits(cfg, h.cache, io1, ip, now);
      UnexpiredSuffix(io.pending[ip], a, now);
      hide Flush, HeldInv, Unexpired;
    }
  }

  predicate Direct(o: F.Outcome) {
    o.result != F.Drop && o.result != F.PendingArp
  }

  lemma DisposeTx(cfg: F.Config, io: Io, o: F.Outcome, now: u64, alloc: Option<Mbuf>)
    requires io.rx != []
    ensures var r := Dispose(cfg, io, o, now, alloc);
            && (Direct(o) ==> |r.tx| == |io.tx| + 1)
            && (o.result == F.Drop ==> r.tx == io.tx)
            && (!Direct(o) ==> |r.tx| == |io.tx| || (|r.tx| == |io.tx| + 1 && |r.tx| <= BURST))
  {
    hide MakeRequest;
  }

  /** One packet: what the flush moves, and at most one buffer more; a probe only if there is room. */
  lemma TxExact(cfg: F.Config, g: Gw, now: u64, alloc: Option<Mbuf>)
    requires GwInv(cfg, g) && g.io.rx != [] && g.clock <= now
    ensures var v, r := Verdict(cfg, g, now), HandleOne(cfg, g, now, alloc).io;
            var flushed := |g.io.tx| + Moves(g.io, v, now);
            && |Flushed(cfg, g.io, v, now).tx| == flushed
            && (Direct(v.outcome) ==> |r.tx| == flushed + 1)
            && (v.outcome.result == F.Drop ==> |r.tx| == flushed)
            && (!Direct(v.outcome) ==> |r.tx| == flushed || (|r.tx| == flushed + 1 && |r.tx| <= BURST))
  {
    var h := Verdict(cfg, g, now);
    TimedLater(g.io, g.clock, now);
    FlushedRx(cfg, g.io, h, now);
    FlushedTx(cfg, g.io, h, now);
    DisposeTx(cfg, Flushed(cfg, g.io, h, now), h.outcome, now, alloc);
    hide GwInv, HandleFrame, Flushed, Dispose;
  }

  /** The batch is full, or the packet at hand completes a neighbor with enough packets waiting to fill it. */
  ghost predicate FillsUp(io: Io, h: Handled, now: u64) {
    var ip := h.outcome.learnedIp;
    || |io.tx| >= BURST
    || (ip != 0 && ip in io.pending && ip in h.cache && |io.tx| + |Unexpired(io.pending[ip], now)| >= BURST)
  }

  /**
   One packet takes the batch past the cap exactly when it is sent directly while the batch is full
   or is filled by the flush that this very packet sets off; only the direct append has no
   capacity test. Flush and probe alone never do.
   */
  lemma TxOverflow(cfg: F.Config, g: Gw, now: u64, alloc: Option<Mbuf>)
    requires GwInv(cfg, g) && g.io.rx != [] && g.clock <= now && |g.io.tx| <= 32
    ensures var v := Verdict(cfg, g, now);
            |HandleOne(cfg, g, now, alloc).io.tx| > 32 <==> Direct(v.outcome) && FillsUp(g.io, v, now)
  {
    TxExact(cfg, g, now, alloc);
    hide GwInv, HandleOne, Verdict, Unexpired;
  }

  ghost predicate AllHandle(steps: seq<Step>) {
    forall i :: 0 <= i < |steps| ==> steps[i].HandleNext?
  }

  /** No flush in the run moved a held packet. */
  ghost predicate NoneMoved(cfg: F.Config, g: Gw, steps: seq<Step>)
    requires AllHandle(steps) && IsRun(cfg, g, steps)
    decreases |steps|
  {
    steps == [] ||
    (&& |Flushed(cfg, g.io, Verdict(cfg, g, steps[0].now), steps[0].now).tx| == |g.io.tx|
     && NoneMoved(cfg, Apply(cfg, g, steps[0]), steps[1..]))
  }

  /**
   After `i` packets of a burst the batch holds at most `BURST + i` buffers, and at most `i` if no
   flush moved a held packet.
   */
  lemma {:induction false} BurstBound(cfg: F.Config, g: Gw, steps: seq<Step>, done: nat)
    requires GwInv(cfg, g) && AllHandle(steps) && IsRun(cfg, g, steps)
    requires |g.io.tx| <= BURST + done
    ensures |Run(cfg, g, steps).io.tx| <= BURST + done + |steps|
    ensures NoneMoved(cfg, g, steps) ==> |Run(cfg, g, steps).io.tx| <= |g.io.tx| + |steps|
    decreases |steps|
  {
    if steps != [] {
      assert steps[0].HandleNext?;
      var now, alloc := steps[0].now, steps[0].alloc;
      TxExact(cfg, g, now, alloc);
      StepKeeps(cfg, g, steps[0]);
      assert AllHandle(steps[1..]);
      hide GwInv, HandleOne, Flushed, Verdict;
      BurstBound(cfg, Apply(cfg, g, steps[0]), steps[1..], done + 1);
    }
  }
}
