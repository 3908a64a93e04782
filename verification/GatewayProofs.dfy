/** What every run of the gateway keeps. */
module GatewayProofs {
  import opened Base
  import opened Packet
  import opened PacketProofs
  import opened Sessions
  import opened SessionProofs
  import opened Upstreams
  import opened Neighbors
  import opened Arp
  import opened Worker
  import opened Ownership
  import opened HeldPackets
  import opened WorkerSteps
  import opened Gateway
  import F = Forward

  // ---------------------------------------------------------- the forwarder

  /** Both ends of every live session have an address packets can be held for. */
  ghost predicate EndsNamed(t: Table) {
    forall h :: h in t.heap ==> t.heap[h].clientIp != 0 && t.heap[h].upstreamIp != 0
  }

  ghost predicate SessInv(cfg: F.Config, t: Table) {
    Sessions.Inv(t) && t.gatewayIp == cfg.gatewayIp && EndsNamed(t)
  }

  lemma ParseWeaker(f: Frame, verify: bool)
    requires Parse(f, verify).Parsed?
    ensures ParseOk(f)
  {
  }

  /** On a consistent table the forward lookup is exactly membership, and finds the flow's own session. */
  lemma ForwardLookup(t: Table, key: FlowKey)
    requires Sessions.Inv(t)
    ensures LookupForward(t, key).Some? <==> key in t.forward
    ensures LookupForward(t, key).Some? ==>
              var h := LookupForward(t, key).value; h in t.heap && t.heap[h].forwardKey == key
    ensures forall h :: h in t.heap && t.heap[h].forwardKey == key ==> LookupForward(t, key) == Some(h)
  {
    forall h | h in t.heap && t.heap[h].forwardKey == key
      ensures LookupForward(t, key) == Some(h)
    {
      LiveSession(t, h);
    }
  }

  lemma ReverseLookup(t: Table, key: FlowKey)
    requires Sessions.Inv(t)
    ensures LookupReverse(t, key).Some? ==>
              var h := LookupReverse(t, key).value; h in t.heap && t.heap[h].reverseKey == key
    ensures forall h :: h in t.heap && t.heap[h].reverseKey == key ==> LookupReverse(t, key) == Some(h)
  {
    forall h | h in t.heap && t.heap[h].reverseKey == key
      ensures LookupReverse(t, key) == Some(h)
    {
      LiveSession(t, h);
    }
  }

  lemma TouchKeeps(cfg: F.Config, t: Table, h: Handle, now: u64)
    requires SessInv(cfg, t) && h in t.heap
    ensures SessInv(cfg, Touch(t, h, now)) && Continues(t, Touch(t, h, now))
  {
    hide Sessions.Inv;
    TouchKeepsInv(t, h, now);
    TouchNames(t, h, now);
    TouchContinues(t, h, now);
    hide Touch, EndsNamed, Continues;
  }

  lemma TouchNames(t: Table, h: Handle, now: u64)
    requires EndsNamed(t)
    ensures EndsNamed(Touch(t, h, now)) && Touch(t, h, now).gatewayIp == t.gatewayIp
  {
  }

  lemma CreateKeeps(cfg: F.Config, t: Table, key: FlowKey, ip: u32, port: u16, now: u64)
    requires SessInv(cfg, t) && key !in t.forward && key.srcIp != 0 && ip != 0
    ensures var (r, h) := Create(t, key, ip, port, now);
            && SessInv(cfg, r) && Continues(t, r)
            && (h.Some? ==> h.value in r.heap && r.heap[h.value].forwardKey == key)
  {
    hide Sessions.Inv, Create;
    CreateKeepsInv(t, key, ip, port, now);
    CreateContinues(t, key, ip, port, now);
    CreateNames(t, key, ip, port, now);
  }

  lemma SessionForKeeps(cfg: F.Config, sess: Table, ups: Ups, key: FlowKey, now: u64)
    requires SessInv(cfg, sess) && key.srcIp != 0
    ensures var (sess1, ups1, h) := F.SessionFor(sess, ups, key, now);
            && SessInv(cfg, sess1) && Continues(sess, sess1)
            && (h.Some? ==> h.value in sess1.heap && sess1.heap[h.value].forwardKey == key)
  {
    ForwardLookup(sess, key);
    hide Sessions.Inv, Create, Pick;
    match LookupForward(sess, key) {
      case Some(h) =>
        TouchKeeps(cfg, sess, h, now);
      case None =>
        var (ups1, pick) := Pick(ups, key);
        if pick.Some? && pick.value.ip != 0 {
          CreateKeeps(cfg, sess, key, pick.value.ip, pick.value.port, now);
        }
    }
  }

  lemma CreateNames(t: Table, key: FlowKey, ip: u32, port: u16, now: u64)
    requires EndsNamed(t) && key.srcIp != 0 && ip != 0
    ensures var (r, h) := Create(t, key, ip, port, now);
            && EndsNamed(r) && r.gatewayIp == t.gatewayIp
            && (h.Some? ==> h.value in r.heap && r.heap[h.value].forwardKey == key)
  {
    AllocKeepsRest(t);
    hide Alloc;
  }

  // --------------------------------------------------------- one packet, one frame

  /** A translated frame that has to wait is ready to be finished for the address it waits for. */
  ghost predicate WaitsReady(f: Frame, o: F.Outcome) {
    && (o.result == F.PendingArp ==> o.waitIp != 0 && Ready(f, o.waitIp))
    && (o.result != F.PendingArp ==> o.waitIp == 0)
  }

  lemma RewriteReady(f: Frame, src: u32, dst: u32, sport: u16, dport: u16, recompute: bool)
    requires ParseOk(f)
    ensures Ready(Rewrite(f, src, dst, sport, dport, recompute), dst)
  {
    RewriteParses(f, src, dst, sport, dport, recompute, false);
    RewriteEffect(f, src, dst, sport, dport, recompute);
    hide Rewrite, Parse;
  }

  lemma EmitWaits(cfg: F.Config, c: Cache, f: Frame, nextHop: u32, sent: F.Result)
    requires Ready(f, nextHop) && nextHop != 0 && sent != F.PendingArp
    ensures var (f1, o) := F.Emit(cfg, c, f, nextHop, sent); WaitsReady(f1, o)
  {
    hide SetL2;
  }

  lemma ForwardWaits(cfg: F.Config, c: Cache, f: Frame, s: Session)
    requires ParseOk(f) && s.upstreamIp != 0
    ensures var (f1, o) := F.Emit(cfg, c, F.ForwardNat(cfg, f, s), s.upstreamIp, F.TxForward); WaitsReady(f1, o)
  {
    RewriteReady(f, cfg.gatewayIp, s.upstreamIp, s.snatPort, s.upstreamPort, cfg.recompute);
    hide Rewrite, Parse, Ready;
    EmitWaits(cfg, c, F.ForwardNat(cfg, f, s), s.upstreamIp, F.TxForward);
  }

  lemma ForwardSession(cfg: F.Config, sess: Table, ups: Ups, f: Frame, now: u64)
    requires SessInv(cfg, sess) && ParseOk(f) && IpAt(f, SRC_AT) != 0
    ensures var (sess1, ups1, h) := F.SessionFor(sess, ups, F.KeyOf(f), now);
            && SessInv(cfg, sess1) && Continues(sess, sess1)
            && (h.Some? ==> h.value in sess1.heap && sess1.heap[h.value].upstreamIp != 0)
  {
    var key := F.KeyOf(f);
    assert key.srcIp != 0;
    hide Sessions.Inv, F.SessionFor, Continues, ParseOk, HeadersFit;
    SessionForKeeps(cfg, sess, ups, key, now);
  }

  lemma HandleForwardKeeps(cfg: F.Config, c: Cache, sess: Table, ups: Ups, f: Frame, now: u64)
    requires SessInv(cfg, sess) && ParseOk(f) && IpAt(f, SRC_AT) != 0
    ensures var o := F.HandleForward(cfg, c, sess, ups, f, now);
            SessInv(cfg, o.sess) && Continues(sess, o.sess) && WaitsReady(o.frame, o.outcome)
  {
    hide Sessions.Inv, F.SessionFor, Ready, Parse, F.Emit, Continues, F.ForwardNat, F.KeyOf;
    ForwardSession(cfg, sess, ups, f, now);
    hide SessInv, ParseOk;
    var (sess1, ups1, h) := F.SessionFor(sess, ups, F.KeyOf(f), now);
    if h.Some? {
      ForwardWaits(cfg, c, f, sess1.heap[h.value]);
    }
  }

  lemma HandleReverseKeeps(cfg: F.Config, c: Cache, sess: Table, ups: Ups, f: Frame, now: u64)
    requires SessInv(cfg, sess) && ParseOk(f)
    ensures var o := F.HandleReverse(cfg, c, sess, ups, f, now);
            SessInv(cfg, o.sess) && Continues(sess, o.sess) && WaitsReady(o.frame, o.outcome)
  {
    hide Sessions.Inv, Rewrite, Ready, Parse, F.Emit;
    match LookupReverse(sess, F.KeyOf(f)) {
      case None =>
      case Some(h) =>
        TouchKeeps(cfg, sess, h, now);
        hide Continues;
        var s := Touch(sess, h, now).heap[h];
        RewriteReady(f, s.vipIp, s.clientIp, s.vipPort, s.clientPort, cfg.recompute);
        EmitWaits(cfg, c, F.ReverseNat(cfg, f, s), s.clientIp, F.TxReverse);
    }
  }

  lemma HandleFrameKeeps(cfg: F.Config, g: Gw, waiting: set<u32>, f: Frame, now: u64)
    requires SessInv(cfg, g.sess) && NamesClient(cfg, f)
    ensures var h := HandleFrame(cfg, g, waiting, f, now);
            SessInv(cfg, h.sess) && Continues(g.sess, h.sess) && WaitsReady(h.frame, h.outcome)
  {
    hide Sessions.Inv, F.HandleForward, F.HandleReverse, Arp.Handle, Ready;
    if Parse(f, cfg.verify).Parsed? {
      ParseWeaker(f, cfg.verify);
      var c := PassiveLearn(g.cache, f, now);
      if F.ForVip(cfg, f) {
        HandleForwardKeeps(cfg, c, g.sess, g.ups, f, now);
      } else {
        HandleReverseKeeps(cfg, c, g.sess, g.ups, f, now);
      }
    }
  }

  // ------------------------------------------------------------ the invariant

  ghost predicate CacheInv(c: Cache, clock: u64) {
    forall ip :: ip in c ==> c[ip].lastSeen <= clock
  }

  ghost predicate RxNamed(cfg: F.Config, io: Io) {
    forall m :: m in io.owner && io.owner[m] == InRx ==> NamesClient(cfg, FrameOf(io, m))
  }

  /** The invariant of every reachable gateway. */
  ghost predicate GwInv(cfg: F.Config, g: Gw) {
    && SessInv(cfg, g.sess)
    && CacheInv(g.cache, g.clock)
    && HeldInv(g.io, g.clock)
    && RxNamed(cfg, g.io)
    && ProbesOk(g.io, g.clock)
  }

  lemma InitialInv(cfg: F.Config, g: Gw)
    requires Initial(cfg, g)
    ensures GwInv(cfg, g)
  {
    assert forall p: u16 :: NeverIssued(g.sess, p) <==> g.sess.next <= p < g.sess.end;
    assert IDLE_IO.owner.Keys == {} && Replay([]) == Some({});
    forall p
      ensures PlaceOwned(IDLE_IO, p)
    {
      assert ListAt(IDLE_IO, p) == [];
    }
  }

  lemma LearnCache(c: Cache, f: Frame, clock: u64, now: u64)
    requires CacheInv(c, clock) && clock <= now
    ensures CacheInv(PassiveLearn(c, f, now), now)
  {
  }

  lemma HandleFrameCache(cfg: F.Config, g: Gw, waiting: set<u32>, f: Frame, now: u64)
    requires CacheInv(g.cache, g.clock) && g.clock <= now
    ensures CacheInv(HandleFrame(cfg, g, waiting, f, now).cache, now)
  {
    hide F.Handle;
    LearnCache(g.cache, f, g.clock, now);
  }

  /** The buffers after `handle` and flush: still accounted for, the packet at hand still first. */
  lemma FlushedKeeps(cfg: F.Config, io: Io, h: Handled, now: u64)
    requires HeldInv(io, now) && io.rx != []
    ensures var r := Flushed(cfg, io, h, now);
            && HeldInv(r, now) && r.rx == io.rx && FrameOf(r, io.rx[0]) == h.frame
            && r.probed == io.probed && r.probes == io.probes
            && (forall m :: m in io.owner && io.owner[m] == InRx && m != io.rx[0] ==>
                  m in r.owner && r.owner[m] == InRx && FrameOf(r, m) == FrameOf(io, m))
            && (forall m :: m in r.owner ==> m in io.owner)
            && (forall m :: m in r.owner && r.owner[m] == InRx ==> io.owner[m] == InRx)
  {
    var m := io.rx[0];
    ListedIsOwned(io, InRx, 0);
    var io1 := io.(frames := io.frames[m := h.frame]);
    RelabelRxHeld(io, m, h.frame, now);
    if h.outcome.learnedIp != 0 {
      FlushHeld(cfg, h.cache, io1, h.outcome.learnedIp, now, now);
      FlushFates(cfg, h.cache, io1, h.outcome.learnedIp, now);
      hide HeldInv, Flush, Owned;
      forall x | x in io1.owner && io1.owner[x] == Held(h.outcome.learnedIp)
        ensures x in Flush(cfg, h.cache, io1, h.outcome.learnedIp, now).owner ==>
                  Flush(cfg, h.cache, io1, h.outcome.learnedIp, now).owner[x] != InRx
      {
        assert FrameFate(cfg, h.cache, io1, Flush(cfg, h.cache, io1, h.outcome.learnedIp, now), h.outcome.learnedIp, x);
      }
    }
  }

  /** The receive list only loses the packet at hand; the others keep their bytes. */
  ghost predicate RxLess(io: Io, r: Io)
    requires io.rx != []
  {
    forall m :: m in r.owner && r.owner[m] == InRx ==>
                  m in io.owner && io.owner[m] == InRx && m != io.rx[0] && FrameOf(r, m) == FrameOf(io, m)
  }

  lemma HoldKeeps(cfg: ArpConfig, io: Io, ip: u32, now: u64, alloc: Option<Mbuf>, clock: u64)
    requires HeldInv(io, now) && io.rx != [] && ip != 0 && Ready(FrameOf(io, io.rx[0]), ip)
    requires alloc.Some? ==> alloc.value !in Enqueue(io, ip, now).owner
    requires ProbesOk(io, clock) && clock <= now
    ensures var r := Probe(cfg, Enqueue(io, ip, now), ip, now, alloc); HeldInv(r, now) && ProbesOk(r, now)
  {
    hide Ready, HeldInv, Probe;
    var e := Enqueue(io, ip, now);
    EnqueueHeld(io, ip, now);
    EnqueueProbes(io, ip, now, clock);
    hide Enqueue, ProbesOk;
    ProbeHeld(cfg, e, ip, now, alloc, now);
    ProbeSpaced(cfg, e, ip, now, alloc, clock);
  }

  lemma EnqueueProbes(io: Io, ip: u32, now: u64, clock: u64)
    requires io.rx != [] && ProbesOk(io, clock)
    ensures ProbesOk(Enqueue(io, ip, now), clock)
  {
    var e := Enqueue(io, ip, now);
    assert e.probed == io.probed && e.probes == io.probes;
    hide Enqueue;
  }

  lemma FirstOwned(io: Io, now: u64)
    requires HeldInv(io, now) && io.rx != []
    ensures io.rx[0] in io.owner && io.owner[io.rx[0]] == InRx
  {
    ListedIsOwned(io, InRx, 0);
  }

  lemma EnqueueRx(io: Io, ip: u32, now: u64)
    requires io.rx != []
    ensures RxLess(io, Enqueue(io, ip, now))
  {
  }

  lemma ProbeRx(cfg: ArpConfig, io: Io, e: Io, ip: u32, now: u64, alloc: Option<Mbuf>)
    requires io.rx != [] && RxLess(io, e)
    ensures RxLess(io, Probe(cfg, e, ip, now, alloc))
  {
    hide MakeRequest;
  }

  lemma DisposeRx(cfg: F.Config, io: Io, o: F.Outcome, now: u64, alloc: Option<Mbuf>)
    requires io.rx != []
    ensures RxLess(io, Dispose(cfg, io, o, now, alloc))
  {
    if o.result == F.PendingArp {
      hide Probe, Enqueue, RxLess;
      EnqueueRx(io, o.waitIp, now);
      ProbeRx(ArpCfg(cfg), io, Enqueue(io, o.waitIp, now), o.waitIp, now, alloc);
    }
  }

  lemma DisposeKeeps(cfg: F.Config, io: Io, o: F.Outcome, now: u64, alloc: Option<Mbuf>, clock: u64)
    requires HeldInv(io, now) && io.rx != [] && WaitsReady(FrameOf(io, io.rx[0]), o)
    requires Allocatable(io, o, now, alloc)
    requires ProbesOk(io, clock) && clock <= now
    ensures var r := Dispose(cfg, io, o, now, alloc);
            HeldInv(r, now) && ProbesOk(r, now) && RxLess(io, r)
  {
    hide Ready, HeldInv, Enqueue, Probe, RxLess;
    DisposeRx(cfg, io, o, now, alloc);
    if o.result == F.PendingArp {
      HoldKeeps(ArpCfg(cfg), io, o.waitIp, now, alloc, clock);
    } else {
      DispatchHeld(io, now);
    }
  }

  /** The probe may get the very buffer that was freed because the queue was full. */
  lemma FreedBufferReused(io: Io, o: F.Outcome, now: u64)
    requires io.rx != [] && o.result == F.PendingArp && o.waitIp != 0
    requires |QueueOf(io, o.waitIp)| >= PENDING_MAX
    ensures Allocatable(io, o, now, Some(io.rx[0]))
  {
  }

  lemma HandleOneRx(cfg: F.Config, g: Gw, now: u64, alloc: Option<Mbuf>)
    requires g.io.rx != []
    ensures HandleOne(cfg, g, now, alloc).io.rx == g.io.rx[1..] && HandleOne(cfg, g, now, alloc).clock == now
  {
    hide Verdict, Flushed;
    FlushedRx(cfg, g.io, Verdict(cfg, g, now), now);
  }

  lemma HandleOneKeeps(cfg: F.Config, g: Gw, now: u64, alloc: Option<Mbuf>)
    requires GwInv(cfg, g) && Enabled(cfg, g, HandleNext(now, alloc))
    ensures GwInv(cfg, HandleOne(cfg, g, now, alloc))
    ensures Continues(g.sess, HandleOne(cfg, g, now, alloc).sess)
  {
    var m := g.io.rx[0];
    ListedIsOwned(g.io, InRx, 0);
    var f := FrameOf(g.io, m);
    var h := Verdict(cfg, g, now);
    HandleFrameKeeps(cfg, g, g.io.pending.Keys, f, now);
    HandleFrameCache(cfg, g, g.io.pending.Keys, f, now);
    TimedLater(g.io, g.clock, now);
    FlushedKeeps(cfg, g.io, h, now);
    var io := Flushed(cfg, g.io, h, now);
    hide SessInv, HeldInv, HandleFrame, Flushed, NamesClient, Continues, WaitsReady, Dispose;
    assert ProbesOk(io, g.clock);
    DisposeKeeps(cfg, io, h.outcome, now, alloc, g.clock);
  }

  lemma FlushedNoneOverdue(cfg: F.Config, io: Io, h: Handled, now: u64, t: u64)
    requires HeldInv(io, now) && io.rx != [] && NoneOverdue(io, t)
    ensures NoneOverdue(Flushed(cfg, io, h, now), t)
  {
    FirstOwned(io, now);
    RelabelRxHeld(io, io.rx[0], h.frame, now);
    var io1 := io.(frames := io.frames[io.rx[0] := h.frame]);
    assert NoneOverdue(io1, t);
    hide HeldInv, Flush, NoneOverdue;
    FlushNoneOverdue(cfg, h.cache, io1, h.outcome.learnedIp, now, t);
  }

  lemma DisposeNoneOverdue(cfg: F.Config, io: Io, o: F.Outcome, now: u64, alloc: Option<Mbuf>, t: u64)
    requires io.rx != [] && NoneOverdue(io, t) && t <= now
    ensures NoneOverdue(Dispose(cfg, io, o, now, alloc), t)
  {
    EnqueueNoneOverdue(io, o.waitIp, now, t);
    hide Enqueue, MakeRequest;
  }

  /** Handling a packet adds at most that packet to a queue. */
  lemma HandleOneNoneOverdue(cfg: F.Config, g: Gw, now: u64, alloc: Option<Mbuf>, t: u64)
    requires GwInv(cfg, g) && g.io.rx != [] && g.clock <= now && NoneOverdue(g.io, t) && t <= now
    ensures NoneOverdue(HandleOne(cfg, g, now, alloc).io, t)
  {
    hide Verdict, Flushed, Dispose, NoneOverdue, HeldInv, SessInv, NamesClient;
    var h := Verdict(cfg, g, now);
    TimedLater(g.io, g.clock, now);
    FlushedNoneOverdue(cfg, g.io, h, now, t);
    FlushedRx(cfg, g.io, h, now);
    DisposeNoneOverdue(cfg, Flushed(cfg, g.io, h, now), h.outcome, now, alloc, t);
  }

  // ---------------------------------------------------------------- the theorem

  lemma StepKeeps(cfg: F.Config, g: Gw, s: Step)
    requires GwInv(cfg, g) && Enabled(cfg, g, s)
    ensures GwInv(cfg, Apply(cfg, g, s))
    ensures Continues(g.sess, Apply(cfg, g, s).sess)
    ensures g.clock <= Apply(cfg, g, s).clock
  {
    match s {
      case Recv(burst) => RecvKeeps(cfg, g, burst);
      case HandleNext(now, alloc) => HandleOneKeeps(cfg, g, now, alloc);
      case Finish(sent) => FinishKeeps(cfg, g, sent);
      case ExpireSessions(now) => ExpireSessionsKeeps(cfg, g, now);
      case ExpireNeighbors(now) => TimedLater(g.io, g.clock, now); hide SessInv, HeldInv, NamesClient;
      case ExpireHeld(now, ips) => ExpireHeldKeeps(cfg, g, now, ips);
      case ApplyControl(_, _) => hide SessInv, HeldInv, NamesClient;
    }
  }

  lemma RecvKeeps(cfg: F.Config, g: Gw, burst: seq<(Mbuf, Frame)>)
    requires GwInv(cfg, g) && Enabled(cfg, g, Recv(burst))
    ensures GwInv(cfg, g.(io := Receive(g.io, burst)))
  {
    hide SessInv, Owned, Receive, NamesClient;
    ReceiveHeld(g.io, burst, g.clock);
    ReceiveEffect(g.io, burst);
    hide HeldInv;
  }

  lemma FinishKeeps(cfg: F.Config, g: Gw, sent: nat)
    requires GwInv(cfg, g)
    ensures GwInv(cfg, g.(io := Drain(g.io, sent)))
  {
    DrainHeld(g.io, sent, g.clock);
    DrainShrunk(g.io, sent);
    hide SessInv, HeldInv, Drain, NamesClient;
  }

  lemma ExpireKeepsEnds(cfg: F.Config, t: Table, now: u64)
    requires SessInv(cfg, t)
    ensures SessInv(cfg, Sessions.Expire(t, now)) && Continues(t, Sessions.Expire(t, now))
  {
    ExpireExact(t, now);
    EraseAllContinues(t, IdleIn(t, t.order, now));
    hide Sessions.Inv, AliveIn, IdleIn, PortsOf, EraseAll, Idle;
  }

  lemma ExpireSessionsKeeps(cfg: F.Config, g: Gw, now: u64)
    requires GwInv(cfg, g) && g.clock <= now
    ensures GwInv(cfg, g.(sess := Sessions.Expire(g.sess, now), clock := now))
    ensures Continues(g.sess, Sessions.Expire(g.sess, now))
  {
    hide SessInv, HeldInv, NamesClient, Sessions.Expire, Continues;
    TimedLater(g.io, g.clock, now);
    ExpireKeepsEnds(cfg, g.sess, now);
  }

  lemma ExpireHeldKeeps(cfg: F.Config, g: Gw, now: u64, ips: seq<u32>)
    requires GwInv(cfg, g) && Enabled(cfg, g, ExpireHeld(now, ips))
    ensures GwInv(cfg, g.(io := ExpirePending(g.io, ips, now), clock := now))
  {
    TimedLater(g.io, g.clock, now);
    ExpireHeldKept(g.io, ips, now);
    ExpirePendingShrunk(g.io, ips, now);
    hide SessInv, HeldInv, ExpirePending, NamesClient;
  }

  /** Every run from a consistent gateway ends in a consistent gateway. */
  lemma {:induction false} RunKeeps(cfg: F.Config, g: Gw, steps: seq<Step>)
    requires GwInv(cfg, g) && IsRun(cfg, g, steps)
    ensures GwInv(cfg, Run(cfg, g, steps))
    ensures g.clock <= Run(cfg, g, steps).clock
    decreases |steps|
  {
    hide GwInv, Continues;
    if steps != [] {
      StepKeeps(cfg, g, steps[0]);
      RunKeeps(cfg, Apply(cfg, g, steps[0]), steps[1..]);
    }
  }

  /** One run after another. */
  lemma {:induction false} RunConcat(cfg: F.Config, g: Gw, a: seq<Step>, b: seq<Step>)
    requires IsRun(cfg, g, a) && IsRun(cfg, Run(cfg, g, a), b)
    ensures IsRun(cfg, g, a + b) && Run(cfg, g, a + b) == Run(cfg, Run(cfg, g, a), b)
    decreases |a|
  {
    hide Apply, Enabled;
    if a == [] {
      assert a + b == b;
    } else {
      RunConcat(cfg, Apply(cfg, g, a[0]), a[1..], b);
      assert (a + b)[1..] == a[1..] + b;
    }
  }

  /** A run in two parts. */
  lemma {:induction false} RunSplit(cfg: F.Config, g: Gw, a: seq<Step>, b: seq<Step>)
    requires IsRun(cfg, g, a + b)
    ensures IsRun(cfg, g, a) && IsRun(cfg, Run(cfg, g, a), b) && Run(cfg, g, a + b) == Run(cfg, Run(cfg, g, a), b)
    decreases |a|
  {
    hide Apply, Enabled;
    if a == [] {
      assert a + b == b;
    } else {
      assert (a + b)[1..] == a[1..] + b;
      RunSplit(cfg, Apply(cfg, g, a[0]), a[1..], b);
    }
  }

  lemma RunNone(cfg: F.Config, g: Gw)
    ensures IsRun(cfg, g, []) && Run(cfg, g, []) == g
  {
  }

  lemma RunOne(cfg: F.Config, g: Gw, s: Step)
    requires Enabled(cfg, g, s)
    ensures IsRun(cfg, g, [s]) && Run(cfg, g, [s]) == Apply(cfg, g, s)
  {
    hide Apply, Enabled;
    var rest := [s][1..];
    assert rest == [];
    assert IsRun(cfg, Apply(cfg, g, s), rest) && Run(cfg, Apply(cfg, g, s), rest) == Apply(cfg, g, s);
  }
}
