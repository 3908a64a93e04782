/**
 Which packets are served, exactly, where a first packet goes, and what the burst loop does with each verdict.
 */
module Verdicts {
  import opened Base
  import opened Packet
  import opened Sessions
  import opened SessionProofs
  import opened Upstreams
  import opened Neighbors
  import opened Worker
  import opened Ownership
  import opened HeldPackets
  import opened WorkerSteps
  import opened Gateway
  import opened GatewayProofs
  import opened NatTheorems
  import opened RunTheorems
  import opened Teaching
  import opened WireFormat
  import Arp
  import F = Forward

  // ------------------------------------------------------------ what is served

  ghost predicate FlowLive(sess: Table, key: FlowKey) {
    exists h :: h in sess.heap && sess.heap[h].forwardKey == key
  }

  ghost predicate ReplyLive(sess: Table, key: FlowKey) {
    exists h :: h in sess.heap && sess.heap[h].reverseKey == key
  }

  /** There is an upstream to pick, with an address, and a port to give. */
  ghost predicate CanOpen(sess: Table, ups: Ups, key: FlowKey) {
    ups.nodes != [] && ups.nodes[Index(ups, key)].ip != 0 && |sess.order| < sess.end - sess.begin
  }

  /**
   Served is a valid datagram to the VIP whose flow is live or can be opened, and a valid datagram to anything else
   that answers a live session.
   */
  ghost predicate Served(cfg: F.Config, sess: Table, ups: Ups, f: Frame) {
    && Parse(f, cfg.verify).Parsed? && HeadersFit(f)
    && if F.ForVip(cfg, f) then FlowLive(sess, F.KeyOf(f)) || CanOpen(sess, ups, F.KeyOf(f))
       else ReplyLive(sess, F.KeyOf(f))
  }

  lemma ParsedFits(f: Frame, verify: bool)
    requires Parse(f, verify).Parsed?
    ensures HeadersFit(f) && 14 <= |f|
  {
    ParseWeaker(f, verify);
  }

  /** Served exactly if sent or held; what is not served is dropped as it came and leaves every session alone. */
  lemma ServedIff(cfg: F.Config, c: Cache, sess: Table, ups: Ups, f: Frame, now: u64)
    requires SessInv(cfg, sess)
    ensures var o := F.Handle(cfg, c, sess, ups, f, now);
            && (o.outcome.result != F.Drop <==> Served(cfg, sess, ups, f))
            && (!Served(cfg, sess, ups, f) ==> o.outcome == F.Outcome(F.Drop, 0, 0) && o.frame == f && o.sess == sess)
  {
    if Parse(f, cfg.verify).Failed? {
      Unparsed(cfg, c, sess, ups, f, now);
    } else {
      ParsedFits(f, cfg.verify);
    }
    hide Parse, HeadersFit;
    if Parse(f, cfg.verify).Parsed? {
      hide SessInv, F.ForVip, F.KeyOf, F.Handle, FlowLive, CanOpen, ReplyLive;
      if F.ForVip(cfg, f) {
        VipServed(cfg, c, sess, ups, f, now);
      } else {
        ReplyServed(cfg, c, sess, ups, f, now);
      }
    }
  }

  lemma Unparsed(cfg: F.Config, c: Cache, sess: Table, ups: Ups, f: Frame, now: u64)
    requires Parse(f, cfg.verify).Failed?
    ensures var o := F.Handle(cfg, c, sess, ups, f, now);
            o.outcome == F.DROPPED && o.frame == f && o.sess == sess
  {
    hide Parse;
  }

  lemma ReplyServed(cfg: F.Config, c: Cache, sess: Table, ups: Ups, f: Frame, now: u64)
    requires SessInv(cfg, sess) && Parse(f, cfg.verify).Parsed? && HeadersFit(f) && !F.ForVip(cfg, f)
    ensures var o := F.Handle(cfg, c, sess, ups, f, now);
            var served := ReplyLive(sess, F.KeyOf(f));
            && (o.outcome.result != F.Drop <==> served)
            && (!served ==> o.outcome == F.DROPPED && o.frame == f && o.sess == sess)
  {
    hide SessInv, Parse, HeadersFit, F.ForVip, F.KeyOf, F.Handle;
    if ReplyLive(sess, F.KeyOf(f)) {
      var h :| h in sess.heap && sess.heap[h].reverseKey == F.KeyOf(f);
      ReverseTranslates(cfg, c, sess, ups, f, now, h);
    } else {
      NotReply(cfg, c, sess, ups, f, now);
    }
  }

  lemma NotReply(cfg: F.Config, c: Cache, sess: Table, ups: Ups, f: Frame, now: u64)
    requires SessInv(cfg, sess) && Parse(f, cfg.verify).Parsed? && HeadersFit(f) && !F.ForVip(cfg, f)
    requires !ReplyLive(sess, F.KeyOf(f))
    ensures var o := F.Handle(cfg, c, sess, ups, f, now);
            o.outcome == F.DROPPED && o.frame == f && o.sess == sess
  {
    ReverseLookup(sess, F.KeyOf(f));
    hide SessInv, Parse, HeadersFit, F.KeyOf, F.ReverseNat, F.Emit, Touch, LookupReverse;
  }

  lemma VipServed(cfg: F.Config, c: Cache, sess: Table, ups: Ups, f: Frame, now: u64)
    requires SessInv(cfg, sess) && Parse(f, cfg.verify).Parsed? && HeadersFit(f) && F.ForVip(cfg, f)
    ensures var o := F.Handle(cfg, c, sess, ups, f, now);
            var served := FlowLive(sess, F.KeyOf(f)) || CanOpen(sess, ups, F.KeyOf(f));
            && (o.outcome.result != F.Drop <==> served)
            && (!served ==> o.outcome == F.DROPPED && o.frame == f && o.sess == sess)
  {
    var key := F.KeyOf(f);
    if FlowLive(sess, key) {
      var h :| h in sess.heap && sess.heap[h].forwardKey == key;
      ForwardTranslates(cfg, c, sess, ups, f, now, h);
    } else if CanOpen(sess, ups, key) {
      var port := OpensToPick(cfg, c, sess, ups, f, now);
    } else {
      NotOpened(cfg, sess, ups, key, now);
      hide SessInv, Parse, F.SessionFor, F.Emit, F.ForwardNat, FlowLive, CanOpen;
      assert HeadersFit(f);
    }
    hide *;
  }

  lemma MissesLookup(cfg: F.Config, sess: Table, key: FlowKey)
    requires SessInv(cfg, sess) && !FlowLive(sess, key)
    ensures LookupForward(sess, key) == None
  {
    ForwardLookup(sess, key);
    hide SessInv, LookupForward;
  }

  lemma NotOpened(cfg: F.Config, sess: Table, ups: Ups, key: FlowKey, now: u64)
    requires SessInv(cfg, sess) && !FlowLive(sess, key) && !CanOpen(sess, ups, key)
    ensures var (sess1, ups1, h) := F.SessionFor(sess, ups, key, now); sess1 == sess && h == None
  {
    MissesLookup(cfg, sess, key);
    var (ups1, pick) := Pick(ups, key);
    if ups.nodes != [] {
      CreateFailsWhenFull(sess, key, pick.value.ip, pick.value.port, now);
      FullCount(sess);
    }
    hide SessInv, LookupForward, Create, Index;
  }

  lemma ServedIsIpv4(cfg: F.Config, sess: Table, ups: Ups, f: Frame)
    requires Served(cfg, sess, ups, f)
    ensures EtherType(f) == ETHER_TYPE_IPV4
  {
    hide FlowLive, CanOpen, ReplyLive, UdpChecksumOk, IpChecksum, PutU16;
  }

  lemma RequestIsArp(f: Frame)
    requires IsArpRequest(f)
    ensures EtherType(f) == ETHER_TYPE_ARP
  {
    RequestIff(f);
  }

  /** Of all frames only ARP requests for the gateway or the VIP, and served datagrams, are not dropped. */
  lemma NotDroppedIff(cfg: F.Config, g: Gw, now: u64)
    requires GwInv(cfg, g) && g.io.rx != []
    ensures var f := FrameOf(g.io, g.io.rx[0]);
            Verdict(cfg, g, now).outcome.result != F.Drop <==>
              || (IsArpRequest(f) && Word(f[38], f[39], f[40], f[41]) in {cfg.gatewayIp, cfg.vipIp})
              || Served(cfg, g.sess, g.ups, f)
  {
    var f := FrameOf(g.io, g.io.rx[0]);
    if IsArpRequest(f) {
      RequestIsArp(f);
    }
    if Served(cfg, g.sess, g.ups, f) {
      ServedIsIpv4(cfg, g.sess, g.ups, f);
    }
    AnsweredIff(ArpCfg(cfg), g.cache, f, now);
    assert SessInv(cfg, g.sess);
    hide GwInv, SessInv, IsArpRequest, Served, EtherType, F.Handle, Arp.Handle, Answer, FrameOf, PassiveLearn, Ipv4Src;
    ServedIff(cfg, PassiveLearn(g.cache, f, now), g.sess, g.ups, f, now);
  }

  // ------------------------------------------------------- where a flow starts

  /** A session for `key` with a port of the range that was not in use, toward the picked endpoint. */
  ghost predicate Opened(cfg: F.Config, sess: Table, r: Table, key: FlowKey, pick: Endpoint, port: u16, now: u64) {
    && sess.begin <= port < sess.end && port !in sess.inUse
    && r.heap == sess.heap[sess.nextHandle :=
         Session(key, FlowKey(pick.ip, cfg.gatewayIp, pick.port, port, 17),
                 key.srcIp, key.srcPort, key.dstIp, key.dstPort, pick.ip, pick.port, port, now)]
  }

  /** The first packet of a flow opens one session toward the picked endpoint, and leaves with its tuple and MACs. */
  lemma OpensToPick(cfg: F.Config, c: Cache, sess: Table, ups: Ups, f: Frame, now: u64) returns (port: u16)
    requires SessInv(cfg, sess) && Parse(f, cfg.verify).Parsed? && HeadersFit(f) && F.ForVip(cfg, f)
    requires !FlowLive(sess, F.KeyOf(f)) && CanOpen(sess, ups, F.KeyOf(f))
    ensures var o, pick := F.Handle(cfg, c, sess, ups, f, now), ups.nodes[Index(ups, F.KeyOf(f))];
            && Opened(cfg, sess, o.sess, F.KeyOf(f), pick, port, now)
            && HeadersFit(o.frame) && F.KeyOf(o.frame) == FlowKey(cfg.gatewayIp, pick.ip, port, pick.port, 17)
            && Sent(c, o.outcome, F.TxForward, pick.ip)
            && (pick.ip in c ==> o.frame[0..6] == c[pick.ip].mac && o.frame[6..12] == cfg.gatewayMac)
  {
    var key := F.KeyOf(f);
    port := SessionOpened(cfg, sess, ups, key, now);
    var h, sess1 := sess.nextHandle, F.SessionFor(sess, ups, key, now).0;
    hide SessInv, CanOpen, FlowLive, F.SessionFor, Index;
    var s := sess1.heap[h];
    var o := F.Handle(cfg, c, sess, ups, f, now);
    var out := F.Emit(cfg, c, F.ForwardNat(cfg, f, s), s.upstreamIp, F.TxForward);
    assert (o.frame, o.outcome) == out && o.sess == sess1 by {
      hide Parse, HeadersFit, F.ForVip, F.KeyOf, F.Emit, F.ForwardNat, Opened;
    }
    assert 14 <= |F.ForwardNat(cfg, f, s)|;
    hide Parse, HeadersFit, F.ForVip, F.KeyOf, F.Emit, F.ForwardNat, F.Handle;
    ForwardOut(cfg, c, f, s);
    EmittedBytes(cfg, c, F.ForwardNat(cfg, f, s), s.upstreamIp, F.TxForward);
  }

  lemma SessionOpened(cfg: F.Config, sess: Table, ups: Ups, key: FlowKey, now: u64) returns (port: u16)
    requires SessInv(cfg, sess) && !FlowLive(sess, key) && CanOpen(sess, ups, key) && key.proto == 17
    ensures var (sess1, ups1, h) := F.SessionFor(sess, ups, key, now);
            h == Some(sess.nextHandle) && Opened(cfg, sess, sess1, key, ups.nodes[Index(ups, key)], port, now)
  {
    MissesLookup(cfg, sess, key);
    var pick := ups.nodes[Index(ups, key)];
    CreateFailsWhenFull(sess, key, pick.ip, pick.port, now);
    AllocCases(sess);
    AllocKeepsRest(sess);
    port := Alloc(sess).1;
    hide Sessions.Inv, LookupForward, Index, Alloc, FlowLive;
  }

  // ----------------------------------------------- the verdict is carried out

  /**
   The packet at hand leaves the burst. Dropped, it is in the drop batch; held, it is last in the queue of the address,
   with the time, unless 64 packets wait there already, when it is freed; else it is last in the transmit batch. Only
   the queue of a learned address may have changed beside that.
   */
  ghost predicate CarriedOut(io: Io, r: Io, m: Mbuf, h: Handled, now: u64) {
    match h.outcome.result
    case Drop => r.drop == io.drop + [m] && r.tx == io.tx && r.pending == io.pending && r.log == io.log
    case PendingArp =>
      var ip := h.outcome.waitIp;
      && r.drop == io.drop
      && if |QueueOf(io, ip)| < 64 then
           r.pending == io.pending[ip := QueueOf(io, ip) + [HeldPacket(m, now)]] && FrameOf(r, m) == h.frame
         else r.pending == io.pending && io.log + [Free(m)] <= r.log
    case _ =>
      r.tx == io.tx + [m] && FrameOf(r, m) == h.frame && r.drop == io.drop && r.pending == io.pending && r.log == io.log
  }

  lemma VerdictCarriedOut(cfg: F.Config, g: Gw, now: u64, alloc: Option<Mbuf>)
    requires GwInv(cfg, g) && Enabled(cfg, g, HandleNext(now, alloc))
    ensures var h := Verdict(cfg, g, now);
            var io, r := Flushed(cfg, g.io, h, now), HandleOne(cfg, g, now, alloc).io;
            && CarriedOut(io, r, g.io.rx[0], h, now) && r.rx == g.io.rx[1..]
            && (h.outcome.result == F.PendingArp ==> h.outcome.waitIp != 0)
            && (forall a :: a != h.outcome.learnedIp ==> QueueOf(io, a) == QueueOf(g.io, a))
            && io.drop == g.io.drop && g.io.tx <= io.tx
  {
    var h := Verdict(cfg, g, now);
    WaitNamed(cfg, g, now);
    TimedLater(g.io, g.clock, now);
    FlushedFirst(cfg, g.io, h, now);
    FlushedRx(cfg, g.io, h, now);
    HandleOneRx(cfg, g, now, alloc);
    hide GwInv, Verdict, Flushed, Allocatable, HeldInv, CarriedOut;
    DisposeCarries(cfg, Flushed(cfg, g.io, h, now), h, now, alloc);
  }

  lemma WaitNamed(cfg: F.Config, g: Gw, now: u64)
    requires GwInv(cfg, g) && g.io.rx != [] && g.clock <= now
    ensures var o := Verdict(cfg, g, now).outcome; o.result == F.PendingArp ==> o.waitIp != 0
  {
    var f := FrameOf(g.io, g.io.rx[0]);
    ListedIsOwned(g.io, InRx, 0);
    HandleFrameKeeps(cfg, g, g.io.pending.Keys, f, now);
    hide SessInv, HeldInv, HandleFrame, NamesClient;
  }

  lemma FlushedFirst(cfg: F.Config, io: Io, h: Handled, now: u64)
    requires HeldInv(io, now) && io.rx != []
    ensures var r := Flushed(cfg, io, h, now);
            && FrameOf(r, io.rx[0]) == h.frame && r.drop == io.drop && io.tx <= r.tx
            && forall a :: a != h.outcome.learnedIp ==> QueueOf(r, a) == QueueOf(io, a)
  {
    FirstOwned(io, now);
    RelabelRxHeld(io, io.rx[0], h.frame, now);
    FlushFates(cfg, h.cache, io.(frames := io.frames[io.rx[0] := h.frame]), h.outcome.learnedIp, now);
    hide HeldInv, Flush;
  }

  lemma DisposeCarries(cfg: F.Config, io: Io, h: Handled, now: u64, alloc: Option<Mbuf>)
    requires io.rx != [] && Allocatable(io, h.outcome, now, alloc) && FrameOf(io, io.rx[0]) == h.frame
    requires h.outcome.result == F.PendingArp ==> h.outcome.waitIp != 0
    ensures CarriedOut(io, Dispose(cfg, io, h.outcome, now, alloc), io.rx[0], h, now)
  {
    if h.outcome.result == F.PendingArp {
      var ip := h.outcome.waitIp;
      var e := Enqueue(io, ip, now);
      ProbeAside(ArpCfg(cfg), e, ip, now, alloc);
      EnqueueCarries(io, ip, now);
      hide Enqueue, Probe;
      if io.rx[0] in e.owner {
        ProbeOther(ArpCfg(cfg), e, ip, now, alloc, io.rx[0]);
      }
    }
  }

  lemma EnqueueCarries(io: Io, ip: u32, now: u64)
    requires io.rx != [] && ip != 0
    ensures var r, m := Enqueue(io, ip, now), io.rx[0];
            && r.drop == io.drop
            && if |QueueOf(io, ip)| < 64
               then r.pending == io.pending[ip := QueueOf(io, ip) + [HeldPacket(m, now)]]
                    && FrameOf(r, m) == FrameOf(io, m) && m in r.owner && r.log == io.log
               else r.pending == io.pending && r.log == io.log + [Free(m)]
  {
  }

  lemma ProbeAside(cfg: Arp.ArpConfig, io: Io, ip: u32, now: u64, alloc: Option<Mbuf>)
    ensures var r := Probe(cfg, io, ip, now, alloc); r.drop == io.drop && r.pending == io.pending && io.log <= r.log
  {
    hide Arp.MakeRequest;
  }
}
