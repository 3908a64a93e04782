/**
 When a passively learned address flushes its queue (src/vgw.cpp). `handle` learns the source of an
 IPv4 packet, and afterwards looks at the source again to decide which queue to flush; by then the
 forwarder may have rewritten it.
 */
module PassiveLearning {
  import opened Base
  import opened Packet
  import opened Sessions
  import opened Upstreams
  import opened Neighbors
  import opened Arp
  import opened Worker
  import opened Ownership
  import opened HeldPackets
  import opened WorkerSteps
  import opened Gateway
  import opened GatewayProofs
  import opened NatTheorems
  import opened RunTheorems
  import F = Forward

  /** The source that the forwarder writes into a packet, if it writes one. */
  function NewSource(cfg: F.Config, sess: Table, ups: Ups, f: Frame, now: u64): Option<u32> {
    if Parse(f, cfg.verify).Failed? then None
    else if F.ForVip(cfg, f) then NewForward(cfg, sess, ups, f, now)
    else if IpAt(f, DST_AT) == cfg.gatewayIp then NewReverse(sess, f)
    else None
  }

  function NewForward(cfg: F.Config, sess: Table, ups: Ups, f: Frame, now: u64): Option<u32>
    requires HeadersFit(f)
  {
    var (sess1, _, h) := F.SessionFor(sess, ups, F.KeyOf(f), now);
    if h.Some? && h.value in sess1.heap then Some(cfg.gatewayIp) else None
  }

  function NewReverse(sess: Table, f: Frame): Option<u32>
    requires HeadersFit(f)
  {
    match LookupReverse(sess, F.KeyOf(f))
    case Some(h) => Some(sess.heap[h].vipIp)
    case None => None
  }

  lemma SentSource(f: Frame, r: Frame, key: FlowKey)
    requires HeadersFit(r) && F.KeyOf(r) == key && EtherType(r) == ETHER_TYPE_IPV4
    ensures Ipv4Src(r) == key.srcIp
  {
  }

  lemma EmittedIsIpv4(cfg: F.Config, c: Cache, f: Frame, src: u32, dst: u32, sport: u16, dport: u16, sent: F.Result)
    requires ParseOk(f)
    ensures EtherType(F.Emit(cfg, c, Rewrite(f, src, dst, sport, dport, cfg.recompute), dst, sent).0) == ETHER_TYPE_IPV4
  {
    assert ETH_LEN <= |f|;
    hide *;
    EmittedVerifies(cfg, c, f, src, dst, sport, dport, sent);
    VerifiedIsIpv4(f, F.Emit(cfg, c, Rewrite(f, src, dst, sport, dport, cfg.recompute), dst, sent).0, cfg.recompute);
  }

  lemma VerifiedIsIpv4(f: Frame, r: Frame, recompute: bool)
    requires Verifies(f, r, recompute)
    ensures EtherType(r) == ETHER_TYPE_IPV4
  {
    assert Parse(r, true).Parsed?;
    hide Verifies;
    ParsedIsIpv4(r, true);
  }

  lemma ForwardSource(cfg: F.Config, c: Cache, f: Frame, s: Session)
    requires ParseOk(f)
    ensures Ipv4Src(F.Emit(cfg, c, F.ForwardNat(cfg, f, s), s.upstreamIp, F.TxForward).0) == cfg.gatewayIp
  {
    var r := F.Emit(cfg, c, F.ForwardNat(cfg, f, s), s.upstreamIp, F.TxForward).0;
    ForwardOut(cfg, c, f, s);
    EmittedIsIpv4(cfg, c, f, cfg.gatewayIp, s.upstreamIp, s.snatPort, s.upstreamPort, F.TxForward);
    hide F.Emit, Rewrite, Parse, HeadersFit, F.KeyOf, Ipv4Src, EtherType;
    SentSource(f, r, FlowKey(cfg.gatewayIp, s.upstreamIp, s.snatPort, s.upstreamPort, PROTO_UDP));
  }

  lemma ReverseSource(cfg: F.Config, c: Cache, f: Frame, s: Session)
    requires ParseOk(f)
    ensures Ipv4Src(F.Emit(cfg, c, F.ReverseNat(cfg, f, s), s.clientIp, F.TxReverse).0) == s.vipIp
  {
    var r := F.Emit(cfg, c, F.ReverseNat(cfg, f, s), s.clientIp, F.TxReverse).0;
    ReverseOut(cfg, c, f, s);
    EmittedIsIpv4(cfg, c, f, s.vipIp, s.clientIp, s.vipPort, s.clientPort, F.TxReverse);
    hide F.Emit, Rewrite, Parse, HeadersFit, F.KeyOf, Ipv4Src, EtherType;
    SentSource(f, r, FlowKey(s.vipIp, s.clientIp, s.vipPort, s.clientPort, PROTO_UDP));
  }

  /** What the forwarder left in the frame: the source it wrote, or else the one that came. */
  ghost predicate Leaves(o: F.Out, f: Frame, src: Option<u32>) {
    o.outcome.learnedIp == 0 && Ipv4Src(o.frame) == if src.Some? then src.value else Ipv4Src(f)
  }

  lemma ForwardLeaves(cfg: F.Config, c: Cache, sess: Table, ups: Ups, f: Frame, now: u64)
    requires ParseOk(f)
    ensures Leaves(F.HandleForward(cfg, c, sess, ups, f, now), f, NewForward(cfg, sess, ups, f, now))
  {
    hide F.SessionFor, F.ForwardNat, Parse, Ipv4Src, SetL2;
    var (sess1, ups1, h) := F.SessionFor(sess, ups, F.KeyOf(f), now);
    if h.Some? && h.value in sess1.heap {
      ForwardSource(cfg, c, f, sess1.heap[h.value]);
    }
  }

  lemma ReverseLeaves(cfg: F.Config, c: Cache, sess: Table, ups: Ups, f: Frame, now: u64)
    requires ParseOk(f)
    ensures Leaves(F.HandleReverse(cfg, c, sess, ups, f, now), f, NewReverse(sess, f))
  {
    hide F.ReverseNat, Parse, Ipv4Src, SetL2;
    if LookupReverse(sess, F.KeyOf(f)).Some? {
      var h := LookupReverse(sess, F.KeyOf(f)).value;
      ReverseSource(cfg, c, f, Touch(sess, h, now).heap[h]);
    }
  }

  /** The source `handle` reads after the forwarder is the one written, or else the one that came. */
  lemma SourceAfter(cfg: F.Config, c: Cache, sess: Table, ups: Ups, f: Frame, now: u64)
    ensures Leaves(F.Handle(cfg, c, sess, ups, f, now), f, NewSource(cfg, sess, ups, f, now))
  {
    hide NewForward, NewReverse, F.HandleForward, F.HandleReverse, Ipv4Src, HeadersFit;
    if Parse(f, cfg.verify).Parsed? {
      ParseWeaker(f, cfg.verify);
      ForwardLeaves(cfg, c, sess, ups, f, now);
      ReverseLeaves(cfg, c, sess, ups, f, now);
      hide Parse, Leaves;
    }
  }

  /** An IPv4 packet from a source that is learned and has packets waiting. */
  ghost predicate LearnsWaiting(waiting: set<u32>, f: Frame, src: u32) {
    && EtherType(f) == ETHER_TYPE_IPV4 && Ipv4Src(f) == src
    && src != 0 && src % 0x100 < 224 && src in waiting
  }

  /**
   The address learned is the one whose queue is flushed if and only if the forwarder leaves the source
   alone, or writes the same one.
   */
  lemma LearnedIsFlushed(cfg: F.Config, g: Gw, waiting: set<u32>, f: Frame, now: u64, src: u32)
    requires LearnsWaiting(waiting, f, src)
    ensures var v := HandleFrame(cfg, g, waiting, f, now);
            && src in v.cache
            && (v.outcome.learnedIp == src <==> NewSource(cfg, g.sess, g.ups, f, now) in {None, Some(src)})
  {
    SourceAfter(cfg, PassiveLearn(g.cache, f, now), g.sess, g.ups, f, now);
    hide NewSource, F.Handle, Ipv4Src, EtherType;
  }

  lemma QueueLeft(cfg: F.Config, io: Io, h: Handled, now: u64, ip: u32)
    requires HeldInv(io, now) && io.rx != [] && h.outcome.learnedIp != ip
    ensures QueueOf(Flushed(cfg, io, h, now), ip) == QueueOf(io, ip)
  {
    FirstOwned(io, now);
    RelabelRxHeld(io, io.rx[0], h.frame, now);
    FlushFates(cfg, h.cache, io.(frames := io.frames[io.rx[0] := h.frame]), h.outcome.learnedIp, now);
    hide Flush, HeldInv, Fates;
  }

  /**
   At a step of the gateway: the queue of the learned source is flushed, down to its packets that
   are too many for the batch, if the condition holds; otherwise it is left as it is, expired packets included.
   */
  lemma PassiveFlush(cfg: F.Config, g: Gw, now: u64, src: u32) returns (a: nat, b: nat)
    requires GwInv(cfg, g) && g.io.rx != [] && g.clock <= now
    requires LearnsWaiting(g.io.pending.Keys, FrameOf(g.io, g.io.rx[0]), src)
    ensures var q := g.io.pending[src];
            && a <= b <= |q| && (forall i :: 0 <= i < |q| ==> (Expired(q[i], now) <==> i < a))
            && b - a == if |g.io.tx| < 32 then Min(|q| - a, 32 - |g.io.tx|) else 0
    ensures var f, v, q := FrameOf(g.io, g.io.rx[0]), Verdict(cfg, g, now), g.io.pending[src];
            QueueOf(Flushed(cfg, g.io, v, now), src) ==
              if NewSource(cfg, g.sess, g.ups, f, now) in {None, Some(src)} then q[b..] else q
  {
    var f, v := FrameOf(g.io, g.io.rx[0]), Verdict(cfg, g, now);
    hide SessInv, HeldInv, HandleFrame, NewSource, NamesClient, EtherType, Ipv4Src, Expired, Flushed, QueueOf;
    LearnedIsFlushed(cfg, g, g.io.pending.Keys, f, now, src);
    TimedLater(g.io, g.clock, now);
    assert src in g.io.pending && src in v.cache;
    hide *;
    a, b := FlushedQueue(cfg, g.io, v, now, src);
    if v.outcome.learnedIp != src {
      QueueLeft(cfg, g.io, v, now, src);
      QueueWhole(g.io, src);
    }
  }

  lemma QueueWhole(io: Io, ip: u32)
    requires ip in io.pending
    ensures QueueOf(io, ip) == io.pending[ip]
  {
  }

  /** Where a flush of the queue of `src` would cut it, and that it does if `src` was learned. */
  lemma FlushedQueue(cfg: F.Config, io: Io, h: Handled, now: u64, src: u32) returns (a: nat, b: nat)
    requires HeldInv(io, now) && io.rx != [] && src in io.pending && src in h.cache
    ensures var q := io.pending[src];
            && a <= b <= |q| && (forall i :: 0 <= i < |q| ==> (Expired(q[i], now) <==> i < a))
            && b - a == (if |io.tx| < 32 then Min(|q| - a, 32 - |io.tx|) else 0)
            && (h.outcome.learnedIp == src ==> QueueOf(Flushed(cfg, io, h, now), src) == q[b..])
  {
    assert src != 0;
    FirstOwned(io, now);
    RelabelRxHeld(io, io.rx[0], h.frame, now);
    hide HeldInv, Flush, Expired;
    a, b := FlushSplits(cfg, h.cache, io.(frames := io.frames[io.rx[0] := h.frame]), src, now);
  }

  /** A step that neither flushes nor fills the queue of `ip` leaves it as it is. */
  lemma LeftAlone(cfg: F.Config, g: Gw, now: u64, alloc: Option<Mbuf>, ip: u32)
    requires GwInv(cfg, g) && g.io.rx != [] && g.clock <= now
    requires var v := Verdict(cfg, g, now);
             ip in v.cache && v.outcome.learnedIp != ip && (v.outcome.result == F.PendingArp ==> v.outcome.waitIp != ip)
    ensures var r := HandleOne(cfg, g, now, alloc); ip in r.cache && QueueOf(r.io, ip) == QueueOf(g.io, ip)
  {
    hide SessInv, HeldInv, Verdict, Flushed, NamesClient, Dispose, QueueOf;
    var v := Verdict(cfg, g, now);
    TimedLater(g.io, g.clock, now);
    FlushedRx(cfg, g.io, v, now);
    QueueLeft(cfg, g.io, v, now, ip);
    DisposeOtherQueue(cfg, Flushed(cfg, g.io, v, now), v.outcome, now, alloc, ip);
  }

  /**
   The failing case: a VIP packet of a live session teaches its client's address, and replies that
   are waiting for that client stay in their queue with the neighbor known.
   */
  lemma RepliesLeftWaiting(cfg: F.Config, g: Gw, now: u64, alloc: Option<Mbuf>, h: Handle, client: u32)
    requires GwInv(cfg, g) && g.clock <= now && VipPacketNext(cfg, g, client) && client in g.io.pending
    requires h in g.sess.heap && g.sess.heap[h].forwardKey == F.KeyOf(FrameOf(g.io, g.io.rx[0]))
    requires client != cfg.gatewayIp && client != g.sess.heap[h].upstreamIp
    ensures var r := HandleOne(cfg, g, now, alloc);
            client in r.cache && QueueOf(r.io, client) == g.io.pending[client]
  {
    var f := FrameOf(g.io, g.io.rx[0]);
    LiveFlowSource(cfg, g, f, now, h);
    VipLearns(cfg, g, client);
    VipVerdict(cfg, g, now, h, client);
    hide HandleFrame, NewSource, VipPacketNext, LearnsWaiting, F.KeyOf, GwInv, HandleOne, Parse, HeadersFit, F.ForVip;
    LearnedIsFlushed(cfg, g, g.io.pending.Keys, f, now, client);
    LeftAlone(cfg, g, now, alloc, client);
  }

  lemma VipLearns(cfg: F.Config, g: Gw, client: u32)
    requires VipPacketNext(cfg, g, client) && client in g.io.pending
    ensures LearnsWaiting(g.io.pending.Keys, FrameOf(g.io, g.io.rx[0]), client)
  {
    ParsedIsIpv4(FrameOf(g.io, g.io.rx[0]), cfg.verify);
  }

  lemma LiveFlowSource(cfg: F.Config, g: Gw, f: Frame, now: u64, h: Handle)
    requires SessInv(cfg, g.sess) && Parse(f, cfg.verify).Parsed? && HeadersFit(f) && F.ForVip(cfg, f)
    requires h in g.sess.heap && g.sess.heap[h].forwardKey == F.KeyOf(f)
    ensures NewSource(cfg, g.sess, g.ups, f, now) == Some(cfg.gatewayIp)
  {
    ForwardLookup(g.sess, F.KeyOf(f));
    hide SessInv, Parse, HeadersFit, F.KeyOf, F.ForVip, Pick, Create;
  }

  /** Where a packet of the live session `h` can be told to wait. */
  lemma VipVerdict(cfg: F.Config, g: Gw, now: u64, h: Handle, client: u32)
    requires SessInv(cfg, g.sess) && VipPacketNext(cfg, g, client)
    requires h in g.sess.heap && g.sess.heap[h].forwardKey == F.KeyOf(FrameOf(g.io, g.io.rx[0]))
    ensures var o := Verdict(cfg, g, now).outcome;
            o.result == F.PendingArp ==> o.waitIp == g.sess.heap[h].upstreamIp
  {
    var f := FrameOf(g.io, g.io.rx[0]);
    hide SessInv, Parse, HeadersFit, F.KeyOf, F.ForVip, F.Handle, PassiveLearn, HandleFrame;
    ForwardTranslates(cfg, PassiveLearn(g.cache, f, now), g.sess, g.ups, f, now, h);
    ParsedIsIpv4(f, cfg.verify);
    hide EtherType, VipPacketNext;
    WaitKept(cfg, g, g.io.pending.Keys, f, now);
  }

  lemma DisposeOtherQueue(cfg: F.Config, io: Io, o: F.Outcome, now: u64, alloc: Option<Mbuf>, ip: u32)
    requires io.rx != [] && (o.result == F.PendingArp ==> o.waitIp != ip)
    ensures QueueOf(Dispose(cfg, io, o, now, alloc), ip) == QueueOf(io, ip)
  {
    hide MakeRequest;
  }
}
