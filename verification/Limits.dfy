/**
 Where the program stops short, shown at inputs that reach the point: a packet that nobody
 takes, a transmit batch past its size, and a payload that runs past the end of its frame.
 */
module Limits {
  import opened Base
  import opened Packet
  import opened PacketProofs
  import opened Sessions
  import opened SessionProofs
  import opened Upstreams
  import opened Neighbors
  import opened Arp
  import opened Worker
  import opened Ownership
  import opened HeldPackets
  import opened WorkerSteps
  import opened Gateway
  import opened GatewayProofs
  import opened RunTheorems
  import F = Forward

  // ------------------------------------------------- a payload past the end

  /** A 42-byte UDP frame that claims a UDP length of 65535. */
  function LongClaim(): Frame {
    [0, 0, 0, 0, 0, 0, 0, 0, 0, 0, 0, 0, 0x08, 0x00,
     0x45, 0, 0, 28, 0, 0, 0, 0, 64, 17, 0, 0, 0, 0, 0, 0, 0, 0, 0, 0,
     0, 0, 0, 0, 0xff, 0xff, 0, 0]
  }

  /** With its checksums set, this frame is accepted with verification on, payload and all. */
  lemma PayloadPastEnd() returns (f: Frame)
    ensures |f| == 42 && Parse(f, true) == Parsed(20, 65527) && UdpAt(f) + UDP_LEN + 65527 > |f|
  {
    assert UDP_LEN == 8;
    hide *;
    LongClaimParses();
    RewriteParses(LongClaim(), 0, 0, 0, 0, false, true);
    RewriteEffect(LongClaim(), 0, 0, 0, 0, false);
    f := Rewrite(LongClaim(), 0, 0, 0, 0, false);
  }

  /** A frame of 42 bytes with a plain IPv4 header and a UDP header. */
  predicate Plain(f: Frame) {
    && |f| == 42 && f[12] == 0x08 && f[13] == 0 && f[14] == 0x45
    && f[20] == 0 && f[21] == 0 && f[23] == PROTO_UDP
  }

  lemma PlainParses(f: Frame)
    requires Plain(f) && UDP_LEN <= U16(f, 38) && (34 + U16(f, 38)) % 0x1_0000 <= 42
    ensures ParseOk(f) && HeadersFit(f) && UdpAt(f) == 34 && Parse(f, false) == Parsed(20, U16(f, 38) - UDP_LEN)
  {
    assert Ihl(f) == 20;
    hide PutU16, IpChecksum, UdpChecksumOk;
  }

  lemma LongClaimParses()
    ensures var f := LongClaim();
            && |f| == 42 && ParseOk(f) && HeadersFit(f) && Parse(f, false) == Parsed(20, 65527) && UdpAt(f) == 34
  {
    var f := LongClaim();
    assert Plain(f) && f[38] == 0xff && f[39] == 0xff;
    hide LongClaim, Plain, Parse, HeadersFit;
    PlainParses(f);
  }

  // --------------------------------------------- a datagram that does not sum

  /** A 42-byte UDP frame whose IPv4 total length covers the IPv4 header only. */
  function ShortTotal(): Frame {
    [0, 0, 0, 0, 0, 0, 0, 0, 0, 0, 0, 0, 0x08, 0x00,
     0x45, 0, 0, 20, 0, 0, 0, 0, 64, 17, 0, 0, 0, 0, 0, 0, 0, 0, 0, 0,
     0, 0, 0, 0, 0, 8, 0, 0]
  }

  /** The parser accepts it, and with its checksums recomputed it does not sum to all ones. */
  lemma DatagramDoesNotSum()
    ensures ParseOk(ShortTotal())
    ensures var r := FinishL4(ShortTotal(), true);
            HeadersFit(r) && 0 <= L4Len(r) && Carry(UdpSum(r)) != 0xffff
  {
    hide *;
    ShortTotalParses();
    ShortTotalAddresses();
    var f := ShortTotal();
    PseudoHeaderOnly(f);
    FinishedDatagramSums(f);
    SeventeenDoesNotCount();
  }

  lemma ShortTotalParses()
    ensures var f := ShortTotal();
            ParseOk(f) && HeadersFit(f) && L4Len(f) == 0 && f[PROTO_AT] == PROTO_UDP
  {
    var f := ShortTotal();
    assert Plain(f) && f[38] == 0 && f[39] == 8 && f[TOTAL_LEN_AT] == 0 && f[TOTAL_LEN_AT + 1] == 20;
    assert Ihl(f) == 20 && f[PROTO_AT] == PROTO_UDP;
    hide ShortTotal, Plain, Parse, HeadersFit;
    PlainParses(f);
  }

  lemma ShortTotalAddresses()
    ensures |ShortTotal()| == 42 && forall i :: SRC_AT <= i < DST_AT + 4 ==> ShortTotal()[i] == 0
  {
    var f := ShortTotal();
    assert f[26] == f[27] == f[28] == f[29] == f[30] == f[31] == f[32] == f[33] == 0;
    hide ShortTotal;
  }

  lemma SeventeenDoesNotCount()
    ensures !FieldCounts(0, Carry(PROTO_UDP))
  {
  }

  lemma PseudoHeaderOnly(f: Frame)
    requires HeadersFit(f) && L4Len(f) == 0 && f[PROTO_AT] == PROTO_UDP
    requires forall i :: SRC_AT <= i < DST_AT + 4 ==> f[i] == 0
    ensures OpenSum(f) == PROTO_UDP
  {
    ZeroedFits(f);
    var f0 := PutU16(f, UdpSumAt(f), 0);
    assert f0[PROTO_AT] == f[PROTO_AT];
    assert forall i :: SRC_AT <= i < DST_AT + 4 ==> f0[i] == 0;
    hide PutU16, L4Len;
    assert L4Bytes(f0) == [];
  }

  // --------------------------------------------------------- a packet lost

  /** The next packet is for the VIP, from address 0, and opens a flow toward `ep`. */
  ghost predicate AnonymousNext(cfg: F.Config, g: Gw, ep: Endpoint) {
    g.io.rx != [] &&
    var f := FrameOf(g.io, g.io.rx[0]);
    && Parse(f, cfg.verify).Parsed? && HeadersFit(f) && F.ForVip(cfg, f)
    && F.KeyOf(f).srcIp == 0 && F.KeyOf(f) !in g.sess.forward
    && Pick(g.ups, F.KeyOf(f)).1 == Some(ep) && ep.ip != 0
  }

  lemma AnonymousCreates(cfg: F.Config, c: Cache, sess: Table, ups: Ups, f: Frame, now: u64, ep: Endpoint)
    requires Sessions.Inv(sess) && |sess.order| < sess.end - sess.begin
    requires Parse(f, cfg.verify).Parsed? && HeadersFit(f) && F.ForVip(cfg, f)
    requires F.KeyOf(f) !in sess.forward && Pick(ups, F.KeyOf(f)).1 == Some(ep) && ep.ip != 0
    ensures var r := F.Handle(cfg, c, sess, ups, f, now).sess;
            && Sessions.Inv(r) && r.gatewayIp == sess.gatewayIp && sess.nextHandle in r.heap
            && r.heap[sess.nextHandle] == NewSession(sess.gatewayIp, F.KeyOf(f), ep.ip, ep.port, Alloc(sess).1, now)
  {
    var key := F.KeyOf(f);
    CreatedOnMiss(sess, ups, key, now, ep);
    hide Sessions.Inv, Parse, HeadersFit, F.KeyOf, F.Emit, F.ForwardNat, Pick, F.ForVip, Alloc, F.SessionFor;
  }

  lemma CreatedOnMiss(sess: Table, ups: Ups, key: FlowKey, now: u64, ep: Endpoint)
    requires Sessions.Inv(sess) && |sess.order| < sess.end - sess.begin
    requires key !in sess.forward && Pick(ups, key).1 == Some(ep) && ep.ip != 0
    ensures var r := F.SessionFor(sess, ups, key, now).0;
            && Sessions.Inv(r) && r.gatewayIp == sess.gatewayIp && sess.nextHandle in r.heap
            && r.heap[sess.nextHandle] == NewSession(sess.gatewayIp, key, ep.ip, ep.port, Alloc(sess).1, now)
  {
    hide Sessions.Inv, Pick;
    ForwardLookup(sess, key);
    CreateFailsWhenFull(sess, key, ep.ip, ep.port, now);
    CreateKeepsInv(sess, key, ep.ip, ep.port, now);
    AllocKeepsRest(sess);
    hide Alloc;
  }

  /** A VIP packet from 0.0.0.0 opens a session whose client has address 0. */
  lemma AnonymousSession(cfg: F.Config, g: Gw, now: u64, alloc: Option<Mbuf>, ep: Endpoint)
    requires Sessions.Inv(g.sess) && |g.sess.order| < g.sess.end - g.sess.begin
    requires AnonymousNext(cfg, g, ep)
    ensures var r, h := HandleOne(cfg, g, now, alloc).sess, g.sess.nextHandle;
            && Sessions.Inv(r) && r.gatewayIp == g.sess.gatewayIp && h in r.heap && r.heap[h].clientIp == 0
            && r.heap[h].reverseKey == FlowKey(ep.ip, g.sess.gatewayIp, ep.port, Alloc(g.sess).1, PROTO_UDP)
  {
    var f := FrameOf(g.io, g.io.rx[0]);
    ParsedIsIpv4(f, cfg.verify);
    AnonymousCreates(cfg, PassiveLearn(g.cache, f, now), g.sess, g.ups, f, now, ep);
    assert F.KeyOf(f).proto == PROTO_UDP;
    hide F.Handle, Sessions.Inv, Parse, HeadersFit, F.KeyOf, Pick, F.ForVip, Alloc, Flushed, Dispose;
  }

  lemma ZeroNotLearned(c: Cache, f: Frame, now: u64)
    requires 0 !in c
    ensures 0 !in PassiveLearn(c, f, now)
  {
  }

  lemma ZeroReplyVerdict(cfg: F.Config, g: Gw, now: u64, h: Handle)
    requires Sessions.Inv(g.sess) && g.sess.gatewayIp == cfg.gatewayIp
    requires ReplyNext(cfg, g, h, 0) && 0 !in g.cache
    ensures Verdict(cfg, g, now).outcome.result == F.PendingArp && Verdict(cfg, g, now).outcome.waitIp == 0
  {
    var f := FrameOf(g.io, g.io.rx[0]);
    ZeroNotLearned(g.cache, f, now);
    hide Sessions.Inv, Parse, HeadersFit, F.KeyOf, F.ForVip, PassiveLearn, HandleFrame;
    ZeroReplyWaits(cfg, PassiveLearn(g.cache, f, now), g.sess, g.ups, f, now, h);
    ParsedIsIpv4(f, cfg.verify);
    hide F.Handle, EtherType, ReplyNext;
    WaitKept(cfg, g, g.io.pending.Keys, f, now);
  }

  lemma DisposedNowhere(cfg: F.Config, io: Io, o: F.Outcome, now: u64, alloc: Option<Mbuf>)
    requires io.rx != [] && o.result == F.PendingArp && o.waitIp == 0
    ensures var r, m := Dispose(cfg, io, o, now, alloc), io.rx[0];
            && m in r.owner && r.owner[m] == Lost && !PlaceOwned(r, Lost)
  {
  }

  /** A reply to such a session, address 0 not being cached, is held for nobody and freed by nobody. */
  lemma ReplyToZeroLost(cfg: F.Config, g: Gw, now: u64, alloc: Option<Mbuf>, h: Handle)
    requires Sessions.Inv(g.sess) && g.sess.gatewayIp == cfg.gatewayIp
    requires ReplyNext(cfg, g, h, 0) && 0 !in g.cache
    ensures var r, m := HandleOne(cfg, g, now, alloc).io, g.io.rx[0];
            && m in r.owner && r.owner[m] == Lost && !Owned(r)
  {
    hide Sessions.Inv, Verdict, Flushed, Dispose, LedgerOk, PlaceOwned;
    ZeroReplyVerdict(cfg, g, now, h);
    var v := Verdict(cfg, g, now);
    FlushedRx(cfg, g.io, v, now);
    hide ReplyNext;
    DisposedNowhere(cfg, Flushed(cfg, g.io, v, now), v.outcome, now, alloc);
  }

  lemma ZeroReplyWaits(cfg: F.Config, c: Cache, sess: Table, ups: Ups, f: Frame, now: u64, h: Handle)
    requires Sessions.Inv(sess) && sess.gatewayIp == cfg.gatewayIp && 0 !in c
    requires Parse(f, cfg.verify).Parsed? && HeadersFit(f) && !F.ForVip(cfg, f)
    requires h in sess.heap && sess.heap[h].reverseKey == F.KeyOf(f) && sess.heap[h].clientIp == 0
    ensures F.Handle(cfg, c, sess, ups, f, now).outcome == F.Outcome(F.PendingArp, 0, 0)
  {
    LiveSession(sess, h);
    ReverseLookup(sess, F.KeyOf(f));
    hide Sessions.Inv, Parse, HeadersFit, F.ReverseNat;
  }

  // ------------------------------------------------- a batch past its size

  /** The frame of `m` is an ARP reply that teaches `ip`. */
  ghost predicate Teaches(io: Io, m: Mbuf, ip: u32) {
    var f := FrameOf(io, m);
    ArpOk(f) && U16(f, OP_AT) == OP_REPLY && IpAt(f, SIP_AT) == ip && ip != 0 && !IsZeroMac(MacAt(f, SHA_AT))
  }

  /** The frame of `m` is an ARP request that the gateway answers. */
  ghost predicate Asks(cfg: F.Config, io: Io, m: Mbuf) {
    var f := FrameOf(io, m);
    ArpOk(f) && U16(f, OP_AT) == OP_REQUEST && IsProxyTarget(ArpCfg(cfg), IpAt(f, TIP_AT))
  }

  lemma TeachingVerdict(cfg: F.Config, g: Gw, now: u64, ip: u32)
    requires g.io.rx != [] && Teaches(g.io, g.io.rx[0], ip)
    ensures var v := Verdict(cfg, g, now); v.outcome == F.Outcome(F.Drop, 0, ip) && ip in v.cache
  {
  }

  lemma AskingVerdict(cfg: F.Config, g: Gw, now: u64)
    requires g.io.rx != [] && Asks(cfg, g.io, g.io.rx[0])
    ensures Verdict(cfg, g, now).outcome == F.Outcome(F.TxArp, 0, 0)
  {
    hide MakeReply;
  }

  /** The packets of the burst that are not at hand keep their bytes. */
  lemma OthersWait(cfg: F.Config, g: Gw, now: u64, i: nat)
    requires HeldInv(g.io, now) && 0 < i < |g.io.rx|
    ensures FrameOf(HandleOne(cfg, g, now, None).io, g.io.rx[i]) == FrameOf(g.io, g.io.rx[i])
  {
    var h, m := Verdict(cfg, g, now), g.io.rx[i];
    hide HandleFrame, Verdict, Flushed, FrameOf, Dispose, HeldReady;
    FlushedKeeps(cfg, g.io, h, now);
    ListedIsOwned(g.io, InRx, i);
    AtHandIsOther(g.io, i);
    hide HeldInv;
    DisposeOther(cfg, Flushed(cfg, g.io, h, now), h.outcome, now, None, m);
  }

  lemma AtHandIsOther(io: Io, i: nat)
    requires Owned(io) && 0 < i < |io.rx|
    ensures io.rx[0] != io.rx[i]
  {
    assert PlaceOwned(io, InRx);
  }

  /** The second packet of the burst is next, with its bytes as they came. */
  lemma SecondFrame(cfg: F.Config, g: Gw, now: u64)
    requires GwInv(cfg, g) && g.clock <= now && |g.io.rx| >= 2
    ensures var r := HandleOne(cfg, g, now, None);
            && GwInv(cfg, r) && r.clock == now && r.io.rx == g.io.rx[1..]
            && FrameOf(r.io, r.io.rx[0]) == FrameOf(g.io, g.io.rx[1])
  {
    hide SessInv, HeldInv, Verdict, Flushed, NamesClient, FrameOf, HandleOne;
    HandleOneKeeps(cfg, g, now, None);
    HandleOneRx(cfg, g, now, None);
    TimedLater(g.io, g.clock, now);
    OthersWait(cfg, g, now, 1);
  }

  lemma FillsBatch(cfg: F.Config, g: Gw, now: u64, ip: u32)
    requires GwInv(cfg, g) && g.clock <= now && g.io.rx != [] && g.io.tx == []
    requires Teaches(g.io, g.io.rx[0], ip)
    requires ip in g.io.pending && |Unexpired(g.io.pending[ip], now)| >= BURST
    ensures |HandleOne(cfg, g, now, None).io.tx| == BURST
  {
    TeachingVerdict(cfg, g, now, ip);
    hide GwInv, HandleOne, Verdict, Flushed;
    TxExact(cfg, g, now, None);
  }

  lemma AnswersOneMore(cfg: F.Config, g: Gw, now: u64)
    requires GwInv(cfg, g) && g.clock <= now && g.io.rx != [] && |g.io.tx| == BURST && Asks(cfg, g.io, g.io.rx[0])
    ensures |HandleOne(cfg, g, now, None).io.tx| == BURST + 1
  {
    AskingVerdict(cfg, g, now);
    hide GwInv, HandleOne, Verdict, Flushed;
    TxExact(cfg, g, now, None);
  }

  /**
   Two ARP packets are enough. With at least 32 unexpired packets held for `ip`, an ARP reply from
   `ip` fills the batch, and the ARP request after it is answered as packet number 33.
   */
  lemma ThirtyThree(cfg: F.Config, g: Gw, now: u64, ip: u32)
    requires GwInv(cfg, g) && g.clock <= now && |g.io.rx| >= 2 && g.io.tx == []
    requires Teaches(g.io, g.io.rx[0], ip) && Asks(cfg, g.io, g.io.rx[1])
    requires ip in g.io.pending && |Unexpired(g.io.pending[ip], now)| >= BURST
    ensures var steps := [HandleNext(now, None), HandleNext(now, None)];
            IsRun(cfg, g, steps) && |Run(cfg, g, steps).io.tx| == BURST + 1
  {
    hide GwInv, HandleOne, FrameOf, Unexpired;
    var g1 := HandleOne(cfg, g, now, None);
    FillsBatch(cfg, g, now, ip);
    SecondFrame(cfg, g, now);
    AnswersOneMore(cfg, g1, now);
    TwoSteps(cfg, g, now);
  }

  lemma TwoSteps(cfg: F.Config, g: Gw, now: u64)
    requires g.io.rx != [] && g.clock <= now
    requires var g1 := HandleOne(cfg, g, now, None); g1.io.rx != [] && g1.clock <= now
    ensures var steps := [HandleNext(now, None), HandleNext(now, None)];
            && IsRun(cfg, g, steps)
            && Run(cfg, g, steps) == HandleOne(cfg, HandleOne(cfg, g, now, None), now, None)
  {
    hide HandleOne, Verdict, Flushed;
    var g1, steps := HandleOne(cfg, g, now, None), [HandleNext(now, None), HandleNext(now, None)];
    var rest := steps[1..];
    assert rest == [HandleNext(now, None)];
    assert rest[1..] == [];
    var g2 := Apply(cfg, g1, rest[0]);
    assert Enabled(cfg, g1, rest[0]) && g2 == HandleOne(cfg, g1, now, None);
    assert IsRun(cfg, g2, rest[1..]) && Run(cfg, g2, rest[1..]) == g2;
    assert IsRun(cfg, g1, rest) && Run(cfg, g1, rest) == g2;
    assert Enabled(cfg, g, steps[0]) && Apply(cfg, g, steps[0]) == g1;
  }
}
