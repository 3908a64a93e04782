/**
 From a packet that has to wait to the packets that go out: when a probe is sent, what it is byte for
 byte (RFC 826), and that the answer to it teaches the address and flushes its queue.
 */
module Probing {
  import opened Base
  import opened Packet
  import opened Neighbors
  import opened Arp
  import opened Worker
  import opened Ownership
  import opened HeldPackets
  import opened WorkerSteps
  import opened Gateway
  import opened GatewayProofs
  import opened RunTheorems
  import opened Teaching
  import F = Forward

  /** A broadcast ARP request for `target` over Ethernet and IPv4, byte for byte. */
  ghost predicate IsRequest(r: Frame, mac: Mac, sender: u32, target: u32) {
    && |r| == 42
    && r[0..6] == [0xff, 0xff, 0xff, 0xff, 0xff, 0xff] && r[6..12] == mac
    && r[12..22] == [0x08, 0x06, 0, 1, 0x08, 0, 6, 4, 0, 1]
    && r[22..28] == mac && Word(r[28], r[29], r[30], r[31]) == sender
    && r[32..38] == [0, 0, 0, 0, 0, 0] && Word(r[38], r[39], r[40], r[41]) == target
  }

  // ------------------------------------------------------------- the request

  lemma HeaderBytes(mac: Mac)
    ensures var r := RequestHeader(mac);
            && r[0..6] == [0xff, 0xff, 0xff, 0xff, 0xff, 0xff] && r[6..12] == mac
            && r[12..22] == [0x08, 0x06, 0, 1, 0x08, 0, 6, 4, 0, 1]
  {
    var fixed: seq<u8> := [0x08, 0x06, 0, 1, 0x08, 0, 6, 4, 0, 1];
    var rest: seq<u8> := seq(20, _ => 0);
    var r := BROADCAST + mac + fixed + rest;
    assert r[0..6] == BROADCAST && r[6..12] == mac && r[12..22] == fixed;
    assert r == RequestHeader(mac);
  }

  lemma SliceKept(f: Frame, r: Frame, a: nat, b: nat)
    requires a <= b <= |f| && |r| == |f| && forall i :: a <= i < b ==> r[i] == f[i]
    ensures r[a..b] == f[a..b]
  {
  }

  lemma RequestBytes(cfg: ArpConfig, target: u32)
    ensures IsRequest(MakeRequest(cfg, target), cfg.mac, cfg.gatewayIp, target)
  {
    HeaderBytes(cfg.mac);
    hide RequestHeader, PutMac, PutIp, IpBytes, Put;
    var f1 := RequestHeader(cfg.mac);
    var f2 := PutMac(f1, 22, cfg.mac);
    var f3 := PutIp(f2, 28, cfg.gatewayIp);
    var f4 := PutMac(f3, 32, ZERO_MAC);
    var f := PutIp(f4, 38, target);
    assert f == MakeRequest(cfg, target);
    hide MakeRequest;
    SliceKept(f1, f, 0, 6);
    SliceKept(f1, f, 6, 12);
    SliceKept(f1, f, 12, 22);
    SliceKept(f2, f, 22, 28);
    SliceKept(f4, f, 32, 38);
    assert MacAt(f2, 22) == f2[22..28] && MacAt(f4, 32) == f4[32..38];
    WordsKept(f3, f, 28);
    assert IpAt(f, 38) == Word(f[38], f[39], f[40], f[41]);
  }

  lemma WordsKept(f: Frame, r: Frame, o: nat)
    requires o + 4 <= |f| && |r| == |f| && forall i :: o <= i < o + 4 ==> r[i] == f[i]
    ensures Word(r[o], r[o + 1], r[o + 2], r[o + 3]) == IpAt(f, o)
  {
  }

  // ---------------------------------------------------------------- the step

  /** The last probe for `ip`, if there was one, is at least 1000 ms old. */
  ghost predicate Due(io: Io, ip: u32, now: u64) {
    ip in io.probed ==> io.probed[ip] + 1_000 <= now
  }

  lemma DueMeans(io: Io, ip: u32, now: u64, clock: u64)
    requires ProbesOk(io, clock) && clock <= now
    ensures Due(io, ip, now) <==> !(ip in io.probed && Age(now, io.probed[ip]) < PROBE_INTERVAL)
  {
  }

  lemma DisposedProbe(cfg: F.Config, io: Io, o: F.Outcome, now: u64, alloc: Option<Mbuf>, clock: u64)
    requires io.rx != [] && o.result == F.PendingArp && o.waitIp != 0 && ProbesOk(io, clock) && clock <= now
    ensures var r := Dispose(cfg, io, o, now, alloc);
            if alloc.Some? && Due(io, o.waitIp, now) && |io.tx| < 32 then
              && r.tx == io.tx + [alloc.value] && FrameOf(r, alloc.value) == MakeRequest(ArpCfg(cfg), o.waitIp)
              && r.probes == io.probes + [ProbeRecord(o.waitIp, now)] && r.probed == io.probed[o.waitIp := now]
            else r.tx == io.tx && r.probes == io.probes && r.probed == io.probed
  {
    DueMeans(io, o.waitIp, now, clock);
    var e := Enqueue(io, o.waitIp, now);
    assert e.tx == io.tx && e.probes == io.probes && e.probed == io.probed;
    hide Enqueue, MakeRequest, ProbesOk;
  }

  /**
   At the step that makes a packet wait for `ip`: a probe goes out if and only if the pool yields a buffer, the
   last probe for `ip` is at least 1000 ms old and the batch has room after the flush. It is then the last
   packet of the batch: a broadcast ARP request for `ip` from the gateway.
   */
  lemma ProbeAsks(cfg: F.Config, g: Gw, now: u64, alloc: Option<Mbuf>, ip: u32)
    requires GwInv(cfg, g) && g.io.rx != [] && g.clock <= now && ip != 0
    requires Verdict(cfg, g, now).outcome.result == F.PendingArp && Verdict(cfg, g, now).outcome.waitIp == ip
    ensures var r, v := HandleOne(cfg, g, now, alloc).io, Verdict(cfg, g, now);
            if alloc.Some? && Due(g.io, ip, now) && |g.io.tx| + Moves(g.io, v, now) < 32 then
              && r.tx != [] && r.tx[|r.tx| - 1] == alloc.value
              && IsRequest(FrameOf(r, alloc.value), cfg.gatewayMac, cfg.gatewayIp, ip)
              && r.probes == g.io.probes + [ProbeRecord(ip, now)] && r.probed == g.io.probed[ip := now]
            else r.probes == g.io.probes && r.probed == g.io.probed && |r.tx| == |g.io.tx| + Moves(g.io, v, now)
  {
    hide SessInv, HeldInv, NamesClient, Verdict, Flushed, Dispose, Moves, MakeRequest, FrameOf, IsRequest;
    var v := Verdict(cfg, g, now);
    TimedLater(g.io, g.clock, now);
    FlushedKeeps(cfg, g.io, v, now);
    FlushedTx(cfg, g.io, v, now);
    var io := Flushed(cfg, g.io, v, now);
    assert ProbesOk(io, g.clock);
    hide GwInv, ProbesOk;
    DisposedProbe(cfg, io, v.outcome, now, alloc, g.clock);
    RequestBytes(ArpCfg(cfg), ip);
  }

  // -------------------------------------------------------------- the answer

  lemma RequestParses(f: Frame, mac: Mac, sender: u32, target: u32)
    requires IsRequest(f, mac, sender, target)
    ensures ArpOk(f) && U16(f, OP_AT) == OP_REQUEST && IpAt(f, TIP_AT) == target
  {
    var s := f[12..22];
    assert f[12] == s[0] && f[13] == s[1] && f[14] == s[2] && f[15] == s[3] && f[16] == s[4];
    assert f[17] == s[5] && f[18] == s[6] && f[19] == s[7] && f[20] == s[8] && f[21] == s[9];
  }

  /** The owner of `ip` answers the probe with its own MAC. */
  lemma ProbeAnswered(b: ArpConfig, cb: Cache, f: Frame, mac: Mac, sender: u32, ip: u32, at: u64)
    requires IsRequest(f, mac, sender, ip) && (ip == b.gatewayIp || ip == b.vipIp)
    ensures var a := Arp.Handle(b, cb, f, at);
            && a.reply && ArpOk(a.frame) && U16(a.frame, OP_AT) == OP_REPLY
            && IpAt(a.frame, SIP_AT) == ip && MacAt(a.frame, SHA_AT) == b.mac && MacAt(a.frame, 0) == mac
  {
    RequestParses(f, mac, sender, ip);
    assert MacAt(f, 6) == mac;
    hide IsRequest, ArpOk, U16, IpAt, MacAt;
    ReplyFields(b, f, ip);
    hide MakeReply;
  }

  lemma AnswerVerdict(cfg: F.Config, g: Gw, now: u64, ip: u32, mac: Mac)
    requires g.io.rx != [] && ip != 0 && !IsZeroMac(mac)
    requires var f := FrameOf(g.io, g.io.rx[0]);
             ArpOk(f) && U16(f, OP_AT) == OP_REPLY && IpAt(f, SIP_AT) == ip && MacAt(f, SHA_AT) == mac
    ensures var v := Verdict(cfg, g, now);
            v.outcome == F.Outcome(F.Drop, 0, ip) && v.cache == Learn(g.cache, ip, mac, now)
  {
    var f := FrameOf(g.io, g.io.rx[0]);
    assert EtherType(f) == ETHER_TYPE_ARP;
    hide EtherType, MakeReply, FrameOf, ArpOk, U16, IpAt, MacAt;
  }

  lemma DroppedBatch(cfg: F.Config, io: Io, o: F.Outcome, now: u64, alloc: Option<Mbuf>)
    requires io.rx != [] && o.result == F.Drop
    ensures var r := Dispose(cfg, io, o, now, alloc); r.tx == io.tx && r.pending == io.pending && r.log == io.log
  {
  }

  /**
   The answer comes in: the address is known with the owner's MAC, and its queue is flushed, expired packets
   freed and the others sent as far as the batch has room.
   */
  lemma AnswerFlushes(cfg: F.Config, g: Gw, now: u64, alloc: Option<Mbuf>, ip: u32, mac: Mac) returns (x: nat, y: nat)
    requires GwInv(cfg, g) && g.io.rx != [] && g.clock <= now
    requires ip in g.io.pending && !IsZeroMac(mac) && !IsStatic(g.cache, ip)
    requires var f := FrameOf(g.io, g.io.rx[0]);
             ArpOk(f) && U16(f, OP_AT) == OP_REPLY && IpAt(f, SIP_AT) == ip && MacAt(f, SHA_AT) == mac
    ensures var q := g.io.pending[ip];
            && x <= y <= |q| && (forall i :: 0 <= i < |q| ==> (Expired(q[i], now) <==> i < x))
            && y - x == if |g.io.tx| < 32 then Min(|q| - x, 32 - |g.io.tx|) else 0
    ensures var r, q := HandleOne(cfg, g, now, alloc), g.io.pending[ip];
            && r.cache == g.cache[ip := Entry(mac, now, false)]
            && QueueOf(r.io, ip) == q[y..] && r.io.tx == g.io.tx + Ids(q[x..y]) && r.io.log == g.io.log + Frees(q[..x])
  {
    var v := Verdict(cfg, g, now);
    NonZeroQueue(cfg, g, ip);
    AnswerVerdict(cfg, g, now, ip, mac);
    hide SessInv, HeldInv, NamesClient, Verdict, Dispose, ArpOk, U16, IpAt, MacAt, Expired, FrameOf, Flush;
    TimedLater(g.io, g.clock, now);
    FirstOwned(g.io, now);
    RelabelRxHeld(g.io, g.io.rx[0], v.frame, now);
    hide GwInv;
    var io1 := g.io.(frames := g.io.frames[g.io.rx[0] := v.frame]);
    x, y := FlushSplits(cfg, v.cache, io1, ip, now);
    FlushedRx(cfg, g.io, v, now);
    assert Flushed(cfg, g.io, v, now) == Flush(cfg, v.cache, io1, ip, now);
    hide Flushed;
    DroppedBatch(cfg, Flushed(cfg, g.io, v, now), v.outcome, now, alloc);
  }

  lemma NonZeroQueue(cfg: F.Config, g: Gw, ip: u32)
    requires GwInv(cfg, g) && ip in g.io.pending
    ensures ip != 0
  {
  }

  /**
   The whole exchange: the owner's answer to the very frame that `ProbeAsks` describes, handled by the gateway
   while packets are waiting for `ip`, teaches `ip` with the owner's MAC and flushes the queue.
   */
  lemma ProbeResolves(cfg: F.Config, b: ArpConfig, cb: Cache, probe: Frame, at: u64, ip: u32,
                      g: Gw, now: u64, alloc: Option<Mbuf>) returns (x: nat, y: nat)
    requires IsRequest(probe, cfg.gatewayMac, cfg.gatewayIp, ip) && (ip == b.gatewayIp || ip == b.vipIp) && !IsZeroMac(b.mac)
    requires GwInv(cfg, g) && g.io.rx != [] && g.clock <= now && ip in g.io.pending && !IsStatic(g.cache, ip)
    requires FrameOf(g.io, g.io.rx[0]) == Arp.Handle(b, cb, probe, at).frame
    ensures MacAt(probe, 0) == BROADCAST && Arp.Handle(b, cb, probe, at).reply
    ensures var q := g.io.pending[ip];
            && x <= y <= |q| && (forall i :: 0 <= i < |q| ==> (Expired(q[i], now) <==> i < x))
            && y - x == if |g.io.tx| < 32 then Min(|q| - x, 32 - |g.io.tx|) else 0
    ensures var r, q := HandleOne(cfg, g, now, alloc), g.io.pending[ip];
            && r.cache == g.cache[ip := Entry(b.mac, now, false)]
            && QueueOf(r.io, ip) == q[y..] && r.io.tx == g.io.tx + Ids(q[x..y])
  {
    assert MacAt(probe, 0) == BROADCAST;
    hide *;
    ProbeAnswered(b, cb, probe, cfg.gatewayMac, cfg.gatewayIp, ip, at);
    x, y := AnswerFlushes(cfg, g, now, alloc, ip, b.mac);
  }
}
