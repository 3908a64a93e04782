/** ARP requests, replies and probes over Ethernet/IPv4 (src/arp.cpp, RFC 826). */
module Arp {
  import opened Base
  import opened Packet
  import opened Neighbors

  const ARP_FRAME_LEN := 42
  const OP_AT := 20
  const SHA_AT := 22
  const SIP_AT := 28
  const THA_AT := 32
  const TIP_AT := 38
  const OP_REQUEST := 1
  const OP_REPLY := 2

  datatype ArpConfig = ArpConfig(gatewayIp: u32, vipIp: u32, mac: Mac)

  /** New cache, frame, whether the frame is to be sent back, and the address learned (0: none). */
  datatype ArpOut = ArpOut(cache: Cache, frame: Frame, reply: bool, learned: u32)

  /** `parse_arp`. */
  predicate ArpOk(f: Frame) {
    && ARP_FRAME_LEN <= |f|
    && U16(f, ETHER_TYPE_AT) == ETHER_TYPE_ARP
    && U16(f, 14) == 1 && U16(f, 16) == ETHER_TYPE_IPV4 && f[18] == 6 && f[19] == 4
  }

  predicate IsZeroMac(mac: Mac) {
    mac == ZERO_MAC
  }

  predicate IsProxyTarget(cfg: ArpConfig, ip: u32) {
    ip == cfg.gatewayIp || ip == cfg.vipIp
  }

  function MakeReply(cfg: ArpConfig, f: Frame, ip: u32): Frame
    requires ARP_FRAME_LEN <= |f|
  {
    var f1 := PutMac(f, 0, MacAt(f, 6));
    var f2 := PutU16(PutMac(f1, 6, cfg.mac), OP_AT, OP_REPLY);
    var f3 := PutMac(PutMac(f2, THA_AT, MacAt(f2, SHA_AT)), SHA_AT, cfg.mac);
    PutIp(PutIp(f3, SIP_AT, ip), TIP_AT, IpAt(f3, SIP_AT))[..ARP_FRAME_LEN]
  }

  function HandleReply(c: Cache, f: Frame, now: u64): ArpOut
    requires ARP_FRAME_LEN <= |f|
  {
    var ip, mac := IpAt(f, SIP_AT), MacAt(f, SHA_AT);
    if ip == 0 || IsZeroMac(mac) then ArpOut(c, f, false, 0)
    else ArpOut(Learn(c, ip, mac, now), f, false, ip)
  }

  function Handle(cfg: ArpConfig, c: Cache, f: Frame, now: u64): ArpOut {
    if !ArpOk(f) then ArpOut(c, f, false, 0)
    else if U16(f, OP_AT) == OP_REQUEST then
      var target := IpAt(f, TIP_AT);
      if IsProxyTarget(cfg, target) then ArpOut(c, MakeReply(cfg, f, target), true, 0)
      else ArpOut(c, f, false, 0)
    else if U16(f, OP_AT) == OP_REPLY then HandleReply(c, f, now)
    else ArpOut(c, f, false, 0)
  }

  const BROADCAST: Mac := [0xff, 0xff, 0xff, 0xff, 0xff, 0xff]
  const ZERO_MAC: Mac := [0, 0, 0, 0, 0, 0]

  /** The Ethernet header and the fixed part of the ARP header of a request, in a cleared buffer. */
  function RequestHeader(mac: Mac): (r: Frame)
    ensures |r| == ARP_FRAME_LEN && ArpOk(r) && U16(r, OP_AT) == OP_REQUEST && MacAt(r, 6) == mac
  {
    BROADCAST + mac + [0x08, 0x06, 0, 1, 0x08, 0, 6, 4, 0, 1] + seq(20, _ => 0)
  }

  /** `make_request`: a broadcast request for `target`, in an mbuf that was obtained. */
  function MakeRequest(cfg: ArpConfig, target: u32): (r: Frame)
    ensures |r| == ARP_FRAME_LEN
  {
    var f := PutIp(PutMac(RequestHeader(cfg.mac), SHA_AT, cfg.mac), SIP_AT, cfg.gatewayIp);
    PutIp(PutMac(f, THA_AT, ZERO_MAC), TIP_AT, target)
  }

  // --------------------------------------------------- a whole ARP exchange

  lemma RequestFields(cfg: ArpConfig, target: u32)
    ensures var f := MakeRequest(cfg, target);
            && ArpOk(f) && U16(f, OP_AT) == OP_REQUEST
            && MacAt(f, 6) == cfg.mac && MacAt(f, SHA_AT) == cfg.mac
            && IpAt(f, SIP_AT) == cfg.gatewayIp && IpAt(f, TIP_AT) == target
  {
    hide PutMac, PutU16, PutIp, Put, RequestHeader, IpBytes;
    var f1 := RequestHeader(cfg.mac);
    var f2 := PutMac(f1, SHA_AT, cfg.mac);
    var f3 := PutIp(f2, SIP_AT, cfg.gatewayIp);
    var f4 := PutMac(f3, THA_AT, ZERO_MAC);
    var f := MakeRequest(cfg, target);
    assert f == PutIp(f4, TIP_AT, target);
    MacKept(f1, f, 6);
    MacKept(f2, f, SHA_AT);
    assert IpAt(f, SIP_AT) == IpAt(f3, SIP_AT);
    assert U16(f, OP_AT) == U16(f1, OP_AT);
  }

  lemma MacKept(f: Frame, r: Frame, o: nat)
    requires o + 6 <= |f| && o + 6 <= |r| && forall i :: o <= i < o + 6 ==> r[i] == f[i]
    ensures MacAt(r, o) == MacAt(f, o)
  {
  }

  lemma ReplyFields(cfg: ArpConfig, f: Frame, ip: u32)
    requires ArpOk(f)
    ensures var r := MakeReply(cfg, f, ip);
            && ArpOk(r) && U16(r, OP_AT) == OP_REPLY
            && MacAt(r, 0) == MacAt(f, 6) && MacAt(r, 6) == cfg.mac
            && MacAt(r, SHA_AT) == cfg.mac && IpAt(r, SIP_AT) == ip
            && MacAt(r, THA_AT) == MacAt(f, SHA_AT) && IpAt(r, TIP_AT) == IpAt(f, SIP_AT)
  {
    hide PutMac, PutU16, PutIp, Put, U16Bytes, IpBytes;
    var f1 := PutMac(f, 0, MacAt(f, 6));
    var f2 := PutMac(f1, 6, cfg.mac);
    var f3 := PutU16(f2, OP_AT, OP_REPLY);
    MacKept(f, f3, SHA_AT);
    var f4 := PutMac(f3, THA_AT, MacAt(f3, SHA_AT));
    var f5 := PutMac(f4, SHA_AT, cfg.mac);
    assert IpAt(f5, SIP_AT) == IpAt(f, SIP_AT);
    var f6 := PutIp(f5, SIP_AT, ip);
    var f7 := PutIp(f6, TIP_AT, IpAt(f5, SIP_AT));
    var r := MakeReply(cfg, f, ip);
    assert r == f7[..ARP_FRAME_LEN];
    MacKept(f1, r, 0);
    MacKept(f2, r, 6);
    MacKept(f4, r, THA_AT);
    MacKept(f5, r, SHA_AT);
    assert IpAt(r, SIP_AT) == IpAt(f6, SIP_AT);
  }

  /**
   Two parties: what A asks for and B proxies, A ends up knowing with B's MAC, and nothing
   else of A's cache changes.
   */
  lemma Resolution(a: ArpConfig, b: ArpConfig, ip: u32, ca: Cache, cb: Cache, t1: u64, t2: u64)
    requires IsProxyTarget(b, ip) && ip != 0 && !IsZeroMac(b.mac)
    requires ip in ca ==> !ca[ip].isStatic
    ensures var atB := Handle(b, cb, MakeRequest(a, ip), t1);
            var atA := Handle(a, ca, atB.frame, t2);
            && atB.reply && atB.cache == cb && MacAt(atB.frame, 0) == a.mac
            && !atA.reply && atA.learned == ip
            && atA.cache == ca[ip := Entry(b.mac, t2, false)]
  {
    RequestFields(a, ip);
    ReplyFields(b, MakeRequest(a, ip), ip);
    hide MakeReply, MakeRequest;
  }
}

/** The ARP handler object, working on the gateway's neighbor table. */
module ArpHandlers {
  import opened Base
  import opened Packet
  import opened NeighborTables
  import opened Arp

  class ArpHandler {
    const cfg: ArpConfig
    const neighbors: NeighborTable

    constructor (cfg: ArpConfig, neighbors: NeighborTable)
      ensures this.cfg == cfg && this.neighbors == neighbors
    {
      this.cfg, this.neighbors := cfg, neighbors;
    }

    static method AllZero(mac: Mac) returns (zero: bool)
      ensures zero == IsZeroMac(mac)
    {
      for i := 0 to 6
        invariant forall k :: 0 <= k < i ==> mac[k] == 0
      {
        if mac[i] != 0 { return false; }
      }
      return true;
    }

    method HandleReply(f: Frame, now: u64) returns (learned: u32)
      requires ARP_FRAME_LEN <= |f|
      modifies neighbors
      ensures ArpOut(neighbors.entries, f, false, learned) == Arp.HandleReply(old(neighbors.entries), f, now)
    {
      var ip, mac := IpAt(f, SIP_AT), MacAt(f, SHA_AT);
      var zero := AllZero(mac);
      if ip == 0 || zero { return 0; }
      neighbors.Learn(ip, mac, now);
      return ip;
    }

    method Handle(f: Frame, now: u64) returns (f': Frame, reply: bool, learned: u32)
      modifies neighbors
      ensures ArpOut(neighbors.entries, f', reply, learned) == Arp.Handle(cfg, old(neighbors.entries), f, now)
    {
      hide MakeReply;
      f', reply, learned := f, false, 0;
      if !ArpOk(f) { return; }
      if U16(f, OP_AT) == OP_REQUEST {
        var target := IpAt(f, TIP_AT);
        if IsProxyTarget(cfg, target) {
          f', reply := MakeReply(cfg, f, target), true;
        }
      } else if U16(f, OP_AT) == OP_REPLY {
        learned := HandleReply(f, now);
      }
    }
  }
}
