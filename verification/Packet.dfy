/**
 Ethernet/IPv4/UDP frames as byte sequences: parsing, the Internet checksum and
 the in-place header rewrite used by both NAT directions (src/packet.cpp and the
 rewriting half of src/forward.cpp).

 IPv4 addresses are the raw 32-bit words that a little-endian host loads from the
 header, as in `rte_ipv4_hdr::src_addr`. Checksum words are taken in network order;
 the one's complement sum does not depend on byte order (section 2 of RFC 1071).
 */
module Packet {
  import opened Base

  type Frame = seq<u8>
  type Mac = m: seq<u8> | |m| == 6 witness [0, 0, 0, 0, 0, 0]

  const ETH_LEN := 14
  const MIN_IP_LEN := 20
  const UDP_LEN := 8
  const ETHER_TYPE_IPV4 := 0x0800
  const ETHER_TYPE_ARP := 0x0806
  const PROTO_UDP := 17

  // Header offsets that do not depend on the IPv4 options.
  const ETHER_TYPE_AT := 12
  const TOTAL_LEN_AT := 16
  const FRAGMENT_AT := 20
  const PROTO_AT := 23
  const IP_SUM_AT := 24
  const SRC_AT := 26
  const DST_AT := 30

  // ---------------------------------------------------------------- bytes

  function U16(f: Frame, o: nat): u16
    requires o + 2 <= |f|
  {
    f[o] as int * 0x100 + f[o + 1]
  }

  function IpAt(f: Frame, o: nat): u32
    requires o + 4 <= |f|
  {
    f[o] + 0x100 * f[o + 1] as int + 0x1_0000 * f[o + 2] as int + 0x100_0000 * f[o + 3] as int
  }

  function MacAt(f: Frame, o: nat): Mac
    requires o + 6 <= |f|
  {
    f[o..o + 6]
  }

  /** Overwrites `|b|` bytes of `f` from offset `o`. */
  function Put(f: Frame, o: nat, b: seq<u8>): (r: Frame)
    requires o + |b| <= |f|
    ensures |r| == |f|
    ensures forall i :: 0 <= i < |f| ==> r[i] == if o <= i < o + |b| then b[i - o] else f[i]
  {
    f[..o] + b + f[o + |b|..]
  }

  function U16Bytes(v: u16): seq<u8> {
    [v / 0x100, v % 0x100]
  }

  function IpBytes(ip: u32): (r: seq<u8>)
    ensures |r| == 4 && IpAt(r, 0) == ip
  {
    var a := ip / 0x100;
    var b := a / 0x100;
    [ip % 0x100, a % 0x100, b % 0x100, b / 0x100]
  }

  function PutU16(f: Frame, o: nat, v: u16): (r: Frame)
    requires o + 2 <= |f|
    ensures |r| == |f| && U16(r, o) == v
    ensures forall i :: 0 <= i < |f| && (i < o || o + 2 <= i) ==> r[i] == f[i]
  {
    Put(f, o, U16Bytes(v))
  }

  function PutIp(f: Frame, o: nat, ip: u32): (r: Frame)
    requires o + 4 <= |f|
    ensures |r| == |f| && IpAt(r, o) == ip
    ensures forall i :: 0 <= i < |f| && (i < o || o + 4 <= i) ==> r[i] == f[i]
  {
    var r := Put(f, o, IpBytes(ip));
    assert IpAt(r, o) == IpAt(IpBytes(ip), 0);
    r
  }

  function PutMac(f: Frame, o: nat, mac: Mac): (r: Frame)
    requires o + 6 <= |f|
    ensures |r| == |f| && MacAt(r, o) == mac
    ensures forall i :: 0 <= i < |f| && (i < o || o + 6 <= i) ==> r[i] == f[i]
  {
    Put(f, o, mac)
  }

  // ------------------------------------------------------------- checksums

  /** Sum of the 16-bit words of `b`; an odd last byte is padded with zero. */
  function WordSum(b: seq<u8>): nat {
    if |b| == 0 then 0
    else if |b| == 1 then b[0] * 0x100
    else b[0] * 0x100 + b[1] + WordSum(b[2..])
  }

  /** End-around carry, repeated until the value fits 16 bits. */
  function Carry(n: nat): u16 {
    if n < 0x1_0000 then n else Carry(n / 0x1_0000 + n % 0x1_0000)
  }

  function Complement(w: u16): u16 {
    0xffff - w
  }

  function Ihl(f: Frame): nat
    requires ETH_LEN < |f|
  {
    f[ETH_LEN] % 16 * 4
  }

  ghost predicate HeadersFit(f: Frame) {
    && ETH_LEN + MIN_IP_LEN + UDP_LEN <= |f|
    && MIN_IP_LEN <= Ihl(f)
    && ETH_LEN + Ihl(f) + UDP_LEN <= |f|
  }

  function UdpAt(f: Frame): nat
    requires ETH_LEN < |f|
  {
    ETH_LEN + Ihl(f)
  }

  /** `rte_ipv4_cksum` over the whole header, options included. */
  function IpChecksum(f: Frame): u16
    requires HeadersFit(f)
  {
    Complement(Carry(WordSum(f[ETH_LEN..UdpAt(f)])))
  }

  /** Length of the layer-4 part according to the IPv4 total length. */
  function L4Len(f: Frame): int
    requires HeadersFit(f)
  {
    U16(f, TOTAL_LEN_AT) - Ihl(f)
  }

  function L4Bytes(f: Frame): seq<u8>
    requires HeadersFit(f) && 0 <= L4Len(f)
  {
    var end := UdpAt(f) + L4Len(f);
    f[UdpAt(f)..if end <= |f| then end else |f|]
  }

  /** Word sum of the IPv4 pseudo header followed by the layer-4 bytes. */
  function UdpSum(f: Frame): nat
    requires HeadersFit(f) && 0 <= L4Len(f)
  {
    U16(f, SRC_AT) + U16(f, SRC_AT + 2) + U16(f, DST_AT) + U16(f, DST_AT + 2)
    + f[PROTO_AT] + L4Len(f) + WordSum(L4Bytes(f))
  }

  /** `rte_ipv4_udptcp_cksum`: a computed zero is sent as all ones (RFC 768). */
  function UdpChecksum(f: Frame): u16
    requires HeadersFit(f)
  {
    if L4Len(f) < 0 then 0xffff
    else
      var c := Complement(Carry(UdpSum(f)));
      if c == 0 then 0xffff else c
  }

  function UdpSumAt(f: Frame): nat
    requires ETH_LEN < |f|
  {
    UdpAt(f) + 6
  }

  predicate UdpChecksumOk(f: Frame)
    requires HeadersFit(f)
  {
    var saved := U16(f, UdpSumAt(f));
    if saved == 0 then true
    else
      var computed := UdpChecksum(PutU16(f, UdpSumAt(f), 0));
      saved == computed || (saved == 0xffff && computed == 0) || (saved == 0 && computed == 0xffff)
  }

  function RefreshIpChecksum(f: Frame): (r: Frame)
    requires HeadersFit(f)
    ensures |r| == |f|
  {
    var f0 := PutU16(f, IP_SUM_AT, 0);
    PutU16(f0, IP_SUM_AT, IpChecksum(f0))
  }

  function RefreshUdpChecksum(f: Frame): (r: Frame)
    requires HeadersFit(f)
    ensures |r| == |f|
  {
    var f0 := PutU16(f, UdpSumAt(f), 0);
    var c := UdpChecksum(f0);
    PutU16(f0, UdpSumAt(f), if c == 0 then 0xffff else c)
  }

  // --------------------------------------------------------------- parsing

  datatype ParseStatus = TooShort | NotIpv4 | NotUdp | Fragmented | BadIpChecksum | BadUdpChecksum
  datatype ParseResult = Parsed(ihl: nat, payloadLen: nat) | Failed(status: ParseStatus)

  function EtherType(f: Frame): u16 {
    if |f| < ETH_LEN then 0 else U16(f, ETHER_TYPE_AT)
  }

  /** `parse_udp_ipv4`. The last length test is done on a 16-bit sum. */
  function Parse(f: Frame, verify: bool): ParseResult {
    if |f| < ETH_LEN + MIN_IP_LEN + UDP_LEN then Failed(TooShort)
    else if U16(f, ETHER_TYPE_AT) != ETHER_TYPE_IPV4 then Failed(NotIpv4)
    else
      var ihl := Ihl(f);
      if f[ETH_LEN] / 16 != 4 || ihl < MIN_IP_LEN then Failed(NotIpv4)
      else if |f| < ETH_LEN + ihl + UDP_LEN then Failed(TooShort)
      else if U16(f, FRAGMENT_AT) / 0x2000 % 2 != 0 || U16(f, FRAGMENT_AT) % 0x2000 != 0 then
        Failed(Fragmented)
      else if f[PROTO_AT] != PROTO_UDP then Failed(NotUdp)
      else
        var udpLen := U16(f, UdpAt(f) + 4);
        if udpLen < UDP_LEN then Failed(TooShort)
        else if |f| < (ETH_LEN + ihl + udpLen) % 0x1_0000 then Failed(TooShort)
        else if verify && U16(f, IP_SUM_AT) != IpChecksum(PutU16(f, IP_SUM_AT, 0)) then
          Failed(BadIpChecksum)
        else if verify && !UdpChecksumOk(f) then Failed(BadUdpChecksum)
        else Parsed(ihl, udpLen - UDP_LEN)
  }

  predicate ParseOk(f: Frame)
    ensures ParseOk(f) ==> HeadersFit(f)
  {
    Parse(f, false).Parsed?
  }

  function SrcPort(f: Frame): u16
    requires HeadersFit(f)
  {
    U16(f, UdpAt(f))
  }

  function DstPort(f: Frame): u16
    requires HeadersFit(f)
  {
    U16(f, UdpAt(f) + 2)
  }

  // ------------------------------------------------------------ NAT rewrite

  /** `finish_l4_checksum`. */
  function FinishL4(f: Frame, recompute: bool): (r: Frame)
    requires HeadersFit(f)
    ensures |r| == |f|
  {
    var f1 := RefreshIpChecksum(f);
    if recompute then RefreshUdpChecksum(f1) else PutU16(f1, UdpSumAt(f), 0)
  }

  /** New addresses and ports, checksums not yet touched. */
  function Retarget(f: Frame, src: u32, dst: u32, sport: u16, dport: u16): (r: Frame)
    requires HeadersFit(f)
    ensures |r| == |f| && HeadersFit(r)
  {
    var f1 := PutIp(PutIp(f, SRC_AT, src), DST_AT, dst);
    assert f1[ETH_LEN] == f[ETH_LEN];
    var f2 := PutU16(PutU16(f1, UdpAt(f), sport), UdpAt(f) + 2, dport);
    assert f2[ETH_LEN] == f[ETH_LEN];
    f2
  }

  /** Shared body of `apply_forward_nat` and `apply_reverse_nat`. */
  function Rewrite(f: Frame, src: u32, dst: u32, sport: u16, dport: u16, recompute: bool): (r: Frame)
    requires HeadersFit(f)
    ensures |r| == |f|
  {
    FinishL4(Retarget(f, src, dst, sport, dport), recompute)
  }

  /** `set_l2`. */
  function SetL2(f: Frame, src: Mac, dst: Mac): (r: Frame)
    requires ETH_LEN <= |f|
    ensures |r| == |f|
  {
    PutMac(PutMac(f, 6, src), 0, dst)
  }
}
