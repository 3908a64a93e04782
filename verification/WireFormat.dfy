/**
 The frames byte by byte. What is accepted, which tuple it stands for, which checksums pass and which ARP
 frames are answered, with the offsets of Ethernet, section 3.1 of RFC 791, RFC 768 and RFC 826 written out.
 */
module WireFormat {
  import opened Base
  import opened Packet
  import opened PacketProofs
  import opened Sessions
  import opened Neighbors
  import opened Arp
  import opened Teaching
  import GoWriter
  import F = Forward

  // ------------------------------------------------------------- UDP over IPv4

  /** Length of the IPv4 header, options included. */
  function HeaderLen(f: Frame): nat
    requires 42 <= |f|
  {
    f[14] % 16 * 4
  }

  /** An IPv4 header of version 4 with room for a UDP header behind it. */
  predicate Fits(f: Frame) {
    && 42 <= |f| && f[12] == 0x08 && f[13] == 0x00 && f[14] / 16 == 4
    && 20 <= HeaderLen(f) && 14 + HeaderLen(f) + 8 <= |f|
  }

  /** UDP with a sane length, neither a first nor a later fragment (the other two bits are not looked at). */
  predicate Accepted(f: Frame) {
    && Fits(f) && f[20] % 64 == 0 && f[21] == 0 && f[23] == 17
    && var udpLen := f[18 + HeaderLen(f)] as int * 0x100 + f[19 + HeaderLen(f)];
       8 <= udpLen && (14 + HeaderLen(f) + udpLen) % 0x1_0000 <= |f|
  }

  /** Without verification a frame is parsed exactly if it is accepted by its bytes; fragments are not. */
  lemma ParseExact(f: Frame)
    ensures ParseOk(f) <==> Accepted(f)
    ensures Accepted(f) ==>
              Parse(f, false) == Parsed(HeaderLen(f), f[18 + HeaderLen(f)] as int * 0x100 + f[19 + HeaderLen(f)] - 8)
  {
    if 42 <= |f| {
      FragmentBits(f[20], f[21]);
    }
  }

  lemma FragmentBits(a: u8, b: u8)
    ensures var w := a as int * 0x100 + b; (w / 0x2000 % 2 == 0 && w % 0x2000 == 0) <==> a % 64 == 0 && b == 0
  {
    var w := a as int * 0x100 + b;
    var high, low := a / 32, a % 32;
    assert w == high * 0x2000 + (low * 0x100 + b);
    DivModUnique(w, 0x2000, high, low * 0x100 + b);
  }

  /** The tuple of an accepted frame. */
  lemma KeyExact(f: Frame)
    requires Accepted(f)
    ensures HeadersFit(f)
    ensures var n := 14 + HeaderLen(f);
            F.KeyOf(f) == FlowKey(Word(f[26], f[27], f[28], f[29]), Word(f[30], f[31], f[32], f[33]),
                                  f[n] as int * 0x100 + f[n + 1], f[n + 2] as int * 0x100 + f[n + 3], 17)
  {
  }

  // ---------------------------------------------------------------- checksums

  /** Bytes from the IPv4 total length less the header; negative if the length field is too small. */
  function DatagramLen(f: Frame): int
    requires Fits(f)
  {
    f[16] as int * 0x100 + f[17] - HeaderLen(f)
  }

  /** Source, destination, zero, protocol and length: the 12 bytes in front of a UDP datagram in RFC 768. */
  function PseudoHeader(f: Frame): seq<u8>
    requires Fits(f) && 0 <= DatagramLen(f)
  {
    f[26..30] + f[30..34] + [0, f[23]] + [DatagramLen(f) / 0x100, DatagramLen(f) % 0x100]
  }

  /** The datagram, as far as the frame goes. */
  function Datagram(f: Frame): seq<u8>
    requires Fits(f) && 0 <= DatagramLen(f)
  {
    var start := 14 + HeaderLen(f);
    f[start..Min(start + DatagramLen(f), |f|)]
  }

  lemma {:induction false} WordSumEven(a: seq<u8>, b: seq<u8>)
    requires |a| % 2 == 0
    ensures WordSum(a + b) == WordSum(a) + WordSum(b)
  {
    if a == [] {
      assert a + b == b;
    } else {
      assert (a + b)[2..] == a[2..] + b;
      WordSumEven(a[2..], b);
    }
  }

  lemma PairSum(a: u8, b: u8)
    ensures WordSum([a, b]) == a * 0x100 + b
  {
    assert [a, b][2..] == [];
  }

  lemma PseudoHeaderSum(f: Frame)
    requires Fits(f) && 0 <= DatagramLen(f)
    ensures WordSum(PseudoHeader(f)) ==
              f[26] as int * 0x100 + f[27] + (f[28] as int * 0x100 + f[29]) + (f[30] as int * 0x100 + f[31])
              + (f[32] as int * 0x100 + f[33]) + f[23] + DatagramLen(f)
  {
    var n := DatagramLen(f);
    var p1 := [0, f[23]] + [n / 0x100, n % 0x100];
    var p2 := [f[32], f[33]] + p1;
    var p3 := [f[30], f[31]] + p2;
    var p4 := [f[28], f[29]] + p3;
    assert [f[26], f[27]] + p4 == PseudoHeader(f);
    WordSumEven([f[26], f[27]], p4);
    WordSumEven([f[28], f[29]], p3);
    WordSumEven([f[30], f[31]], p2);
    WordSumEven([f[32], f[33]], p1);
    WordSumEven([0, f[23]], [n / 0x100, n % 0x100]);
    hide WordSum;
    PairSum(f[26], f[27]);
    PairSum(f[28], f[29]);
    PairSum(f[30], f[31]);
    PairSum(f[32], f[33]);
    PairSum(0, f[23]);
    PairSum(n / 0x100, n % 0x100);
  }

  /** The UDP checksum runs over the pseudo header of RFC 768 followed by the datagram. */
  lemma UdpSumExact(f: Frame)
    requires Fits(f) && 0 <= DatagramLen(f)
    ensures HeadersFit(f) && L4Len(f) == DatagramLen(f)
    ensures UdpSum(f) == WordSum(PseudoHeader(f) + Datagram(f))
  {
    assert HeadersFit(f) && L4Len(f) == DatagramLen(f);
    assert L4Bytes(f) == Datagram(f);
    hide WordSum, L4Bytes, Datagram;
    PseudoHeaderSum(f);
    WordSumEven(PseudoHeader(f), Datagram(f));
  }

  /** The complement of a sum is the one value that completes it to all ones, of two that are congruent. */
  lemma OnlyComplement(n: nat, field: u16)
    requires 0 < n
    ensures Carry(n + field) == 0xffff <==> field == Complement(Carry(n)) || (Carry(n) == 0xffff && field == 0xffff)
  {
    var c := Complement(Carry(n));
    CarryCongruent(n);
    CarryCongruent(n + field);
    OnlyOnes(Carry(n + field));
    FieldCompletes(n, Carry(n), c);
    hide Carry;
    Congruent(n, c, field);
  }

  lemma Congruent(n: nat, c: u16, field: u16)
    requires (n + c) % 0xffff == 0 && c < 0xffff
    ensures (n + field) % 0xffff == 0 <==> field == c || (c == 0 && field == 0xffff)
  {
    var q := (n + c) / 0xffff;
    assert n + c == q * 0xffff;
    var d := field - c;
    assert n + field == q * 0xffff + d;
    if 0 <= d < 0xffff {
      DivModUnique(n + field, 0xffff, q, d);
    } else if d == 0xffff {
      DivModUnique(n + field, 0xffff, q + 1, 0);
    } else {
      DivModUnique(n + field, 0xffff, q - 1, d + 0xffff);
    }
  }

  /**
   With verification, an accepted frame passes exactly if its header sums to all ones (its checksum field not being
   all ones itself) and its UDP field is zero or completes pseudo header and datagram to all ones.
   */
  lemma VerifyExact(f: Frame)
    requires Accepted(f)
    ensures HeadersFit(f)
    ensures Parse(f, true).Parsed? <==>
              && Carry(WordSum(f[14..14 + HeaderLen(f)])) == 0xffff && !(f[24] == 0xff && f[25] == 0xff)
              && UdpPasses(f)
  {
    ParseExact(f);
    assert HeadersFit(f);
    HeaderPasses(f);
    DatagramPasses(f);
    hide *;
    VerifySplit(f);
  }

  lemma VerifySplit(f: Frame)
    requires ParseOk(f)
    ensures Parse(f, true).Parsed? <==> U16(f, IP_SUM_AT) == IpChecksum(PutU16(f, IP_SUM_AT, 0)) && UdpChecksumOk(f)
  {
    hide IpChecksum, UdpChecksumOk, PutU16;
  }

  lemma HeaderPasses(f: Frame)
    requires Fits(f)
    ensures U16(f, IP_SUM_AT) == IpChecksum(PutU16(f, IP_SUM_AT, 0)) <==>
              Carry(WordSum(f[14..14 + HeaderLen(f)])) == 0xffff && !(f[24] == 0xff && f[25] == 0xff)
  {
    var f0, field := PutU16(f, IP_SUM_AT, 0), U16(f, IP_SUM_AT);
    var h0 := f0[ETH_LEN..UdpAt(f)];
    assert f0[ETH_LEN] == f[ETH_LEN] && h0[0] == f[ETH_LEN];
    HeaderWithField(f, f0, field);
    WordSumPut(h0, 10, field);
    WordSumPositive(h0);
    hide PutU16, WordSum, Carry;
    OnlyComplement(WordSum(h0), field);
    CarryPositive(WordSum(h0));
  }

  lemma CarryPositive(n: nat)
    requires 0 < n
    ensures 0 < Carry(n)
  {
    CarryCongruent(n);
  }

  /**
   The field is absent, or the sum with it is all ones. With a total length below that of the header the
   field is absent or all ones.
   */
  ghost predicate UdpPasses(f: Frame)
    requires Fits(f) && HeadersFit(f)
  {
    var at := 20 + HeaderLen(f);
    var field := f[at] as int * 0x100 + f[at + 1];
    || field == 0
    || (DatagramLen(f) < 0 && field == 0xffff)
    || (0 <= DatagramLen(f) && Carry(OpenSum(f) + field) == 0xffff)
  }

  /** For a whole UDP header the sum with the field is that of pseudo header and datagram as they stand. */
  lemma OpenSumExact(f: Frame)
    requires Fits(f) && 8 <= DatagramLen(f)
    ensures var at := 20 + HeaderLen(f);
            HeadersFit(f) && OpenSum(f) + (f[at] as int * 0x100 + f[at + 1]) == WordSum(PseudoHeader(f) + Datagram(f))
  {
    UdpSumExact(f);
    ZeroedFits(f);
    var f0, at, field := PutU16(f, UdpSumAt(f), 0), UdpSumAt(f), U16(f, UdpSumAt(f));
    PutBack(f, at);
    assert at == UdpSumAt(f0) && at == 20 + HeaderLen(f) && U16(f0, at) == 0;
    hide PutU16, PseudoHeader, Datagram, WordSum, UdpSum, HeadersFit;
    UdpSumWithField(f0, field);
  }

  lemma PutBack(f: Frame, o: nat)
    requires o + 2 <= |f|
    ensures PutU16(PutU16(f, o, 0), o, U16(f, o)) == f
  {
    PutU16Twice(f, o, 0, U16(f, o));
    assert U16Bytes(U16(f, o)) == [f[o], f[o + 1]];
  }

  lemma DatagramPasses(f: Frame)
    requires Accepted(f) && HeadersFit(f)
    ensures UdpChecksumOk(f) <==> UdpPasses(f)
  {
    ZeroedFits(f);
    var f0, field := PutU16(f, UdpSumAt(f), 0), U16(f, UdpSumAt(f));
    if 0 <= L4Len(f) {
      assert f0[PROTO_AT] == f[PROTO_AT] == 17;
      assert 0 < UdpSum(f0);
      hide PutU16, UdpSum, Carry;
      OnlyComplement(UdpSum(f0), field);
      CarryPositive(UdpSum(f0));
    }
  }

  // ---------------------------------------------------------------------- ARP

  /** A request over Ethernet for an IPv4 address. */
  predicate IsArpRequest(f: Frame) {
    42 <= |f| && f[12..22] == [0x08, 0x06, 0, 1, 0x08, 0, 6, 4, 0, 1]
  }

  /** The 42 bytes of the answer: to the asker, from the gateway, for the address that was asked. */
  function Answer(mac: Mac, f: Frame): Frame
    requires IsArpRequest(f)
  {
    f[6..12] + mac + [0x08, 0x06, 0, 1, 0x08, 0, 6, 4, 0, 2] + mac + f[38..42] + f[22..28] + f[28..32]
  }

  /** A request is answered exactly if it asks for the gateway's address or the VIP, and nothing else is. */
  lemma AnsweredIff(cfg: ArpConfig, c: Cache, f: Frame, now: u64)
    ensures var r := Arp.Handle(cfg, c, f, now);
            && (r.reply <==> IsArpRequest(f) && Word(f[38], f[39], f[40], f[41]) in {cfg.gatewayIp, cfg.vipIp})
            && r.frame == (if r.reply then Answer(cfg.mac, f) else f)
            && (r.reply ==> r.cache == c && r.learned == 0)
  {
    RequestIff(f);
    if IsArpRequest(f) {
      assert IpAt(f, TIP_AT) == Word(f[38], f[39], f[40], f[41]);
      AnswerExact(cfg, f);
      hide MakeReply, Answer;
    }
  }

  lemma RequestIff(f: Frame)
    ensures ArpOk(f) && U16(f, OP_AT) == OP_REQUEST <==> IsArpRequest(f)
  {
    if 42 <= |f| {
      var s := f[12..22];
      assert f[12] == s[0] && f[13] == s[1] && f[14] == s[2] && f[15] == s[3] && f[16] == s[4];
      assert f[17] == s[5] && f[18] == s[6] && f[19] == s[7] && f[20] == s[8] && f[21] == s[9];
    }
  }

  lemma AnswerExact(cfg: ArpConfig, f: Frame)
    requires IsArpRequest(f)
    ensures MakeReply(cfg, f, IpAt(f, TIP_AT)) == Answer(cfg.mac, f)
  {
    RequestIff(f);
    var ip := IpAt(f, TIP_AT);
    var r, a := MakeReply(cfg, f, ip), Answer(cfg.mac, f);
    ReplyFields(cfg, f, ip);
    assert |r| == 42;
    hide MakeReply;
    ReplyFixed(r);
    SameOctets(r, 28, f, 38);
    SameOctets(r, 38, f, 28);
    assert r[..6] == f[6..12] && r[6..12] == cfg.mac && r[22..28] == cfg.mac && r[32..38] == f[22..28];
    hide *;
    InPieces(r);
  }

  lemma ReplyFixed(r: Frame)
    requires ArpOk(r) && U16(r, OP_AT) == OP_REPLY
    ensures r[12..22] == [0x08, 0x06, 0, 1, 0x08, 0, 6, 4, 0, 2]
  {
    assert r[12] == 0x08 && r[13] == 0x06 && r[14] == 0 && r[15] == 1;
    assert r[16] == 0x08 && r[17] == 0 && r[20] == 0 && r[21] == 2;
  }

  lemma InPieces(r: Frame)
    requires |r| == 42
    ensures r == r[..6] + r[6..12] + r[12..22] + r[22..28] + r[28..32] + r[32..38] + r[38..42]
  {
  }

  /** The octets of an address are determined by its word. */
  lemma OctetsOfWord(a: u8, b: u8, c: u8, d: u8)
    ensures IpBytes(Word(a, b, c, d)) == [a, b, c, d]
  {
    var w := Word(a, b, c, d);
    DivModUnique(w, 0x100, b + 0x100 * c as int + 0x1_0000 * d as int, a);
    DivModUnique(w / 0x100, 0x100, c + 0x100 * d as int, b);
    DivModUnique(w / 0x100 / 0x100, 0x100, d, c);
  }

  lemma SameOctets(r: Frame, o: nat, f: Frame, p: nat)
    requires o + 4 <= |r| && p + 4 <= |f| && IpAt(r, o) == IpAt(f, p)
    ensures r[o..o + 4] == f[p..p + 4]
  {
    assert IpAt(r, o) == Word(r[o], r[o + 1], r[o + 2], r[o + 3]);
    assert IpAt(f, p) == Word(f[p], f[p + 1], f[p + 2], f[p + 3]);
    OctetsOfWord(r[o], r[o + 1], r[o + 2], r[o + 3]);
    OctetsOfWord(f[p], f[p + 1], f[p + 2], f[p + 3]);
    hide IpBytes, Word, IpAt;
    var x, y := [r[o], r[o + 1], r[o + 2], r[o + 3]], [f[p], f[p + 1], f[p + 2], f[p + 3]];
    assert x == y && r[o..o + 4] == x && f[p..p + 4] == y;
  }

  // ------------------------------------------------------- published addresses

  /** An address that the Go side publishes goes out on the wire with its octets in order, the most significant first. */
  lemma PublishedOnWire(ipBE: u32, f: Frame, o: nat)
    requires o + 4 <= |f|
    ensures var r := PutIp(f, o, GoWriter.Ipv4From(GoWriter.Octets(ipBE)));
            ipBE == r[o] as int * 0x100_0000 + r[o + 1] as int * 0x1_0000 + r[o + 2] as int * 0x100 + r[o + 3]
  {
    var d := GoWriter.Octets(ipBE);
    OctetsBigEndian(ipBE);
    assert GoWriter.Ipv4From(d) == Word(d[0], d[1], d[2], d[3]);
    OctetsOfWord(d[0], d[1], d[2], d[3]);
    hide GoWriter.Octets, Word, IpBytes;
    assert d == [d[0], d[1], d[2], d[3]];
    var r := PutIp(f, o, GoWriter.Ipv4From(d));
    assert r == Put(f, o, d);
  }

  lemma OctetsBigEndian(ipBE: u32)
    ensures var d := GoWriter.Octets(ipBE);
            ipBE == d[0] as int * 0x100_0000 + d[1] as int * 0x1_0000 + d[2] as int * 0x100 + d[3]
  {
    var a := ipBE / 0x100;
    var b := a / 0x100;
    assert ipBE / 0x1_0000 == b && ipBE / 0x100_0000 == b / 0x100;
  }
}
