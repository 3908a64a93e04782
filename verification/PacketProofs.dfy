/**
 What the header rewrite guarantees: it changes nothing but addresses, ports and
 the two checksums, its result parses again with verification on, and a receiver
 that sums the words independently gets all ones.
 */
module PacketProofs {
  import opened Base
  import opened Packet

  // ------------------------------------------------ one's complement facts

  lemma {:induction false} CarryCongruent(n: nat)
    ensures Carry(n) % 0xffff == n % 0xffff
    ensures Carry(n) == 0 <==> n == 0
    decreases n
  {
    if 0x1_0000 <= n {
      CarryCongruent(n / 0x1_0000 + n % 0x1_0000);
      FoldCongruent(n / 0x1_0000, n % 0x1_0000);
    }
  }

  lemma FoldCongruent(q: nat, r: nat)
    ensures (q + r) % 0xffff == (q * 0x1_0000 + r) % 0xffff
  {
    assert q * 0x1_0000 + r == q * 0xffff + (q + r);
  }

  /** Adding the complement of a folded sum makes the total fold to all ones. */
  lemma ComplementSumsToOnes(n: nat, field: u16)
    requires 0 < n
    requires field == Complement(Carry(n)) || (Carry(n) == 0xffff && field == 0xffff)
    ensures Carry(n + field) == 0xffff
  {
    PartSumsToOnes(n, field, field);
  }

  lemma MultipleOfOnes(n: nat, c: u16)
    requires c % 0xffff == n % 0xffff
    ensures (n + 0xffff - c) % 0xffff == 0
    ensures c == 0xffff ==> (n + 0xffff) % 0xffff == 0
  {
    assert n == n / 0xffff * 0xffff + n % 0xffff;
    assert c == c / 0xffff * 0xffff + c % 0xffff;
    assert n + 0xffff - c == (n / 0xffff - c / 0xffff + 1) * 0xffff;
  }

  /** Writing a 16-bit field at an even offset changes the word sum by the difference. */
  lemma {:induction false} WordSumPut(b: seq<u8>, o: nat, v: u16)
    requires o % 2 == 0 && o + 2 <= |b|
    ensures WordSum(PutU16(b, o, v)) == WordSum(b) - U16(b, o) + v
    decreases |b|
  {
    var r := PutU16(b, o, v);
    if o == 0 {
      assert r[2..] == b[2..];
    } else {
      assert r[2..] == PutU16(b[2..], o - 2, v);
      WordSumPut(b[2..], o - 2, v);
    }
  }

  // ----------------------------------------------------------- what changes

  /** Offsets that a NAT rewrite may change. */
  ghost predicate NatField(f: Frame, i: nat)
    requires ETH_LEN < |f|
  {
    || IP_SUM_AT <= i < DST_AT + 4
    || UdpAt(f) <= i < UdpAt(f) + 4
    || UdpSumAt(f) <= i < UdpSumAt(f) + 2
  }

  lemma FinishL4Effect(f: Frame, recompute: bool)
    requires HeadersFit(f)
    ensures var r := FinishL4(f, recompute);
            && HeadersFit(r) && UdpAt(r) == UdpAt(f)
            && forall i | 0 <= i < |f| && !(IP_SUM_AT <= i < IP_SUM_AT + 2)
                          && !(UdpSumAt(f) <= i < UdpSumAt(f) + 2) :: r[i] == f[i]
  {
  }

  lemma RetargetEffect(f: Frame, src: u32, dst: u32, sport: u16, dport: u16)
    requires HeadersFit(f)
    ensures var r := Retarget(f, src, dst, sport, dport);
            && UdpAt(r) == UdpAt(f)
            && IpAt(r, SRC_AT) == src && IpAt(r, DST_AT) == dst
            && SrcPort(r) == sport && DstPort(r) == dport
            && forall i | 0 <= i < |f| && !(SRC_AT <= i < DST_AT + 4) && !(UdpAt(f) <= i < UdpAt(f) + 4) :: r[i] == f[i]
  {
    var a := PutIp(f, SRC_AT, src);
    var b := PutIp(a, DST_AT, dst);
    var c := PutU16(b, UdpAt(f), sport);
    var r := PutU16(c, UdpAt(f) + 2, dport);
    hide PutIp, PutU16;
    assert r[ETH_LEN] == f[ETH_LEN];
    assert IpAt(r, SRC_AT) == IpAt(a, SRC_AT);
    assert IpAt(r, DST_AT) == IpAt(b, DST_AT);
    assert U16(r, UdpAt(f)) == U16(c, UdpAt(f));
  }

  lemma RewriteEffect(f: Frame, src: u32, dst: u32, sport: u16, dport: u16, recompute: bool)
    requires HeadersFit(f)
    ensures var r := Rewrite(f, src, dst, sport, dport, recompute);
            && HeadersFit(r) && UdpAt(r) == UdpAt(f)
            && IpAt(r, SRC_AT) == src && IpAt(r, DST_AT) == dst
            && SrcPort(r) == sport && DstPort(r) == dport
            && forall i :: 0 <= i < |f| && !NatField(f, i) ==> r[i] == f[i]
  {
    hide Retarget, FinishL4;
    RetargetEffect(f, src, dst, sport, dport);
    var t := Retarget(f, src, dst, sport, dport);
    FinishL4Effect(t, recompute);
    var r := FinishL4(t, recompute);
    assert IpAt(r, SRC_AT) == IpAt(t, SRC_AT) && IpAt(r, DST_AT) == IpAt(t, DST_AT);
    assert U16(r, UdpAt(f)) == U16(t, UdpAt(f)) && U16(r, UdpAt(f) + 2) == U16(t, UdpAt(f) + 2);
  }

  // ------------------------------------------------------- re-parsing output

  lemma PutU16Twice(f: Frame, o: nat, a: u16, b: u16)
    requires o + 2 <= |f|
    ensures PutU16(PutU16(f, o, a), o, b) == PutU16(f, o, b)
  {
  }

  lemma RefreshedIpVerifies(f: Frame)
    requires HeadersFit(f)
    ensures var r := RefreshIpChecksum(f);
            HeadersFit(r) && U16(r, IP_SUM_AT) == IpChecksum(PutU16(r, IP_SUM_AT, 0))
  {
    var f0 := PutU16(f, IP_SUM_AT, 0);
    PutU16Twice(f0, IP_SUM_AT, IpChecksum(f0), 0);
    assert PutU16(f0, IP_SUM_AT, 0) == f0;
  }

  lemma RefreshedUdpVerifies(f: Frame)
    requires HeadersFit(f)
    ensures var r := RefreshUdpChecksum(f);
            HeadersFit(r) && UdpChecksumOk(r) && U16(r, UdpSumAt(r)) != 0
  {
    hide UdpChecksum;
    var f0 := PutU16(f, UdpSumAt(f), 0);
    var r := RefreshUdpChecksum(f);
    PutU16Twice(f0, UdpSumAt(f), U16(r, UdpSumAt(f)), 0);
    assert PutU16(f0, UdpSumAt(f), 0) == f0;
  }

  /** The UDP checksum field lies outside the IPv4 header. */
  lemma IpChecksumIgnoresUdp(f: Frame, v: u16)
    requires HeadersFit(f)
    ensures var r := PutU16(f, UdpSumAt(f), v);
            HeadersFit(r) && IpChecksum(PutU16(r, IP_SUM_AT, 0)) == IpChecksum(PutU16(f, IP_SUM_AT, 0))
  {
    var r := PutU16(f, UdpSumAt(f), v);
    var a, b := PutU16(r, IP_SUM_AT, 0), PutU16(f, IP_SUM_AT, 0);
    assert a[ETH_LEN..UdpAt(a)] == b[ETH_LEN..UdpAt(b)];
  }

  lemma FinishedVerifies(f: Frame, recompute: bool)
    requires HeadersFit(f)
    ensures var r := FinishL4(f, recompute);
            && HeadersFit(r) && UdpChecksumOk(r)
            && U16(r, IP_SUM_AT) == IpChecksum(PutU16(r, IP_SUM_AT, 0))
            && (U16(r, UdpSumAt(r)) == 0 <==> !recompute)
  {
    var f1 := RefreshIpChecksum(f);
    RefreshedIpVerifies(f);
    hide RefreshIpChecksum, IpChecksum, UdpChecksum;
    if recompute {
      RefreshedUdpVerifies(f1);
      RefreshedIsPut(f1);
      hide UdpChecksumOk, RefreshUdpChecksum;
      IpChecksumIgnoresUdp(f1, U16(RefreshUdpChecksum(f1), UdpSumAt(f1)));
      IpSumKept(f1, U16(RefreshUdpChecksum(f1), UdpSumAt(f1)));
    } else {
      IpChecksumIgnoresUdp(f1, 0);
      IpSumKept(f1, 0);
    }
    hide PutU16;
  }

  lemma IpSumKept(f: Frame, v: u16)
    requires HeadersFit(f)
    ensures var r := PutU16(f, UdpSumAt(f), v); U16(r, IP_SUM_AT) == U16(f, IP_SUM_AT) && UdpSumAt(r) == UdpSumAt(f)
  {
  }

  /** Refreshing writes one field. */
  lemma RefreshedIsPut(f: Frame)
    requires HeadersFit(f)
    ensures UdpSumAt(f) + 2 <= |f|
    ensures var r := RefreshUdpChecksum(f); r == PutU16(f, UdpSumAt(f), U16(r, UdpSumAt(f)))
  {
    hide UdpChecksum;
    var f0 := PutU16(f, UdpSumAt(f), 0);
    var c := UdpChecksum(f0);
    PutU16Twice(f, UdpSumAt(f), 0, if c == 0 then 0xffff else c);
  }

  /** Parsing with verification, given that both checksums verify. */
  lemma ParseVerified(f: Frame, r: Frame, verify: bool)
    requires ParseOk(f)
    requires |r| == |f| && forall i :: 0 <= i < |f| && !NatField(f, i) ==> r[i] == f[i]
    requires HeadersFit(r) && UdpChecksumOk(r)
    requires U16(r, IP_SUM_AT) == IpChecksum(PutU16(r, IP_SUM_AT, 0))
    ensures Parse(r, verify) == Parse(f, false)
  {
    SameLayout(f, r);
    hide NatField, PutU16, IpChecksum, UdpChecksumOk, U16;
  }

  /** What the parser looks at, apart from the checksums, is not among the fields that change. */
  lemma SameLayout(f: Frame, r: Frame)
    requires HeadersFit(f) && |r| == |f| && forall i :: 0 <= i < |f| && !NatField(f, i) ==> r[i] == f[i]
    ensures r[ETH_LEN] == f[ETH_LEN] && r[PROTO_AT] == f[PROTO_AT] && Ihl(r) == Ihl(f)
    ensures U16(r, ETHER_TYPE_AT) == U16(f, ETHER_TYPE_AT) && U16(r, FRAGMENT_AT) == U16(f, FRAGMENT_AT)
    ensures U16(r, UdpAt(f) + 4) == U16(f, UdpAt(f) + 4)
  {
    assert !NatField(f, ETH_LEN) && !NatField(f, PROTO_AT);
    assert !NatField(f, ETHER_TYPE_AT) && !NatField(f, ETHER_TYPE_AT + 1);
    assert !NatField(f, FRAGMENT_AT) && !NatField(f, FRAGMENT_AT + 1);
    assert !NatField(f, UdpAt(f) + 4) && !NatField(f, UdpAt(f) + 5);
    hide NatField;
  }

  /** Every rewritten frame parses again, checksums verified, with the same layout. */
  lemma RewriteParses(f: Frame, src: u32, dst: u32, sport: u16, dport: u16, recompute: bool, verify: bool)
    requires ParseOk(f)
    ensures Parse(Rewrite(f, src, dst, sport, dport, recompute), verify) == Parse(f, false)
  {
    hide Retarget, FinishL4, NatField, Parse, IpChecksum, UdpChecksumOk, PutU16;
    RewriteEffect(f, src, dst, sport, dport, recompute);
    FinishedVerifies(Retarget(f, src, dst, sport, dport), recompute);
    ParseVerified(f, Rewrite(f, src, dst, sport, dport, recompute), verify);
  }

  // --------------------------------------------------- the receiver's own sum

  /** Section 3.1 of RFC 791: the finished header sums to all ones. */
  lemma FinishedHeaderSums(f: Frame, recompute: bool)
    requires HeadersFit(f)
    ensures var r := FinishL4(f, recompute);
            HeadersFit(r) && Carry(WordSum(r[ETH_LEN..UdpAt(r)])) == 0xffff
  {
    FinishL4Effect(f, recompute);
    FinishedVerifies(f, recompute);
    var r := FinishL4(f, recompute);
    hide FinishL4, UdpChecksumOk;
    HeaderSums(r);
  }

  /** A header whose checksum verifies sums to all ones. */
  lemma HeaderSums(r: Frame)
    requires HeadersFit(r) && U16(r, IP_SUM_AT) == IpChecksum(PutU16(r, IP_SUM_AT, 0))
    ensures Carry(WordSum(r[ETH_LEN..UdpAt(r)])) == 0xffff
  {
    var f0 := PutU16(r, IP_SUM_AT, 0);
    assert f0[ETH_LEN] == r[ETH_LEN];
    var h0, h, field := f0[ETH_LEN..UdpAt(r)], r[ETH_LEN..UdpAt(r)], U16(r, IP_SUM_AT);
    assert field == Complement(Carry(WordSum(h0)));
    assert h0[0] == r[ETH_LEN] != 0;
    HeaderWithField(r, f0, field);
    hide PutU16, Carry;
    WordSumPut(h0, 10, field);
    assert U16(h0, 10) == 0;
    WordSumPositive(h0);
    hide WordSum;
    ComplementSumsToOnes(WordSum(h0), field);
  }

  lemma HeaderWithField(r: Frame, f0: Frame, field: u16)
    requires HeadersFit(r) && f0 == PutU16(r, IP_SUM_AT, 0) && field == U16(r, IP_SUM_AT)
    ensures r[ETH_LEN..UdpAt(r)] == PutU16(f0[ETH_LEN..UdpAt(r)], 10, field)
    ensures U16(f0[ETH_LEN..UdpAt(r)], 10) == 0
  {
    var h0, h := f0[ETH_LEN..UdpAt(r)], r[ETH_LEN..UdpAt(r)];
    assert h0[10] == f0[IP_SUM_AT] == 0 && h0[11] == f0[IP_SUM_AT + 1] == 0;
    assert h[10] == r[IP_SUM_AT] && h[11] == r[IP_SUM_AT + 1];
  }

  lemma WordSumPositive(b: seq<u8>)
    requires 2 <= |b| && b[0] != 0
    ensures 0 < WordSum(b)
  {
  }

  /** The sum a UDP checksum is computed from: pseudo header and datagram, with the field itself zero. */
  function OpenSum(f: Frame): nat
    requires HeadersFit(f) && 0 <= L4Len(f)
  {
    ZeroedFits(f);
    UdpSum(PutU16(f, UdpSumAt(f), 0))
  }

  lemma ZeroedFits(f: Frame)
    requires HeadersFit(f)
    ensures var f0 := PutU16(f, UdpSumAt(f), 0); HeadersFit(f0) && UdpAt(f0) == UdpAt(f) && L4Len(f0) == L4Len(f)
  {
    var f0 := PutU16(f, UdpSumAt(f), 0);
    assert f0[ETH_LEN] == f[ETH_LEN];
    assert f0[TOTAL_LEN_AT] == f[TOTAL_LEN_AT] && f0[TOTAL_LEN_AT + 1] == f[TOTAL_LEN_AT + 1];
  }

  /** Frames that agree in all that the UDP checksum is computed from. */
  ghost predicate SameSummed(a: Frame, b: Frame)
    requires ETH_LEN < |a|
  {
    && |a| == |b|
    && forall i | ETH_LEN <= i < |a| && !(IP_SUM_AT <= i < IP_SUM_AT + 2)
                  && !(UdpSumAt(a) <= i < UdpSumAt(a) + 2) :: a[i] == b[i]
  }

  lemma OpenSumSame(a: Frame, b: Frame)
    requires HeadersFit(a) && 0 <= L4Len(a) && SameSummed(a, b)
    ensures HeadersFit(b) && L4Len(b) == L4Len(a) && OpenSum(b) == OpenSum(a)
  {
    assert b[ETH_LEN] == a[ETH_LEN];
    assert b[TOTAL_LEN_AT] == a[TOTAL_LEN_AT] && b[TOTAL_LEN_AT + 1] == a[TOTAL_LEN_AT + 1];
    ZeroedFits(a);
    ZeroedFits(b);
    var x, y := PutU16(a, UdpSumAt(a), 0), PutU16(b, UdpSumAt(b), 0);
    ZeroedSame(a, b);
    hide PutU16, WordSum, SameSummed;
    assert L4Bytes(x) == L4Bytes(y);
    hide L4Bytes;
  }

  lemma ZeroedSame(a: Frame, b: Frame)
    requires HeadersFit(a) && SameSummed(a, b) && HeadersFit(b) && UdpAt(b) == UdpAt(a)
    ensures var x, y := PutU16(a, UdpSumAt(a), 0), PutU16(b, UdpSumAt(b), 0);
            forall i :: ETH_LEN <= i < |a| && !(IP_SUM_AT <= i < IP_SUM_AT + 2) ==> x[i] == y[i]
  {
    var x, y, at := PutU16(a, UdpSumAt(a), 0), PutU16(b, UdpSumAt(b), 0), UdpSumAt(a);
    assert x[at] == y[at] && x[at + 1] == y[at + 1];
  }

  /**
   With `n` the layer-4 length that the IPv4 total length announces and `c` the folded sum before the
   checksum is written: the announced part takes in the whole checksum field; or the part of the field
   that it leaves out happens not to matter.
   */
  predicate FieldCounts(n: int, c: u16) {
    || UDP_LEN <= n
    || (n == 7 && c != 0xffff && Complement(c) % 0x100 == 0)
    || (n < 7 && c == 0xffff)
  }

  /** How much of the checksum field at offset 6 a layer-4 part of length `n` takes in. */
  function PartOf(field: u16, n: int): u16 {
    if UDP_LEN <= n then field else if n == 7 then field - field % 0x100 else 0
  }

  /**
   RFC 768: with recomputation on, pseudo header and datagram sum to all ones, if and only if the
   total length lets the checksum field count, which is decided before the checksum is written.
   `parse_udp_ipv4` does not look at the total length.
   */
  lemma FinishedDatagramSums(f: Frame)
    requires HeadersFit(f) && 0 <= L4Len(f) && f[PROTO_AT] == PROTO_UDP
    ensures var r := FinishL4(f, true);
            && HeadersFit(r) && L4Len(r) == L4Len(f) && OpenSum(r) == OpenSum(f)
            && (Carry(UdpSum(r)) == 0xffff <==> FieldCounts(L4Len(f), Carry(OpenSum(f))))
  {
    FinishL4Effect(f, true);
    var f1, r := RefreshIpChecksum(f), FinishL4(f, true);
    assert SameSummed(f, r);
    assert SameSummed(f, f1);
    OpenSumSame(f, r);
    OpenSumSame(f, f1);
    assert 0 < UdpSum(PutU16(f1, UdpSumAt(f1), 0)) by { DatagramPositive(f, f1); }
    hide RefreshIpChecksum, RefreshUdpChecksum, UdpSum, Carry, FieldCounts, SameSummed;
    RefreshedDatagramSums(f1);
    hide PutU16, L4Len, HeadersFit, U16;
  }

  lemma DatagramPositive(f: Frame, f1: Frame)
    requires HeadersFit(f) && f[PROTO_AT] == PROTO_UDP && SameSummed(f, f1) && HeadersFit(f1) && 0 <= L4Len(f1)
    ensures HeadersFit(PutU16(f1, UdpSumAt(f1), 0)) && 0 <= L4Len(PutU16(f1, UdpSumAt(f1), 0))
    ensures 0 < UdpSum(PutU16(f1, UdpSumAt(f1), 0))
  {
    ZeroedFits(f1);
    var f0 := PutU16(f1, UdpSumAt(f1), 0);
    assert f0[PROTO_AT] == f1[PROTO_AT] == f[PROTO_AT];
    hide PutU16, WordSum, L4Bytes, SameSummed, L4Len;
  }

  lemma RefreshedDatagramSums(f1: Frame)
    requires HeadersFit(f1) && 0 <= L4Len(f1) && 0 < OpenSum(f1)
    ensures var r := RefreshUdpChecksum(f1);
            && HeadersFit(r) && 0 <= L4Len(r)
            && (Carry(UdpSum(r)) == 0xffff <==> FieldCounts(L4Len(f1), Carry(OpenSum(f1))))
  {
    var f0 := PutU16(f1, UdpSumAt(f1), 0);
    ZeroedFits(f1);
    assert U16(f0, UdpSumAt(f0)) == 0;
    assert UdpSumAt(f0) == UdpSumAt(f1);
    hide PutU16, L4Len, HeadersFit, UdpSum, UdpChecksum, Carry, U16, FieldCounts;
    DatagramSums(f0);
  }

  /** Writing the computed checksum over a zero field completes the sum, as far as the field counts. */
  lemma DatagramSums(f0: Frame)
    requires HeadersFit(f0) && 0 <= L4Len(f0)
    requires U16(f0, UdpSumAt(f0)) == 0 && 0 < UdpSum(f0)
    ensures var c := UdpChecksum(f0);
            var r := PutU16(f0, UdpSumAt(f0), if c == 0 then 0xffff else c);
            && HeadersFit(r) && 0 <= L4Len(r)
            && (Carry(UdpSum(r)) == 0xffff <==> FieldCounts(L4Len(f0), Carry(UdpSum(f0))))
  {
    var c := UdpChecksum(f0);
    var field := if c == 0 then 0xffff else c;
    UdpSumWithField(f0, field);
    var s := Carry(UdpSum(f0));
    CarryCongruent(UdpSum(f0));
    assert field == if s == 0xffff then 0xffff else Complement(s);
    hide PutU16, UdpSum, L4Len, HeadersFit, U16, UdpChecksum, Carry;
    PartSumsToOnes(UdpSum(f0), field, PartOf(field, L4Len(f0)));
    MissingPart(field, L4Len(f0));
    FieldDecided(s, L4Len(f0));
    hide PartOf, FieldCounts, Complement;
  }

  /** The condition, in terms of the sum and in terms of the field written. */
  lemma FieldDecided(c: u16, n: int)
    requires c != 0
    ensures var field := if c == 0xffff then 0xffff else Complement(c);
            FieldCounts(n, c) <==> UDP_LEN <= n || (n == 7 && field % 0x100 == 0) || (n < 7 && field == 0xffff)
  {
  }

  lemma MissingPart(field: u16, n: int)
    requires field != 0
    ensures PartOf(field, n) <= field
    ensures (field - PartOf(field, n)) % 0xffff == 0 <==>
              UDP_LEN <= n || (n == 7 && field % 0x100 == 0) || (n < 7 && field == 0xffff)
  {
  }

  /** Adding only part of the complement gives all ones exactly if the missing part is a multiple. */
  lemma PartSumsToOnes(n: nat, field: u16, part: u16)
    requires 0 < n && part <= field
    requires field == Complement(Carry(n)) || (Carry(n) == 0xffff && field == 0xffff)
    ensures Carry(n + part) == 0xffff <==> (field - part) % 0xffff == 0
  {
    CarryCongruent(n);
    CarryCongruent(n + part);
    FieldCompletes(n, Carry(n), field);
    OnlyOnes(Carry(n + part));
    hide Carry;
    Remainders(n + part, field - part);
  }

  lemma FieldCompletes(n: nat, c: u16, field: u16)
    requires c % 0xffff == n % 0xffff && (field == 0xffff - c || (c == 0xffff && field == 0xffff))
    ensures (n + field) % 0xffff == 0
  {
    MultipleOfOnes(n, c);
  }

  lemma OnlyOnes(c: u16)
    requires c != 0
    ensures c % 0xffff == 0 <==> c == 0xffff
  {
  }

  lemma Remainders(x: nat, y: nat)
    requires (x + y) % 0xffff == 0
    ensures x % 0xffff == 0 <==> y % 0xffff == 0
  {
    assert x + y == (x + y) / 0xffff * 0xffff;
    assert x == x / 0xffff * 0xffff + x % 0xffff;
    assert y == y / 0xffff * 0xffff + y % 0xffff;
  }

  lemma UdpSumWithField(f0: Frame, field: u16)
    requires HeadersFit(f0) && 0 <= L4Len(f0)
    requires U16(f0, UdpSumAt(f0)) == 0
    ensures var r := PutU16(f0, UdpSumAt(f0), field);
            && HeadersFit(r) && L4Len(r) == L4Len(f0)
            && UdpSum(r) == UdpSum(f0) + PartOf(field, L4Len(f0))
  {
    var r := PutU16(f0, UdpSumAt(f0), field);
    assert forall i :: 0 <= i < UdpSumAt(f0) ==> r[i] == f0[i];
    assert HeadersFit(r) && L4Len(r) == L4Len(f0) && UdpAt(r) == UdpAt(f0);
    var b, c := L4Bytes(f0), L4Bytes(r);
    assert |c| == |b| && (|b| < 8 ==> |b| == L4Len(f0)) && (|b| >= 8 ==> L4Len(f0) >= 8);
    FieldInBytes(f0, field);
    hide PutU16, L4Bytes;
    WordSumField(b, c, field);
    hide WordSum;
  }

  /** `c` is `b` with `field` written over zero bytes at offset 6, as far as `b` goes. */
  ghost predicate FieldWritten(b: seq<u8>, c: seq<u8>, field: u16) {
    && |b| == |c|
    && (forall i :: 0 <= i < |b| && i != 6 && i != 7 ==> c[i] == b[i])
    && (6 < |b| ==> b[6] == 0 && c[6] == field / 0x100)
    && (7 < |b| ==> b[7] == 0 && c[7] == field % 0x100)
  }

  lemma FieldInBytes(f0: Frame, field: u16)
    requires HeadersFit(f0) && 0 <= L4Len(f0) && U16(f0, UdpSumAt(f0)) == 0
    requires var r := PutU16(f0, UdpSumAt(f0), field);
             HeadersFit(r) && UdpAt(r) == UdpAt(f0) && L4Len(r) == L4Len(f0)
    ensures FieldWritten(L4Bytes(f0), L4Bytes(PutU16(f0, UdpSumAt(f0), field)), field)
  {
    var r, at, u := PutU16(f0, UdpSumAt(f0), field), UdpSumAt(f0), UdpAt(f0);
    assert r[at] == field / 0x100 && r[at + 1] == field % 0x100;
    assert f0[at] == 0 && f0[at + 1] == 0;
    assert forall i :: 0 <= i < |f0| && i != at && i != at + 1 ==> r[i] == f0[i];
    hide PutU16, U16;
    var b, c := L4Bytes(f0), L4Bytes(r);
    assert |b| == |c| && (forall i :: 0 <= i < |b| ==> b[i] == f0[u + i] && c[i] == r[u + i]);
    hide L4Bytes;
  }

  lemma WordSumField(b: seq<u8>, c: seq<u8>, field: u16)
    requires FieldWritten(b, c, field)
    ensures WordSum(c) == WordSum(b) + PartOf(field, |b|)
  {
    if 8 <= |b| {
      assert c == PutU16(b, 6, field);
      WordSumPut(b, 6, field);
    } else if |b| == 7 {
      assert c == b[..6] + [field / 0x100] && b == b[..6] + [0];
      WordSumOdd(b[..6], 0);
      WordSumOdd(b[..6], field / 0x100);
    } else {
      assert c == b;
    }
  }

  /** An odd last byte counts as the high byte of a word. */
  lemma {:induction false} WordSumOdd(b: seq<u8>, x: u8)
    requires |b| % 2 == 0
    ensures WordSum(b + [x]) == WordSum(b) + x * 0x100
  {
    if b == [] {
      assert b + [x] == [x];
    } else {
      WordSumOdd(b[2..], x);
      assert (b + [x])[2..] == b[2..] + [x];
    }
  }

  // ------------------------------------------------------------ view bounds

  /**
   The 16-bit length test: for an accepted frame the payload lies inside the frame
   exactly when the headers and the UDP length together fit 16 bits.
   */
  lemma PayloadInBounds(f: Frame, verify: bool)
    requires |f| <= 0xffff
    requires Parse(f, verify).Parsed?
    ensures var v := Parse(f, verify);
            UdpAt(f) + UDP_LEN + v.payloadLen <= |f| <==> UdpAt(f) + UDP_LEN + v.payloadLen <= 0xffff
  {
  }

  // -------------------------------------------------------------------- L2

  /** Frames that differ at most in the two MAC addresses. */
  predicate SameBody(a: Frame, b: Frame) {
    |a| == |b| && ETHER_TYPE_AT <= |a| && forall i :: ETHER_TYPE_AT <= i < |a| ==> a[i] == b[i]
  }

  lemma SetL2Effect(f: Frame, src: Mac, dst: Mac)
    requires ETH_LEN <= |f|
    ensures var r := SetL2(f, src, dst);
            && r == dst + src + f[12..]
            && Parse(r, false) == Parse(f, false)
  {
    SetL2Bytes(f, src, dst);
    SetL2Parses(f, src, dst);
  }

  lemma SetL2Bytes(f: Frame, src: Mac, dst: Mac)
    requires ETH_LEN <= |f|
    ensures SetL2(f, src, dst) == dst + src + f[12..]
  {
    var r := SetL2(f, src, dst);
    assert MacAt(r, 0) == dst && MacAt(r, 6) == src;
    assert r == r[0..6] + r[6..12] + r[12..];
    assert r[12..] == f[12..];
  }

  lemma SetL2Parses(f: Frame, src: Mac, dst: Mac)
    requires ETH_LEN <= |f|
    ensures Parse(SetL2(f, src, dst), false) == Parse(f, false)
  {
    var r := SetL2(f, src, dst);
    assert SameBody(f, r);
    hide SetL2;
    ParseIgnoresMacs(f, r);
  }

  lemma ParseIgnoresMacs(f: Frame, r: Frame)
    requires SameBody(f, r)
    ensures Parse(r, false) == Parse(f, false)
  {
    assert forall o: nat :: ETHER_TYPE_AT <= o && o + 2 <= |f| ==> U16(r, o) == U16(f, o);
    hide IpChecksum, UdpChecksumOk, U16;
  }
}
