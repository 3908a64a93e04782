/**
 The shared control block: the words a publication lays down, the writer and reader that the
 C++ side has (src/cp_shm.cpp), and the bytes the Go writer lays down (tools/vgwcp/main.go),
 read through the C struct (src/vgw_cp_shm.h) on a little-endian host.
 */
module CpShm {
  import opened Base
  import opened Upstreams

  const MAX_EP := 64
  const MAGIC: u32 := 0x56475743

  /** Data words in the order they are written: policy, flags, count, then ip, port, pad of each slot. */
  const DATA_WORDS := 195
  const POLICY_WORD := 0
  const COUNT_WORD := 2

  datatype Publication = Publication(policy: Policy, endpoints: seq<Endpoint>)

  function PolicyCode(p: Policy): u8 {
    match p case Mod => 0 case Rr => 1
  }

  /** The list length on 16 bits, capped. */
  function Count(p: Publication): nat {
    var n := |p.endpoints| % 0x1_0000;
    if n > MAX_EP then MAX_EP else n
  }

  function WordAt(p: Publication, k: nat): u32 {
    if k == POLICY_WORD then PolicyCode(p.policy)
    else if k == COUNT_WORD then Count(p)
    else if k < 3 || (k - 3) / 3 >= Count(p) then 0
    else if k % 3 == 0 then p.endpoints[(k - 3) / 3].ip
    else if k % 3 == 1 then p.endpoints[(k - 3) / 3].port
    else 0
  }

  function Encode(p: Publication): (r: seq<u32>)
    ensures |r| == DATA_WORDS && forall k :: 0 <= k < DATA_WORDS ==> r[k] == WordAt(p, k)
  {
    seq(DATA_WORDS, k requires 0 <= k < DATA_WORDS => WordAt(p, k))
  }

  function CountOf(word: u32): nat {
    var n := word % 0x1_0000;
    if n > MAX_EP then MAX_EP else n
  }

  /** What `poll_apply` makes of the data words. */
  function Decode(data: seq<u32>): Publication
    requires |data| == DATA_WORDS
  {
    Publication(if data[POLICY_WORD] == 1 then Rr else Mod,
                seq(CountOf(data[COUNT_WORD]), i requires 0 <= i < CountOf(data[COUNT_WORD]) =>
                  Endpoint(data[3 + 3 * i], data[4 + 3 * i] % 0x1_0000)))
  }

  /** What a reader can get of a publication: at most 64 endpoints. */
  function Effective(p: Publication): Publication {
    p.(endpoints := p.endpoints[..Min(|p.endpoints| % 0x1_0000, 64)])
  }

  /** The words of slot `i`. */
  lemma WordAtSlot(p: Publication, i: nat)
    ensures i < Count(p) ==> WordAt(p, 3 + 3 * i) == p.endpoints[i].ip && WordAt(p, 4 + 3 * i) == p.endpoints[i].port
    ensures i >= Count(p) ==> WordAt(p, 3 + 3 * i) == 0 && WordAt(p, 4 + 3 * i) == 0
    ensures WordAt(p, 5 + 3 * i) == 0
  {
  }

  lemma EncodedHeader(p: Publication)
    ensures Encode(p)[POLICY_WORD] == PolicyCode(p.policy) && Encode(p)[COUNT_WORD] == Count(p)
  {
    hide Count;
  }

  lemma DecodedHeader(data: seq<u32>)
    requires |data| == DATA_WORDS
    ensures Decode(data).policy == (if data[POLICY_WORD] == 1 then Rr else Mod)
    ensures |Decode(data).endpoints| == CountOf(data[COUNT_WORD])
  {
    hide CountOf;
  }

  lemma DecodedSlot(data: seq<u32>, i: nat)
    requires |data| == DATA_WORDS && i < CountOf(data[COUNT_WORD])
    ensures i < |Decode(data).endpoints|
    ensures Decode(data).endpoints[i] == Endpoint(data[3 + 3 * i], data[4 + 3 * i] % 0x1_0000)
  {
  }

  lemma CountFits(p: Publication)
    ensures CountOf(Count(p)) == Count(p) <= MAX_EP && Count(p) <= |p.endpoints|
    ensures Count(p) == Min(|p.endpoints| % 0x1_0000, 64)
  {
  }

  lemma EncodedSlot(p: Publication, i: nat)
    requires i < Count(p)
    ensures i < |p.endpoints| && 4 + 3 * i < DATA_WORDS
    ensures Encode(p)[3 + 3 * i] == p.endpoints[i].ip && Encode(p)[4 + 3 * i] == p.endpoints[i].port
  {
    WordAtSlot(p, i);
    CountFits(p);
    hide WordAt, Count;
  }

  /** The reader gets back what the writer put down. */
  lemma DecodeEncode(p: Publication)
    ensures Decode(Encode(p)) == Effective(p)
  {
    hide Encode, Decode, WordAt, CountOf, Count;
    EncodedHeader(p);
    DecodedHeader(Encode(p));
    CountFits(p);
    var d := Decode(Encode(p));
    forall i | 0 <= i < Count(p)
      ensures d.endpoints[i] == p.endpoints[i]
    {
      EncodedSlot(p, i);
      DecodedSlot(Encode(p), i);
    }
    assert d.endpoints == p.endpoints[..Count(p)];
  }

  function Bump(version: u32): u32 {
    var next := (version + 1) % 0x1_0000_0000;
    if next == 0 then 1 else next
  }
}

/** The block in memory with the C++ writer and reader, one at a time. */
module CpShms {
  import opened Base
  import opened Upstreams
  import opened UpstreamTables
  import opened CpShm

  class Block {
    const data: array<u32>
    var magic: u32
    var version: u32
    var lastApplied: u32

    ghost predicate Valid() {
      data.Length == DATA_WORDS
    }

    /** A segment created without a seed: zeroed, with the magic set. */
    constructor ()
      ensures Valid() && fresh(data)
      ensures version == 0 && lastApplied == 0 && magic == MAGIC
      ensures data[..] == Encode(Publication(Mod, []))
    {
      data := new u32[DATA_WORDS](_ => 0);
      magic, version, lastApplied := MAGIC, 0, 0;
      new;
      assert data[..] == Encode(Publication(Mod, []));
    }

    /** `write_seed_unlocked`: all data words in order, the version last. */
    method WriteSeed(p: Publication, next: u32)
      requires Valid()
      modifies data, this`version
      ensures data[..] == Encode(p) && version == next
    {
      var n := |p.endpoints| % 0x1_0000;
      if n > MAX_EP { n := MAX_EP; }
      data[0] := PolicyCode(p.policy);
      data[1] := 0;
      data[2] := n;
      for i := 0 to n
        invariant forall k :: 0 <= k < 3 + 3 * i ==> data[k] == WordAt(p, k)
      {
        data[3 + 3 * i] := p.endpoints[i].ip;
        data[4 + 3 * i] := p.endpoints[i].port;
        data[5 + 3 * i] := 0;
      }
      for i := n to MAX_EP
        invariant forall k :: 0 <= k < 3 + 3 * i ==> data[k] == WordAt(p, k)
      {
        data[3 + 3 * i], data[4 + 3 * i], data[5 + 3 * i] := 0, 0, 0;
      }
      version := next;
    }

    method Publish(p: Publication)
      requires Valid()
      modifies data, this`version
      ensures data[..] == Encode(p) && version == Bump(old(version))
    {
      WriteSeed(p, Bump(version));
    }

    /** `poll_apply` with no writer in between. */
    method PollApply(table: UpstreamTable) returns (applied: bool)
      requires Valid()
      modifies this`lastApplied, table
      ensures applied <==> magic == MAGIC && version != 0 && version != old(lastApplied)
      ensures lastApplied == (if applied then version else old(lastApplied))
      ensures var d := Decode(data[..]);
              table.State() == if applied then old(table.State()).(policy := d.policy, nodes := d.endpoints)
                               else old(table.State())
    {
      if magic != MAGIC { return false; }
      var ver := version;
      if ver == 0 || ver == lastApplied { return false; }
      var policy, count := data[0], data[2] % 0x1_0000;
      if count > MAX_EP { count := MAX_EP; }
      var eps: seq<Endpoint> := [];
      for i := 0 to count
        invariant |eps| == i
        invariant forall k :: 0 <= k < i ==> eps[k] == Endpoint(data[3 + 3 * k], data[4 + 3 * k] % 0x1_0000)
      {
        eps := eps + [Endpoint(data[3 + 3 * i], data[4 + 3 * i] % 0x1_0000)];
      }
      if version != ver { return false; }
      table.SetPolicy(if policy == 1 then Rr else Mod);
      table.Set(eps);
      lastApplied := ver;
      assert eps == Decode(data[..]).endpoints;
      return true;
    }
  }
}

/** The same block as bytes, and the Go writer that fills them. */
module GoWriter {
  import opened Base
  import opened Upstreams
  import opened CpShm

  const SHM_BYTES := 524
  const DATA_AT := 12

  /** `ipBE`: the address as a big-endian number, as the Go side parses it. */
  datatype GoEndpoint = GoEndpoint(ipBE: u32, port: u16)

  function Le16(b: seq<u8>, o: nat): u16
    requires o + 2 <= |b|
  {
    b[o] + 0x100 * b[o + 1] as int
  }

  function Le32(b: seq<u8>, o: nat): u32
    requires o + 4 <= |b|
  {
    b[o] + 0x100 * b[o + 1] as int + 0x1_0000 * b[o + 2] as int + 0x100_0000 * b[o + 3] as int
  }

  /** Byte `j` of `v` counting from the most significant. */
  function BeByte(v: u32, j: nat): u8
    requires j < 4
  {
    if j == 0 then v / 0x100_0000
    else if j == 1 then v / 0x1_0000 % 0x100
    else if j == 2 then v / 0x100 % 0x100
    else v % 0x100
  }

  /** The 32-bit word a little-endian host loads from the octets of an address (`ipv4_from`). */
  function Ipv4From(o: seq<u8>): u32
    requires |o| == 4
  {
    Le32(o, 0)
  }

  function Octets(ipBE: u32): (r: seq<u8>)
    ensures |r| == 4
  {
    [BeByte(ipBE, 0), BeByte(ipBE, 1), BeByte(ipBE, 2), BeByte(ipBE, 3)]
  }

  /** Byte `j` of endpoint slot `i`. */
  function SlotByte(eps: seq<GoEndpoint>, i: nat, j: nat): u8
    requires j < 8
  {
    if i >= |eps| then 0
    else if j < 4 then BeByte(eps[i].ipBE, j)
    else if j == 4 then eps[i].port % 0x100
    else if j == 5 then eps[i].port / 0x100
    else 0
  }

  /** Everything the Go writer lays down after the version word. */
  ghost predicate LaidOut(b: seq<u8>, policy: u8, eps: seq<GoEndpoint>) {
    && |b| == SHM_BYTES
    && b[8] == policy && b[9] == 0 && Le16(b, 10) == |eps| % 0x1_0000
    && SlotsLaidOut(b, eps, MAX_EP)
  }

  ghost predicate SlotsLaidOut(b: seq<u8>, eps: seq<GoEndpoint>, n: nat)
    requires |b| == SHM_BYTES && n <= MAX_EP
  {
    forall i, j :: 0 <= i < n && 0 <= j < 8 ==> b[DATA_AT + 8 * i + j] == SlotByte(eps, i, j)
  }

  function LeBytes32(v: u32): (r: seq<u8>)
    ensures |r| == 4 && Le32(r, 0) == v
  {
    var a := v / 0x100;
    var b := a / 0x100;
    [v % 0x100, a % 0x100, b % 0x100, b / 0x100]
  }

  method PutLe32(b: array<u8>, o: nat, v: u32)
    requires o + 4 <= b.Length
    modifies b
    ensures Le32(b[..], o) == v
    ensures forall k :: 0 <= k < b.Length && !(o <= k < o + 4) ==> b[k] == old(b[k])
  {
    var w := LeBytes32(v);
    b[o], b[o + 1], b[o + 2], b[o + 3] := w[0], w[1], w[2], w[3];
    assert Le32(b[..], o) == Le32(w, 0);
  }

  /** `publish`: fills the mapped block, the version last. */
  method Publish(b: array<u8>, policy: u8, eps: seq<GoEndpoint>)
    requires b.Length == SHM_BYTES && |eps| <= MAX_EP
    modifies b
    ensures LaidOut(b[..], policy, eps)
    ensures Le32(b[..], 0) == MAGIC && Le32(b[..], 4) == Bump(Le32(old(b[..]), 4))
  {
    hide SlotsLaidOut, Bump;
    var next := Bump(Le32(b[..], 4));
    PutLe32(b, 0, MAGIC);
    Fill(b, policy, eps);
    ghost var filled := b[..];
    PutLe32(b, 4, next);
    SameSlots(filled, b[..], eps, MAX_EP);
    assert Le32(b[..], 0) == Le32(filled, 0);
  }

  lemma SameSlots(a: seq<u8>, b: seq<u8>, eps: seq<GoEndpoint>, n: nat)
    requires |a| == |b| == SHM_BYTES && n <= MAX_EP && SlotsLaidOut(a, eps, n)
    requires forall k :: DATA_AT <= k < DATA_AT + 8 * n ==> b[k] == a[k]
    ensures SlotsLaidOut(b, eps, n)
  {
  }

  method Fill(b: array<u8>, policy: u8, eps: seq<GoEndpoint>)
    requires b.Length == SHM_BYTES && |eps| <= MAX_EP
    modifies b
    ensures LaidOut(b[..], policy, eps)
    ensures forall k :: 0 <= k < 8 ==> b[k] == old(b[k])
  {
    hide SlotsLaidOut;
    b[8], b[9] := policy, 0;
    b[10], b[11] := |eps| % 0x100, |eps| / 0x100;
    assert SlotsLaidOut(b[..], eps, 0) by { NoSlots(b[..], eps); }
    for i := 0 to MAX_EP
      invariant forall k :: 0 <= k < 8 ==> b[k] == old(b[k])
      invariant b[8] == policy && b[9] == 0 && b[10] == |eps| % 0x100 && b[11] == |eps| / 0x100
      invariant SlotsLaidOut(b[..], eps, i)
    {
      PutSlot(b, eps, i);
    }
  }

  lemma NoSlots(b: seq<u8>, eps: seq<GoEndpoint>)
    requires |b| == SHM_BYTES
    ensures SlotsLaidOut(b, eps, 0)
  {
  }

  method PutSlot(b: array<u8>, eps: seq<GoEndpoint>, i: nat)
    requires b.Length == SHM_BYTES && i < MAX_EP && SlotsLaidOut(b[..], eps, i)
    modifies b
    ensures SlotsLaidOut(b[..], eps, i + 1)
    ensures forall k :: 0 <= k < DATA_AT ==> b[k] == old(b[k])
  {
    var off := DATA_AT + 8 * i;
    if i < |eps| {
      var ip, port := eps[i].ipBE, eps[i].port;
      b[off], b[off + 1], b[off + 2], b[off + 3] := BeByte(ip, 0), BeByte(ip, 1), BeByte(ip, 2), BeByte(ip, 3);
      b[off + 4], b[off + 5] := port % 0x100, port / 0x100;
      b[off + 6], b[off + 7] := 0, 0;
      hide BeByte;
    } else {
      for j := 0 to 8
        invariant forall k :: 0 <= k < off ==> b[k] == old(b[k])
        invariant forall k :: off <= k < off + j ==> b[k] == 0
      {
        b[off + j] := 0;
      }
    }
    forall m, j | 0 <= m < i + 1 && 0 <= j < 8
      ensures b[..][DATA_AT + 8 * m + j] == SlotByte(eps, m, j)
    {
      if m < i {
        assert b[DATA_AT + 8 * m + j] == old(b[..])[DATA_AT + 8 * m + j];
      }
    }
  }

  /** Data word `k` of the C struct laid over the bytes. */
  function StructWord(b: seq<u8>, k: nat): u32
    requires |b| == SHM_BYTES && k < DATA_WORDS
  {
    if k == 0 then b[8]
    else if k == 1 then b[9]
    else if k == 2 then Le16(b, 10)
    else
      var at := DATA_AT + 8 * ((k - 3) / 3);
      if k % 3 == 0 then Le32(b, at) else if k % 3 == 1 then Le16(b, at + 4) else Le16(b, at + 6)
  }

  function StructWords(b: seq<u8>): (r: seq<u32>)
    requires |b| == SHM_BYTES
    ensures |r| == DATA_WORDS && forall k :: 0 <= k < DATA_WORDS ==> r[k] == StructWord(b, k)
  {
    seq(DATA_WORDS, k requires 0 <= k < DATA_WORDS => StructWord(b, k))
  }

  /** What the Go side meant, in the C side's terms. */
  function Meant(policy: Policy, eps: seq<GoEndpoint>): Publication {
    Publication(policy, seq(|eps|, i requires 0 <= i < |eps| => Endpoint(Ipv4From(Octets(eps[i].ipBE)), eps[i].port)))
  }

  lemma SlotWords(b: seq<u8>, policy: Policy, eps: seq<GoEndpoint>, i: nat)
    requires |eps| <= MAX_EP && i < MAX_EP && |b| == SHM_BYTES && SlotsLaidOut(b, eps, MAX_EP)
    ensures var p, at := Meant(policy, eps), DATA_AT + 8 * i;
            && Le32(b, at) == WordAt(p, 3 + 3 * i)
            && Le16(b, at + 4) == WordAt(p, 4 + 3 * i)
            && Le16(b, at + 6) == WordAt(p, 5 + 3 * i)
  {
    SlotBytes(b, eps, i);
    WordAtSlot(Meant(policy, eps), i);
    hide SlotsLaidOut, WordAt;
    if i < |eps| {
      IpWord(eps[i].ipBE);
      hide BeByte;
    }
  }

  lemma SlotBytes(b: seq<u8>, eps: seq<GoEndpoint>, i: nat)
    requires i < MAX_EP && |b| == SHM_BYTES && SlotsLaidOut(b, eps, MAX_EP)
    ensures var at := DATA_AT + 8 * i;
            && b[at] == SlotByte(eps, i, 0) && b[at + 1] == SlotByte(eps, i, 1)
            && b[at + 2] == SlotByte(eps, i, 2) && b[at + 3] == SlotByte(eps, i, 3)
            && b[at + 4] == SlotByte(eps, i, 4) && b[at + 5] == SlotByte(eps, i, 5)
            && b[at + 6] == SlotByte(eps, i, 6) && b[at + 7] == SlotByte(eps, i, 7)
  {
    assert b[DATA_AT + 8 * i + 0] == SlotByte(eps, i, 0);
  }

  lemma IpWord(v: u32)
    ensures Ipv4From(Octets(v))
         == BeByte(v, 0) + 0x100 * BeByte(v, 1) as int + 0x1_0000 * BeByte(v, 2) as int + 0x100_0000 * BeByte(v, 3) as int
  {
  }

  lemma GoWord(b: seq<u8>, policy: Policy, eps: seq<GoEndpoint>, k: nat)
    requires |eps| <= MAX_EP && LaidOut(b, PolicyCode(policy), eps) && k < DATA_WORDS
    ensures StructWord(b, k) == WordAt(Meant(policy, eps), k)
  {
    if 3 <= k {
      var i := (k - 3) / 3;
      SlotWords(b, policy, eps, i);
      hide WordAt, SlotsLaidOut;
      assert k == 3 + 3 * i || k == 4 + 3 * i || k == 5 + 3 * i;
    }
  }

  /**
   For every list of at most 64 endpoints the bytes of the Go writer, seen through the C struct,
   are exactly the words the C++ writer would have written, so `poll_apply` reads back the same
   policy and the same endpoints in order.
   */
  lemma GoMatchesC(b: seq<u8>, policy: Policy, eps: seq<GoEndpoint>)
    requires |eps| <= MAX_EP && LaidOut(b, PolicyCode(policy), eps)
    ensures StructWords(b) == Encode(Meant(policy, eps))
    ensures Decode(StructWords(b)) == Meant(policy, eps)
  {
    var p := Meant(policy, eps);
    forall k | 0 <= k < DATA_WORDS
      ensures StructWord(b, k) == WordAt(p, k)
    {
      GoWord(b, policy, eps, k);
    }
    hide WordAt, StructWord, LaidOut, Decode;
    assert StructWords(b) == Encode(p);
    DecodeEncode(p);
    assert p.endpoints[..Count(p)] == p.endpoints;
  }
}
