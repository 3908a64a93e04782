/**
 Bidirectional UDP session table with its SNAT port allocator (src/session.cpp).

 `Table` is the value of a table; `SessionTables.SessionTable` is the table updated in place,
 each method proved against the function of the same name on `Table`. A `Session*` is a
 `Handle` into `heap`; `delete` removes the handle, so a dangling pointer would be a
 handle in a map or in the list that is no longer in `heap`.
 */
module Sessions {
  import opened Base

  type Handle = nat

  datatype FlowKey = FlowKey(srcIp: u32, dstIp: u32, srcPort: u16, dstPort: u16, proto: u8)

  datatype Session = Session(
    forwardKey: FlowKey,
    reverseKey: FlowKey,
    clientIp: u32,
    clientPort: u16,
    vipIp: u32,
    vipPort: u16,
    upstreamIp: u32,
    upstreamPort: u16,
    snatPort: u16,
    lastActive: u64)

  datatype Table = Table(
    gatewayIp: u32,
    idleTimeout: u64,
    begin: u16,
    end: u16,
    next: u16,
    heap: map<Handle, Session>,
    order: seq<Handle>,
    forward: map<FlowKey, Handle>,
    reverse: map<FlowKey, Handle>,
    free: seq<u16>,
    inUse: set<u16>,
    nextHandle: Handle)

  /** Constructor; the end of an empty range is `begin + 1` on 16 bits. */
  function Fresh(gatewayIp: u32, idleTimeout: u64, begin: u16, end: u16): Table {
    Table(gatewayIp, idleTimeout, begin, if end <= begin then (begin + 1) % 0x1_0000 else end, begin,
          map[], [], map[], map[], [], {}, 0)
  }

  function LookupForward(t: Table, key: FlowKey): Option<Handle> {
    if key in t.forward && t.forward[key] in t.heap then Some(t.forward[key]) else None
  }

  function LookupReverse(t: Table, key: FlowKey): Option<Handle> {
    if key in t.reverse && t.reverse[key] in t.heap then Some(t.reverse[key]) else None
  }

  function Touch(t: Table, h: Handle, now: u64): Table {
    if h in t.heap then t.(heap := t.heap[h := t.heap[h].(lastActive := now)]) else t
  }

  // --------------------------------------------------------- port allocator

  function Advance(next: u16, begin: u16, end: u16): u16 {
    var n := (next + 1) % 0x1_0000;
    if n >= end then begin else n
  }

  /** Number of probes: `end - begin` converted to uint32_t. */
  function ProbeLimit(begin: u16, end: u16): nat {
    if begin <= end then end - begin else end - begin + 0x1_0000_0000
  }

  /** The cursor scan: the final cursor and the port found, if any. */
  function Scan(inUse: set<u16>, next: u16, begin: u16, end: u16, tries: nat): (u16, Option<u16>)
    decreases tries
  {
    if tries == 0 then (next, None)
    else if next !in inUse then (Advance(next, begin, end), Some(next))
    else Scan(inUse, Advance(next, begin, end), begin, end, tries - 1)
  }

  /** `alloc_snat_port`: 0 stands for "none". */
  function Alloc(t: Table): (Table, u16) {
    if t.free != [] then
      var p := t.free[|t.free| - 1];
      (t.(free := t.free[..|t.free| - 1], inUse := t.inUse + {p}), p)
    else
      var (next, found) := Scan(t.inUse, t.next, t.begin, t.end, ProbeLimit(t.begin, t.end));
      match found
      case None => (t.(next := next), 0)
      case Some(p) => (t.(next := next, inUse := t.inUse + {p}), p)
  }

  function FreePort(t: Table, port: u16): Table {
    if port == 0 || port !in t.inUse then t
    else t.(inUse := t.inUse - {port}, free := t.free + [port])
  }

  // --------------------------------------------------------- create, expire

  function NewSession(gatewayIp: u32, key: FlowKey, ip: u32, port: u16, snat: u16, now: u64): Session {
    Session(key, FlowKey(ip, gatewayIp, port, snat, key.proto),
            key.srcIp, key.srcPort, key.dstIp, key.dstPort, ip, port, snat, now)
  }

  function Create(t: Table, key: FlowKey, ip: u32, port: u16, now: u64): (Table, Option<Handle>) {
    var (t1, snat) := Alloc(t);
    if snat == 0 then (t1, None)
    else
      var s := NewSession(t.gatewayIp, key, ip, port, snat, now);
      var h := t.nextHandle;
      (t1.(heap := t1.heap[h := s], order := t1.order + [h],
           forward := t1.forward[s.forwardKey := h], reverse := t1.reverse[s.reverseKey := h],
           nextHandle := h + 1),
       Some(h))
  }

  function RemoveFirst(s: seq<Handle>, h: Handle): seq<Handle> {
    if s == [] then [] else if s[0] == h then s[1..] else [s[0]] + RemoveFirst(s[1..], h)
  }

  /** `erase_session`. */
  function Erase(t: Table, h: Handle): Table {
    if h !in t.heap then t
    else
      var s := t.heap[h];
      var t1 := FreePort(t, s.snatPort);
      t1.(forward := t.forward - {s.forwardKey}, reverse := t.reverse - {s.reverseKey},
          order := RemoveFirst(t.order, h), heap := t.heap - {h})
  }

  predicate Idle(t: Table, h: Handle, now: u64) {
    h in t.heap && Age(now, t.heap[h].lastActive) >= t.idleTimeout
  }

  /** The members of `hs` that are idle at `now`, in order. */
  function IdleIn(t: Table, hs: seq<Handle>, now: u64): seq<Handle> {
    if hs == [] then []
    else
      var k := |hs| - 1;
      IdleIn(t, hs[..k], now) + if Idle(t, hs[k], now) then [hs[k]] else []
  }

  /** The members of `hs` that survive at `now`, in order. */
  function AliveIn(t: Table, hs: seq<Handle>, now: u64): seq<Handle> {
    if hs == [] then []
    else
      var k := |hs| - 1;
      AliveIn(t, hs[..k], now) + if Idle(t, hs[k], now) then [] else [hs[k]]
  }

  function EraseAll(t: Table, hs: seq<Handle>): Table {
    if hs == [] then t else Erase(EraseAll(t, hs[..|hs| - 1]), hs[|hs| - 1])
  }

  /** `expire`: erases every idle session, front to back. */
  function Expire(t: Table, now: u64): Table {
    EraseAll(t, IdleIn(t, t.order, now))
  }

  // -------------------------------------------------------------- invariant

  predicate RangeOk(t: Table) {
    1 <= t.begin < t.end
  }

  predicate InRange(t: Table, p: u16) {
    t.begin <= p < t.end
  }

  predicate NeverIssued(t: Table, p: u16) {
    InRange(t, p) && p !in t.inUse && p !in t.free
  }

  /**
   The range is split three ways: ports in use, ports on the free stack, and ports never
   issued, which are exactly those at or above the cursor until the cursor has wrapped.
   */
  ghost predicate PortsInv(t: Table) {
    && RangeOk(t) && InRange(t, t.next)
    && NoDup(t.free)
    && (forall p :: p in t.free ==> InRange(t, p) && p !in t.inUse)
    && (forall p :: p in t.inUse ==> InRange(t, p))
    && (|| (forall p: u16 :: NeverIssued(t, p) <==> t.next <= p < t.end)
        || (t.next == t.begin && forall p: u16 :: !NeverIssued(t, p)))
  }

  /** A live session: its fields follow from its keys, and both maps lead back to it. */
  ghost predicate SessionOk(t: Table, h: Handle, s: Session) {
    && h < t.nextHandle
    && s == NewSession(t.gatewayIp, s.forwardKey, s.upstreamIp, s.upstreamPort, s.snatPort, s.lastActive)
    && s.forwardKey in t.forward && t.forward[s.forwardKey] == h
    && s.reverseKey in t.reverse && t.reverse[s.reverseKey] == h
    && s.snatPort in t.inUse
  }

  ghost predicate ListInv(t: Table) {
    NoDup(t.order) && forall h :: h in t.order <==> h in t.heap
  }

  ghost predicate HeapInv(t: Table) {
    forall h :: h in t.heap ==> SessionOk(t, h, t.heap[h])
  }

  ghost predicate KeysInv(t: Table) {
    && (forall k :: k in t.forward ==> t.forward[k] in t.heap && t.heap[t.forward[k]].forwardKey == k)
    && (forall k :: k in t.reverse ==> t.reverse[k] in t.heap && t.heap[t.reverse[k]].reverseKey == k)
  }

  ghost predicate PortTaken(t: Table, p: u16) {
    exists h :: h in t.heap && t.heap[h].snatPort == p
  }

  ghost predicate OnePortEach(t: Table) {
    && (forall g, h :: g in t.heap && h in t.heap && t.heap[g].snatPort == t.heap[h].snatPort ==> g == h)
    && (forall p :: p in t.inUse ==> PortTaken(t, p))
  }

  /** List, forward map, reverse map and in-use ports name the same live sessions, one to one. */
  ghost predicate MapsInv(t: Table) {
    ListInv(t) && HeapInv(t) && KeysInv(t) && OnePortEach(t)
  }

  ghost predicate Inv(t: Table) {
    PortsInv(t) && MapsInv(t)
  }

  // ------------------------------------------------------------ erase lemmas

  lemma {:induction false} RemoveFirstAt(s: seq<Handle>, i: nat)
    requires NoDup(s) && i < |s|
    ensures RemoveFirst(s, s[i]) == Without(s, i)
  {
    if i > 0 {
      var rest := s[1..];
      assert s[0] != s[i] && rest[i - 1] == s[i];
      RemoveFirstAt(rest, i - 1);
      assert Without(s, i) == [s[0]] + Without(rest, i - 1);
    }
  }

  lemma RemoveFirstGap(s: seq<Handle>, left: seq<Handle>, h: Handle, right: seq<Handle>)
    requires NoDup(s) && s == left + ([h] + right)
    ensures RemoveFirst(s, h) == left + right
  {
    assert s[|left|] == h;
    RemoveFirstAt(s, |left|);
    assert Without(s, |left|) == left + right;
  }

  lemma FreePortKeepsPorts(t: Table, p: u16)
    requires PortsInv(t)
    ensures PortsInv(FreePort(t, p))
  {
    var r := FreePort(t, p);
    forall q: u16
      ensures NeverIssued(r, q) <==> NeverIssued(t, q)
    {
    }
  }

  /** PortsInv only looks at the allocator's own fields. */
  lemma SamePorts(t: Table, r: Table)
    requires PortsInv(t)
    requires r.begin == t.begin && r.end == t.end && r.next == t.next
    requires r.free == t.free && r.inUse == t.inUse
    ensures PortsInv(r)
  {
    assert forall q: u16 :: NeverIssued(r, q) == NeverIssued(t, q);
  }

  lemma EraseKeepsList(t: Table, h: Handle)
    requires ListInv(t) && h in t.heap
    ensures ListInv(Erase(t, h))
  {
    RemoveFirstMembers(t.order, h);
  }

  lemma RemoveFirstMembers(s: seq<Handle>, h: Handle)
    requires NoDup(s) && h in s
    ensures NoDup(RemoveFirst(s, h))
    ensures forall g :: g in RemoveFirst(s, h) <==> g in s && g != h
  {
    var i :| 0 <= i < |s| && s[i] == h;
    RemoveFirstAt(s, i);
    WithoutMembers(s, i);
  }

  lemma EraseKeepsHeap(t: Table, h: Handle)
    requires HeapInv(t) && OnePortEach(t) && h in t.heap
    ensures HeapInv(Erase(t, h))
  {
    var r := Erase(t, h);
    forall g | g in r.heap
      ensures SessionOk(r, g, r.heap[g])
    {
      assert SessionOk(t, g, t.heap[g]) && SessionOk(t, h, t.heap[h]);
    }
  }

  lemma EraseKeepsPorts(t: Table, h: Handle)
    requires HeapInv(t) && OnePortEach(t) && PortsInv(t) && h in t.heap
    ensures OnePortEach(Erase(t, h))
  {
    var r := Erase(t, h);
    assert SessionOk(t, h, t.heap[h]);
    forall p | p in r.inUse
      ensures PortTaken(r, p)
    {
      var g :| g in t.heap && t.heap[g].snatPort == p;
      assert g in r.heap && r.heap[g].snatPort == p;
    }
  }

  lemma EraseKeepsInv(t: Table, h: Handle)
    requires Inv(t)
    ensures Inv(Erase(t, h))
  {
    if h in t.heap {
      FreePortKeepsPorts(t, t.heap[h].snatPort);
      SamePorts(FreePort(t, t.heap[h].snatPort), Erase(t, h));
      EraseKeepsList(t, h);
      EraseKeepsHeap(t, h);
      EraseKeepsPorts(t, h);
    }
  }

  lemma {:induction false} IdleInMembers(t: Table, hs: seq<Handle>, now: u64)
    ensures forall h :: h in IdleIn(t, hs, now) <==> h in hs && Idle(t, h, now)
    ensures NoDup(hs) ==> NoDup(IdleIn(t, hs, now))
  {
    if hs != [] {
      var k := |hs| - 1;
      IdleInMembers(t, hs[..k], now);
      assert hs == hs[..k] + [hs[k]];
    }
  }

  lemma Snoc(t: Table, hs: seq<Handle>, h: Handle, now: u64)
    ensures IdleIn(t, hs + [h], now) == if Idle(t, h, now) then IdleIn(t, hs, now) + [h] else IdleIn(t, hs, now)
    ensures AliveIn(t, hs + [h], now) == if Idle(t, h, now) then AliveIn(t, hs, now) else AliveIn(t, hs, now) + [h]
    ensures EraseAll(t, hs + [h]) == Erase(EraseAll(t, hs), h)
    ensures h in t.heap ==> PortsOf(t, hs + [h]) == PortsOf(t, hs) + [t.heap[h].snatPort]
  {
    assert (hs + [h])[..|hs|] == hs;
  }

  /** The two effects of one erase that expiry counts on. */
  lemma EraseEffect(t: Table, h: Handle)
    requires Inv(t) && h in t.heap
    ensures Inv(Erase(t, h))
    ensures Erase(t, h).heap == t.heap - {h}
    ensures Erase(t, h).free == t.free + [t.heap[h].snatPort]
    ensures NoDup(t.order) && Erase(t, h).order == RemoveFirst(t.order, h)
    ensures h in t.order
  {
    assert SessionOk(t, h, t.heap[h]);
    EraseKeepsInv(t, h);
  }

  /** Erasing distinct live sessions removes exactly those and stacks their ports in order. */
  lemma {:induction false} EraseAllEffect(t: Table, hs: seq<Handle>)
    requires Inv(t) && NoDup(hs) && forall h :: h in hs ==> h in t.heap
    ensures var r := EraseAll(t, hs);
            && Inv(r)
            && (forall h :: h in r.heap <==> h in t.heap && h !in hs)
            && (forall h :: h in r.heap ==> r.heap[h] == t.heap[h])
            && r.free == t.free + PortsOf(t, hs)
  {
    hide Inv, Erase;
    if hs == [] {
      assert PortsOf(t, hs) == [];
    } else {
      var k := |hs| - 1;
      var h, init := hs[k], hs[..k];
      assert hs == init + [h] && h !in init;
      EraseAllEffect(t, init);
      EraseEffect(EraseAll(t, init), h);
      assert t.free + PortsOf(t, init) + [t.heap[h].snatPort] == t.free + (PortsOf(t, init) + [t.heap[h].snatPort]);
    }
  }

  /** The list once the loop has passed `k` sessions of the original list. */
  ghost predicate ExpiredTo(t: Table, k: nat, now: u64, r: Table)
    requires k <= |t.order|
  {
    && Inv(r)
    && r == EraseAll(t, IdleIn(t, t.order[..k], now))
    && r.order == AliveIn(t, t.order[..k], now) + t.order[k..]
  }

  lemma ExpiredStart(t: Table, now: u64)
    requires Inv(t)
    ensures IdleIn(t, t.order[..0], now) == [] && AliveIn(t, t.order[..0], now) == []
    ensures ExpiredTo(t, 0, now, t)
  {
    hide Inv, Erase;
    assert t.order[..0] == [];
  }

  /** One round of the loop: what it sees at its position and what it leaves. */
  lemma ExpireRound(t: Table, k: nat, now: u64, r: Table)
    requires Inv(t) && k < |t.order| && ExpiredTo(t, k, now, r)
    ensures var h, i := t.order[k], |AliveIn(t, t.order[..k], now)|;
            && i < |r.order| && r.order[i] == h && h in t.heap && h in r.heap && r.heap[h] == t.heap[h]
            && ExpiredTo(t, k + 1, now, if Idle(t, h, now) then Erase(r, h) else r)
  {
    hide Inv, Erase, IdleIn, AliveIn, PortsOf, Idle, EraseAll, NoDup, RemoveFirst;
    var h, before, rest := t.order[k], t.order[..k], t.order[k + 1..];
    var alive, dead := AliveIn(t, before, now), IdleIn(t, before, now);
    assert t.order[..k + 1] == before + [h];
    assert t.order[k..] == [h] + rest;
    LiveAt(t, k, now);
    Snoc(t, before, h, now);
    if Idle(t, h, now) {
      Snoc(t, dead, h, now);
      EraseEffect(r, h);
      RemoveFirstGap(r.order, alive, h, rest);
    } else {
      assert r.order == (alive + [h]) + rest;
    }
  }

  /** A listed session is untouched until the loop reaches it. */
  lemma LiveAt(t: Table, k: nat, now: u64)
    requires Inv(t) && k < |t.order|
    ensures var r := EraseAll(t, IdleIn(t, t.order[..k], now));
            t.order[k] in t.heap && t.order[k] in r.heap && r.heap[t.order[k]] == t.heap[t.order[k]]
  {
    assert ListInv(t);
    hide Inv, EraseAll, IdleIn, PortsOf;
    IdleInMembers(t, t.order[..k], now);
    EraseAllEffect(t, IdleIn(t, t.order[..k], now));
  }

  /** The loop has passed `k` sessions of the original list, erased `removed` of them and is at `i`. */
  ghost predicate AtRound(t: Table, k: nat, now: u64, r: Table, i: nat, removed: nat) {
    && Inv(t) && k <= |t.order| && ExpiredTo(t, k, now, r)
    && i == |AliveIn(t, t.order[..k], now)| && removed == |IdleIn(t, t.order[..k], now)|
  }

  lemma RoundStart(t: Table, now: u64)
    requires Inv(t)
    ensures AtRound(t, 0, now, t, 0, 0)
  {
    hide Inv;
    ExpiredStart(t, now);
  }

  /** What the loop sees, and what it leaves behind. */
  lemma Round(t: Table, k: nat, now: u64, r: Table, i: nat, removed: nat)
    requires AtRound(t, k, now, r, i, removed) && i < |r.order|
    ensures k < |t.order| && r.order[i] in r.heap && r.idleTimeout == t.idleTimeout
    ensures var h := r.order[i];
            if Age(now, r.heap[h].lastActive) >= r.idleTimeout
            then AtRound(t, k + 1, now, Erase(r, h), i, removed + 1)
            else AtRound(t, k + 1, now, r, i + 1, removed)
  {
    hide Inv, Erase, IdleIn, AliveIn, EraseAll, Idle;
    assert k < |t.order|;
    ExpireRound(t, k, now, r);
    SameTimeout(t, IdleIn(t, t.order[..k], now));
    hide ExpiredTo;
    RoundCounts(t, k, now);
    IdleTest(t, t.order[k], now);
  }

  lemma {:induction false} SameTimeout(t: Table, hs: seq<Handle>)
    ensures EraseAll(t, hs).idleTimeout == t.idleTimeout
  {
    if hs != [] {
      SameTimeout(t, hs[..|hs| - 1]);
    }
  }

  lemma RoundEnd(t: Table, k: nat, now: u64, r: Table, i: nat, removed: nat)
    requires AtRound(t, k, now, r, i, removed) && i >= |r.order|
    ensures r == Expire(t, now) && removed == |IdleIn(t, t.order, now)| && Inv(r)
  {
    hide Inv, EraseAll, IdleIn, AliveIn;
    assert k == |t.order|;
    assert t.order[..k] == t.order;
  }

  lemma IdleTest(t: Table, h: Handle, now: u64)
    requires h in t.heap
    ensures Idle(t, h, now) <==> Age(now, t.heap[h].lastActive) >= t.idleTimeout
  {
  }

  lemma RoundCounts(t: Table, k: nat, now: u64)
    requires k < |t.order|
    ensures var gone := Idle(t, t.order[k], now);
            && |AliveIn(t, t.order[..k + 1], now)| == |AliveIn(t, t.order[..k], now)| + (if gone then 0 else 1)
            && |IdleIn(t, t.order[..k + 1], now)| == |IdleIn(t, t.order[..k], now)| + (if gone then 1 else 0)
  {
    assert t.order[..k + 1] == t.order[..k] + [t.order[k]];
    Snoc(t, t.order[..k], t.order[k], now);
  }

  lemma {:induction false} ExpirePrefix(t: Table, k: nat, now: u64)
    requires Inv(t) && k <= |t.order|
    ensures ExpiredTo(t, k, now, EraseAll(t, IdleIn(t, t.order[..k], now)))
    decreases k
  {
    if k == 0 {
      ExpiredStart(t, now);
    } else {
      hide Inv, Erase, IdleIn, AliveIn, EraseAll, Idle;
      ExpirePrefix(t, k - 1, now);
      ExpireRound(t, k - 1, now, EraseAll(t, IdleIn(t, t.order[..k - 1], now)));
    }
  }

  /**
   `expire` keeps exactly the sessions idle for less than the timeout, in their original
   order, and pushes each removed session's port on the free stack once.
   */
  lemma ExpireExact(t: Table, now: u64)
    requires Inv(t)
    ensures var r := Expire(t, now);
            && Inv(r)
            && r.order == AliveIn(t, t.order, now)
            && (forall h :: h in r.heap <==> h in t.heap && !Idle(t, h, now))
            && (forall h :: h in r.heap ==> r.heap[h] == t.heap[h])
            && r.free == t.free + PortsOf(t, IdleIn(t, t.order, now))
            && |t.order| == |r.order| + |IdleIn(t, t.order, now)|
  {
    assert ListInv(t);
    hide Inv, Erase, EraseAll, AliveIn, IdleIn, PortsOf;
    assert t.order[..|t.order|] == t.order;
    ExpirePrefix(t, |t.order|, now);
    IdleInMembers(t, t.order, now);
    EraseAllEffect(t, IdleIn(t, t.order, now));
    SplitLength(t, t.order, now);
  }

  lemma {:induction false} SplitLength(t: Table, hs: seq<Handle>, now: u64)
    ensures |hs| == |AliveIn(t, hs, now)| + |IdleIn(t, hs, now)|
  {
    if hs != [] {
      SplitLength(t, hs[..|hs| - 1], now);
    }
  }

  function PortsOf(t: Table, hs: seq<Handle>): seq<u16> {
    if hs == [] then []
    else
      var k := |hs| - 1;
      PortsOf(t, hs[..k]) + if hs[k] in t.heap then [t.heap[hs[k]].snatPort] else []
  }
}

/** The table as the program keeps it: fields updated in place, a bitmap of 65536 ports. */
module SessionTables {
  import opened Base
  import opened Sessions

  class SessionTable {
    const gatewayIp: u32
    const idleTimeout: u64
    const begin: u16
    const end: u16
    const portInUse: array<bool>
    var next: u16
    var heap: map<Handle, Session>
    var order: seq<Handle>
    var forward: map<FlowKey, Handle>
    var reverse: map<FlowKey, Handle>
    var free: seq<u16>
    var nextHandle: Handle

    ghost predicate Valid() {
      portInUse.Length == 0x1_0000
    }

    ghost function InUse(): set<u16>
      requires Valid()
      reads portInUse
    {
      set p: u16 | portInUse[p]
    }

    ghost function State(): Table
      requires Valid()
      reads this, portInUse
    {
      Table(gatewayIp, idleTimeout, begin, end, next, heap, order, forward, reverse, free,
            InUse(), nextHandle)
    }

    constructor (gatewayIp: u32, idleTimeout: u64, begin: u16, end: u16)
      ensures Valid() && fresh(portInUse)
      ensures State() == Fresh(gatewayIp, idleTimeout, begin, end)
      ensures Inv(State()) <==> 1 <= begin < 0xffff
    {
      this.gatewayIp, this.idleTimeout, this.begin := gatewayIp, idleTimeout, begin;
      this.end := if end <= begin then (begin + 1) % 0x1_0000 else end;
      portInUse := new bool[0x1_0000](_ => false);
      next, heap, order, forward, reverse, free, nextHandle := begin, map[], [], map[], map[], [], 0;
    }

    method AllocSnatPort() returns (p: u16)
      requires Valid()
      modifies this, portInUse
      ensures (State(), p) == Alloc(old(State()))
    {
      if free != [] {
        p := free[|free| - 1];
        free := free[..|free| - 1];
        portInUse[p] := true;
        assert InUse() == old(InUse()) + {p};
        return;
      }
      ghost var start := State();
      var tries := ProbeLimit(begin, end);
      while tries > 0
        invariant State() == start.(next := next)
        invariant Scan(start.inUse, next, begin, end, tries)
               == Scan(start.inUse, start.next, begin, end, ProbeLimit(begin, end))
      {
        var q := next;
        next := Advance(next, begin, end);
        if !portInUse[q] {
          portInUse[q] := true;
          assert InUse() == start.inUse + {q};
          return q;
        }
        tries := tries - 1;
      }
      return 0;
    }

    method FreeSnatPort(port: u16)
      requires Valid()
      modifies this, portInUse
      ensures State() == FreePort(old(State()), port)
    {
      if port == 0 { return; }
      if portInUse[port] {
        portInUse[port] := false;
        free := free + [port];
        assert InUse() == old(InUse()) - {port};
      }
    }

    method Create(key: FlowKey, ip: u32, port: u16, now: u64) returns (r: Option<Handle>)
      requires Valid()
      modifies this, portInUse
      ensures (State(), r) == Sessions.Create(old(State()), key, ip, port, now)
    {
      var snat := AllocSnatPort();
      if snat == 0 { return None; }
      var s := NewSession(gatewayIp, key, ip, port, snat, now);
      var h := nextHandle;
      nextHandle := h + 1;
      heap := heap[h := s];
      order := order + [h];
      forward := forward[s.forwardKey := h];
      reverse := reverse[s.reverseKey := h];
      return Some(h);
    }

    method Touch(h: Handle, now: u64)
      requires Valid()
      modifies this`heap
      ensures State() == Sessions.Touch(old(State()), h, now)
    {
      if h in heap {
        heap := heap[h := heap[h].(lastActive := now)];
      }
    }

    /** `std::find` over the list, then `erase` at the position found. */
    method RemoveFromList(h: Handle)
      modifies this`order
      ensures order == RemoveFirst(old(order), h)
    {
      var i := 0;
      while i < |order| && order[i] != h
        invariant 0 <= i <= |order| && order == old(order)
        invariant RemoveFirst(order, h) == order[..i] + RemoveFirst(order[i..], h)
      {
        assert order[i..][1..] == order[i + 1..];
        i := i + 1;
      }
      if i < |order| {
        order := order[..i] + order[i + 1..];
      }
    }

    method EraseSession(h: Handle)
      requires Valid()
      modifies this, portInUse
      ensures State() == Erase(old(State()), h)
    {
      if h !in heap { return; }
      var s := heap[h];
      forward := forward - {s.forwardKey};
      reverse := reverse - {s.reverseKey};
      FreeSnatPort(s.snatPort);
      RemoveFromList(h);
      heap := heap - {h};
    }

    method Expire(now: u64) returns (removed: nat)
      requires Valid() && Inv(State())
      modifies this, portInUse
      ensures State() == Sessions.Expire(old(State()), now)
      ensures removed == |IdleIn(old(State()), old(State()).order, now)|
      ensures Inv(State())
    {
      hide Inv, Erase, AtRound, Sessions.Expire, IdleIn;
      ghost var t := State();
      ghost var k := 0;
      var i := 0;
      removed := 0;
      RoundStart(t, now);
      while i < |order|
        invariant AtRound(t, k, now, State(), i, removed) && k <= |t.order|
        decreases |t.order| - k
      {
        Round(t, k, now, State(), i, removed);
        var h := order[i];
        if Age(now, heap[h].lastActive) >= idleTimeout {
          EraseSession(h);
          removed := removed + 1;
        } else {
          i := i + 1;
        }
        k := k + 1;
      }
      RoundEnd(t, k, now, State(), i, removed);
    }
  }
}
