/**
 What the SNAT allocator and `create` guarantee on every table that satisfies the
 invariant: when a port is found and which, when the pool is exhausted, and that a new
 session keeps list, maps and ports in step.
 */
module SessionProofs {
  import opened Base
  import opened Sessions

  // ----------------------------------------------------------- counting ports

  function Ports(begin: u16, end: u16): (r: set<u16>)
    requires begin <= end
    ensures |r| == end - begin
    ensures forall p: u16 :: p in r <==> begin <= p < end
  {
    if begin == end then {} else Ports(begin, end - 1) + {end - 1}
  }

  function Elements(s: seq<u16>): (r: set<u16>)
    ensures forall p :: p in r <==> p in s
    ensures NoDup(s) ==> |r| == |s|
  {
    if s == [] then {}
    else
      var k := |s| - 1;
      assert s == s[..k] + [s[k]];
      assert NoDup(s) ==> NoDup(s[..k]) && s[k] !in s[..k];
      Elements(s[..k]) + {s[k]}
  }

  /** The ports of the listed sessions. */
  ghost function ListedPorts(t: Table): (r: seq<u16>)
    requires ListInv(t)
    ensures |r| == |t.order| && forall i :: 0 <= i < |r| ==> r[i] == t.heap[t.order[i]].snatPort
  {
    seq(|t.order|, i requires 0 <= i < |t.order| => t.heap[t.order[i]].snatPort)
  }

  /** As many ports are in use as sessions are live. */
  lemma LiveCount(t: Table)
    requires Inv(t)
    ensures |t.inUse| == |t.order|
  {
    assert ListInv(t) && HeapInv(t) && OnePortEach(t);
    hide *;
    ListedDistinct(t);
    PortsListed(t);
    SameSize(ListedPorts(t), t.inUse);
  }

  lemma SameSize(a: seq<u16>, b: set<u16>)
    requires NoDup(a) && forall p: u16 :: p in a <==> p in b
    ensures |b| == |a|
  {
    assert Elements(a) == b;
  }

  lemma PortsListed(t: Table)
    requires ListInv(t) && HeapInv(t) && OnePortEach(t)
    ensures forall p: u16 :: p in ListedPorts(t) <==> p in t.inUse
  {
    hide *;
    forall p: u16
      ensures p in ListedPorts(t) <==> p in t.inUse
    {
      PortListed(t, p);
    }
  }

  lemma ListedDistinct(t: Table)
    requires ListInv(t) && OnePortEach(t)
    ensures NoDup(ListedPorts(t))
  {
    var ports := ListedPorts(t);
    hide ListedPorts;
    forall i, j | 0 <= i < j < |ports|
      ensures ports[i] != ports[j]
    {
      assert t.order[i] in t.heap && t.order[j] in t.heap && t.order[i] != t.order[j];
    }
  }

  lemma PortListed(t: Table, p: u16)
    requires ListInv(t) && HeapInv(t) && OnePortEach(t)
    ensures p in ListedPorts(t) <==> p in t.inUse
  {
    var ports := ListedPorts(t);
    hide ListedPorts;
    if p in ports {
      var i :| 0 <= i < |ports| && ports[i] == p;
      assert SessionOk(t, t.order[i], t.heap[t.order[i]]);
    }
    if p in t.inUse {
      assert PortTaken(t, p);
      var h :| h in t.heap && t.heap[h].snatPort == p;
      var i :| 0 <= i < |t.order| && t.order[i] == h;
      assert ports[i] == p;
    }
  }

  /** The pool is full exactly when every port of the range is in use. */
  lemma FullCount(t: Table)
    requires Inv(t)
    ensures |t.order| <= t.end - t.begin
    ensures |t.order| == t.end - t.begin <==> forall p: u16 :: InRange(t, p) ==> p in t.inUse
  {
    LiveCount(t);
    Subset(t.inUse, Ports(t.begin, t.end));
  }

  lemma Subset(a: set<u16>, b: set<u16>)
    requires a <= b
    ensures |a| <= |b| && (|a| == |b| <==> b <= a)
  {
    assert b == a + (b - a);
  }

  // ----------------------------------------------------------------- the scan

  /** A scan that starts at the low end of a fully used range returns to where it started. */
  lemma {:induction false} ScanAllUsed(inUse: set<u16>, next: u16, begin: u16, end: u16, tries: nat)
    requires begin <= next < end && tries == end - next
    requires forall p: u16 :: begin <= p < end ==> p in inUse
    ensures Scan(inUse, next, begin, end, tries) == (begin, None)
    decreases tries
  {
    if next + 1 < end {
      ScanAllUsed(inUse, next + 1, begin, end, tries - 1);
    }
  }

  /**
   The allocator on a valid table: the free stack is served last in, first out; otherwise the
   port under the cursor is taken at the first probe; otherwise every port is in use, nothing
   is found, and the cursor ends where it began.
   */
  lemma AllocCases(t: Table)
    requires PortsInv(t)
    ensures var (r, p) := Alloc(t);
            && (p == 0 <==> t.free == [] && forall q: u16 :: InRange(t, q) ==> q in t.inUse)
            && (p == 0 ==> r == t)
            && (p != 0 ==>
                 && InRange(t, p) && p !in t.inUse && r.inUse == t.inUse + {p}
                 && p == (if t.free != [] then t.free[|t.free| - 1] else t.next)
                 && PortsInv(r))
  {
    hide Alloc;
    if t.free != [] {
      AllocFromStack(t);
    } else if NeverIssued(t, t.next) {
      AllocAtCursor(t);
    } else {
      AllocExhausted(t);
    }
    hide PortsInv;
  }

  lemma AllocFromStack(t: Table)
    requires PortsInv(t) && t.free != []
    ensures var (r, p) := Alloc(t);
            && p != 0 && InRange(t, p) && p !in t.inUse && r.inUse == t.inUse + {p}
            && p == t.free[|t.free| - 1] && PortsInv(r)
  {
    var (r, p) := Alloc(t);
    LastOut(t.free);
    assert r == t.(free := t.free[..|t.free| - 1], inUse := t.inUse + {p});
    hide Alloc;
    forall q: u16
      ensures NeverIssued(r, q) <==> NeverIssued(t, q)
    {
      assert q in t.free <==> q in r.free || q == p;
    }
    hide NeverIssued;
  }

  lemma LastOut(s: seq<u16>)
    requires NoDup(s) && s != []
    ensures var front, x := s[..|s| - 1], s[|s| - 1];
            NoDup(front) && x in s && x !in front && forall q :: q in s <==> q in front || q == x
  {
    assert s == s[..|s| - 1] + [s[|s| - 1]];
  }

  lemma AllocAtCursor(t: Table)
    requires PortsInv(t) && t.free == [] && NeverIssued(t, t.next)
    ensures var (r, p) := Alloc(t);
            p != 0 && p == t.next && InRange(t, p) && p !in t.inUse && r.inUse == t.inUse + {p} && PortsInv(r)
  {
    var (r, p) := Alloc(t);
    assert r == t.(next := Advance(t.next, t.begin, t.end), inUse := t.inUse + {t.next}) && p == t.next;
    hide Alloc;
    forall q: u16
      ensures NeverIssued(r, q) <==> t.next < q < t.end
    {
      assert NeverIssued(r, q) <==> NeverIssued(t, q) && q != p;
    }
  }

  lemma AllocExhausted(t: Table)
    requires PortsInv(t) && t.free == [] && !NeverIssued(t, t.next)
    ensures Alloc(t) == (t, 0) && forall q: u16 :: InRange(t, q) ==> q in t.inUse
  {
    assert t.next == t.begin;
    forall q: u16 | InRange(t, q)
      ensures q in t.inUse
    {
      assert !NeverIssued(t, q);
    }
    ScanAllUsed(t.inUse, t.next, t.begin, t.end, t.end - t.begin);
    hide Scan, PortsInv;
  }

  /** `create` fails exactly when the live sessions number `end - begin`. */
  lemma CreateFailsWhenFull(t: Table, key: FlowKey, ip: u32, port: u16, now: u64)
    requires Inv(t)
    ensures var (r, h) := Create(t, key, ip, port, now);
            && (h == None <==> |t.order| == t.end - t.begin)
            && (h == None ==> r == t)
  {
    AllocCases(t);
    FullCount(t);
    assert t.free != [] ==> InRange(t, t.free[0]) && t.free[0] !in t.inUse;
  }

  // ------------------------------------------------------------------- create

  lemma CreateKeepsHeap(t: Table, key: FlowKey, ip: u32, port: u16, now: u64)
    requires Inv(t) && key !in t.forward
    ensures HeapInv(Create(t, key, ip, port, now).0)
  {
    hide PortsInv, ListInv, OnePortEach;
    NextHandleFresh(t);
    assert KeysInv(t) && PortsInv(t);
    AllocCases(t);
    AllocKeepsRest(t);
    hide Alloc;
    var (r, o) := Create(t, key, ip, port, now);
    if o.Some? {
      forall g | g in r.heap
        ensures SessionOk(r, g, r.heap[g])
      {
        if g != o.value {
          LiveSession(t, g);
          hide Inv, MapsInv, HeapInv, KeysInv;
          OtherStaysOk(t, r, g, o.value);
        }
      }
    }
  }

  /** A live session is not touched by a new one with another forward key and another port. */
  lemma OtherStaysOk(t: Table, r: Table, g: Handle, h: Handle)
    requires g in t.heap && SessionOk(t, g, t.heap[g]) && h != g && h in r.heap
    requires r.heap == t.heap[h := r.heap[h]] && t.nextHandle <= r.nextHandle && r.gatewayIp == t.gatewayIp
    requires r.forward == t.forward[r.heap[h].forwardKey := h] && r.reverse == t.reverse[r.heap[h].reverseKey := h]
    requires r.heap[h].forwardKey != t.heap[g].forwardKey && r.heap[h].snatPort != t.heap[g].snatPort
    requires r.heap[h].reverseKey.dstPort == r.heap[h].snatPort && t.inUse <= r.inUse
    ensures SessionOk(r, g, r.heap[g])
  {
  }

  lemma LiveSession(t: Table, g: Handle)
    requires Inv(t) && g in t.heap
    ensures SessionOk(t, g, t.heap[g])
  {
  }

  lemma NextHandleFresh(t: Table)
    requires Inv(t)
    ensures t.nextHandle !in t.heap && t.nextHandle !in t.order
  {
    if t.nextHandle in t.heap {
      LiveSession(t, t.nextHandle);
    }
  }

  lemma CreateKeepsKeys(t: Table, key: FlowKey, ip: u32, port: u16, now: u64)
    requires Inv(t) && key !in t.forward
    ensures KeysInv(Create(t, key, ip, port, now).0)
  {
    hide PortsInv, HeapInv, OnePortEach, Alloc;
    NextHandleFresh(t);
    assert KeysInv(t);
    hide Inv, MapsInv, ListInv;
    AllocKeepsRest(t);
    var (r, o) := Create(t, key, ip, port, now);
    if o.Some? {
      NewKeys(t, r, o.value, r.heap[o.value]);
    }
  }

  /** One session more, under keys that are its own. */
  lemma NewKeys(t: Table, r: Table, h: Handle, s: Session)
    requires KeysInv(t) && h !in t.heap && r.heap == t.heap[h := s]
    requires r.forward == t.forward[s.forwardKey := h] && r.reverse == t.reverse[s.reverseKey := h]
    ensures KeysInv(r)
  {
  }

  lemma CreateKeepsList(t: Table, key: FlowKey, ip: u32, port: u16, now: u64)
    requires Inv(t)
    ensures ListInv(Create(t, key, ip, port, now).0)
  {
    NextHandleFresh(t);
    assert ListInv(t);
    hide Inv, PortsInv, MapsInv, HeapInv, OnePortEach, KeysInv, Alloc;
    AllocKeepsRest(t);
    NoDupAppend(t.order, t.nextHandle);
  }

  lemma AllocKeepsRest(t: Table)
    ensures var r := Alloc(t).0;
            && r.heap == t.heap && r.order == t.order && r.forward == t.forward && r.reverse == t.reverse
            && r.gatewayIp == t.gatewayIp && r.begin == t.begin && r.end == t.end
            && r.nextHandle == t.nextHandle && r.idleTimeout == t.idleTimeout
  {
  }

  lemma CreateKeepsPorts(t: Table, key: FlowKey, ip: u32, port: u16, now: u64)
    requires Inv(t)
    ensures PortsInv(Create(t, key, ip, port, now).0)
  {
    AllocCases(t);
    hide Inv, PortsInv, MapsInv;
    var (r, o) := Create(t, key, ip, port, now);
    if o.Some? {
      SamePorts(Alloc(t).0, r);
    }
  }

  lemma CreateKeepsOnePortEach(t: Table, key: FlowKey, ip: u32, port: u16, now: u64)
    requires Inv(t)
    ensures OnePortEach(Create(t, key, ip, port, now).0)
  {
    AllocCases(t);
    AllocKeepsRest(t);
    NextHandleFresh(t);
    assert OnePortEach(t) && HeapInv(t);
    hide Inv, PortsInv, MapsInv, Alloc, ListInv, KeysInv;
    var (r, o) := Create(t, key, ip, port, now);
    if o.Some? {
      var h := o.value;
      forall g | g in t.heap
        ensures g != h && t.heap[g].snatPort in t.inUse
      {
        assert SessionOk(t, g, t.heap[g]);
      }
      forall p | p in r.inUse
        ensures PortTaken(r, p)
      {
        if p in t.inUse {
          assert PortTaken(t, p);
          var g :| g in t.heap && t.heap[g].snatPort == p;
          assert r.heap[g].snatPort == p;
        } else {
          assert r.heap[h].snatPort == p;
        }
      }
    }
  }

  /**
   `create` does not check for a live session with the same key. It keeps the table consistent
   exactly when there is none, or when it fails for lack of ports; otherwise the older session
   is orphaned in the list.
   */
  lemma CreateKeepsInv(t: Table, key: FlowKey, ip: u32, port: u16, now: u64)
    requires Inv(t)
    ensures Inv(Create(t, key, ip, port, now).0) <==> key !in t.forward || |t.order| == t.end - t.begin
  {
    CreateFailsWhenFull(t, key, ip, port, now);
    hide PortsInv, ListInv, HeapInv, KeysInv, OnePortEach, Create;
    if Create(t, key, ip, port, now).1.Some? {
      if key !in t.forward {
        CreateKeepsHeap(t, key, ip, port, now);
        CreateKeepsKeys(t, key, ip, port, now);
        CreateKeepsList(t, key, ip, port, now);
        CreateKeepsPorts(t, key, ip, port, now);
        CreateKeepsOnePortEach(t, key, ip, port, now);
      } else {
        CreateOrphans(t, key, ip, port, now);
      }
    }
  }

  /** The older session of the same key no longer is where the forward map leads. */
  lemma CreateOrphans(t: Table, key: FlowKey, ip: u32, port: u16, now: u64)
    requires Inv(t) && key in t.forward && Create(t, key, ip, port, now).1.Some?
    ensures !HeapInv(Create(t, key, ip, port, now).0)
  {
    assert KeysInv(t);
    var g := t.forward[key];
    NextHandleFresh(t);
    AllocKeepsRest(t);
    hide Inv, PortsInv, MapsInv, ListInv, HeapInv, OnePortEach, Alloc;
    var r := Create(t, key, ip, port, now).0;
    assert g in r.heap && r.heap[g].forwardKey == key && r.forward[key] == t.nextHandle;
    assert !SessionOk(r, g, r.heap[g]);
    NotAllOk(r, g);
  }

  lemma NotAllOk(r: Table, g: Handle)
    requires g in r.heap && !SessionOk(r, g, r.heap[g])
    ensures !HeapInv(r)
  {
  }

  lemma TouchKeepsInv(t: Table, h: Handle, now: u64)
    requires Inv(t)
    ensures Inv(Touch(t, h, now))
  {
    TouchKeepsHeap(t, h, now);
    TouchKeepsPorts(t, h, now);
    TouchKeepsKeys(t, h, now);
    hide PortsInv, HeapInv, OnePortEach, KeysInv;
    SamePorts(t, Touch(t, h, now));
  }

  lemma TouchKeepsKeys(t: Table, h: Handle, now: u64)
    requires KeysInv(t)
    ensures KeysInv(Touch(t, h, now))
  {
  }

  lemma TouchKeepsHeap(t: Table, h: Handle, now: u64)
    requires HeapInv(t)
    ensures HeapInv(Touch(t, h, now))
  {
    var r := Touch(t, h, now);
    forall g | g in r.heap
      ensures SessionOk(r, g, r.heap[g])
    {
      assert SessionOk(t, g, t.heap[g]);
    }
  }

  lemma TouchKeepsPorts(t: Table, h: Handle, now: u64)
    requires OnePortEach(t)
    ensures OnePortEach(Touch(t, h, now))
  {
    var r := Touch(t, h, now);
    forall p | p in r.inUse
      ensures PortTaken(r, p)
    {
      assert PortTaken(t, p);
      var g :| g in t.heap && t.heap[g].snatPort == p;
      assert r.heap[g].snatPort == p;
    }
  }

  // ---------------------------------------------------------------- stability

  /** Two records of the same flow: equal except for the activity stamp. */
  predicate SameFlow(a: Session, b: Session) {
    a.(lastActive := 0) == b.(lastActive := 0)
  }

  /** No operation changes what a live session translates; handles are never reused. */
  ghost predicate Continues(t: Table, r: Table) {
    && r.gatewayIp == t.gatewayIp && r.begin == t.begin && r.end == t.end
    && t.nextHandle <= r.nextHandle
    && forall h :: h in r.heap && h < t.nextHandle ==> h in t.heap && SameFlow(t.heap[h], r.heap[h])
  }

  lemma TouchContinues(t: Table, h: Handle, now: u64)
    ensures Continues(t, Touch(t, h, now))
  {
  }

  lemma CreateContinues(t: Table, key: FlowKey, ip: u32, port: u16, now: u64)
    ensures Continues(t, Create(t, key, ip, port, now).0)
  {
  }

  lemma {:induction false} EraseAllContinues(t: Table, hs: seq<Handle>)
    ensures Continues(t, EraseAll(t, hs))
  {
    if hs != [] {
      EraseAllContinues(t, hs[..|hs| - 1]);
    }
  }
}
