/**
 Packet ownership: every buffer the worker has is in exactly one of its lists, exactly once,
 and no buffer is sent or freed unless it is held at that moment.
 */
module Ownership {
  import opened Base
  import opened Packet
  import opened Neighbors
  import opened Arp
  import opened Worker
  import F = Forward

  function Ids(q: seq<HeldPacket>): (r: seq<Mbuf>)
    ensures |r| == |q| && forall i :: 0 <= i < |q| ==> r[i] == q[i].m
  {
    seq(|q|, i requires 0 <= i < |q| => q[i].m)
  }

  function QueueOf(io: Io, ip: u32): seq<HeldPacket> {
    if ip in io.pending then io.pending[ip] else []
  }

  /** The list that stands for a place. Nothing is kept in `Lost`. */
  function ListAt(io: Io, p: Place): seq<Mbuf> {
    match p
    case InRx => io.rx
    case InTx => io.tx
    case InDrop => io.drop
    case Held(ip) => Ids(QueueOf(io, ip))
    case Lost => []
  }

  ghost predicate PlaceOwned(io: Io, p: Place) {
    NoDup(ListAt(io, p)) && forall m :: m in ListAt(io, p) <==> m in io.owner && io.owner[m] == p
  }

  ghost predicate AllPlaces(io: Io) {
    forall p :: PlaceOwned(io, p)
  }

  /**
   Replays the log as a ledger: the buffers held at its end, or nothing at all if some buffer
   was acquired while held, or sent or freed while not held.
   */
  function Replay(log: seq<Event>): Option<set<Mbuf>> {
    if log == [] then Some({})
    else
      match Replay(log[..|log| - 1])
      case None => None
      case Some(held) =>
        var e := log[|log| - 1];
        if e.Acquire? then (if e.m in held then None else Some(held + {e.m}))
        else if e.m in held then Some(held - {e.m}) else None
  }

  ghost predicate LedgerOk(io: Io) {
    io.frames.Keys == io.owner.Keys && Replay(io.log) == Some(io.owner.Keys)
  }

  ghost predicate Owned(io: Io) {
    LedgerOk(io) && AllPlaces(io)
  }

  // ------------------------------------------------------- the three moves

  lemma ReplaySnoc(log: seq<Event>, e: Event)
    ensures Replay(log + [e]) ==
            match Replay(log)
            case None => None
            case Some(held) =>
              if e.Acquire? then (if e.m in held then None else Some(held + {e.m}))
              else if e.m in held then Some(held - {e.m}) else None
  {
    assert (log + [e])[..|log|] == log;
  }

  /** `Free(m)` was logged between `before` and `after`. */
  ghost predicate Freed(before: seq<Event>, after: seq<Event>, m: Mbuf) {
    exists i :: |before| <= i < |after| && after[i] == Free(m)
  }

  ghost predicate OnlyFrees(before: seq<Event>, after: seq<Event>) {
    before <= after && forall i :: |before| <= i < |after| ==> after[i].Free?
  }

  lemma OnlyFreesTransitive(a: seq<Event>, b: seq<Event>, c: seq<Event>)
    requires OnlyFrees(a, b) && OnlyFrees(b, c)
    ensures OnlyFrees(a, c)
  {
  }

  lemma FreedSplit(a: seq<Event>, b: seq<Event>, c: seq<Event>, m: Mbuf)
    requires a <= b <= c
    ensures Freed(a, c, m) <==> Freed(a, b, m) || Freed(b, c, m)
  {
    if Freed(a, b, m) {
      var i :| |a| <= i < |b| && b[i] == Free(m);
      assert c[i] == Free(m);
    }
    if Freed(a, c, m) && !Freed(b, c, m) {
      var i :| |a| <= i < |c| && c[i] == Free(m);
      assert b[i] == Free(m);
    }
  }

  /** Over a stretch of frees a buffer stays held exactly if it is not among them. */
  lemma {:induction false} ReplayFrees(a: seq<Event>, b: seq<Event>, m: Mbuf)
    requires OnlyFrees(a, b) && Replay(a).Some? && Replay(b).Some?
    ensures m in Replay(b).value <==> m in Replay(a).value && !Freed(a, b, m)
    decreases |b|
  {
    if |a| < |b| {
      var k := |b| - 1;
      var c := b[..k];
      assert a <= c;
      ReplayFrees(a, c, m);
      FreedSplit(a, c, b, m);
      assert Freed(c, b, m) <==> b[k] == Free(m);
    } else {
      assert a == b;
    }
  }

  /** An operation that only frees: what it frees is what the worker no longer has. */
  lemma FreedIsGone(io: Io, r: Io, m: Mbuf)
    requires LedgerOk(io) && LedgerOk(r) && OnlyFrees(io.log, r.log) && m in io.owner
    ensures m in r.owner <==> !Freed(io.log, r.log, m)
  {
    ReplayFrees(io.log, r.log, m);
  }

  /** A buffer leaves one list. */
  lemma Removed(io: Io, r: Io, p: Place, i: nat)
    requires AllPlaces(io) && i < |ListAt(io, p)|
    requires r.owner == io.owner - {ListAt(io, p)[i]}
    requires ListAt(r, p) == Without(ListAt(io, p), i)
    requires forall q :: q != p ==> ListAt(r, q) == ListAt(io, q)
    ensures AllPlaces(r)
  {
    hide ListAt;
    var m := ListAt(io, p)[i];
    assert PlaceOwned(io, p);
    forall q
      ensures PlaceOwned(r, q)
    {
      assert PlaceOwned(io, q);
      if q == p {
        WithoutMembers(ListAt(io, p), i);
      }
    }
  }

  /** A new buffer joins a list. */
  lemma Added(io: Io, r: Io, p: Place, m: Mbuf)
    requires AllPlaces(io) && m !in io.owner
    requires r.owner == io.owner[m := p]
    requires ListAt(r, p) == ListAt(io, p) + [m]
    requires forall q :: q != p ==> ListAt(r, q) == ListAt(io, q)
    ensures AllPlaces(r)
  {
    hide ListAt;
    forall q
      ensures PlaceOwned(r, q)
    {
      assert PlaceOwned(io, q);
      if q == p {
        NoDupAppend(ListAt(io, p), m);
      }
    }
  }

  /** A buffer changes lists. */
  lemma Moved(io: Io, r: Io, p: Place, i: nat, p': Place)
    requires AllPlaces(io) && i < |ListAt(io, p)| && p != p'
    requires r.owner == io.owner[ListAt(io, p)[i] := p']
    requires ListAt(r, p) == Without(ListAt(io, p), i)
    requires ListAt(r, p') == ListAt(io, p') + [ListAt(io, p)[i]]
    requires forall q :: q != p && q != p' ==> ListAt(r, q) == ListAt(io, q)
    ensures AllPlaces(r)
  {
    hide ListAt;
    var m := ListAt(io, p)[i];
    assert PlaceOwned(io, p);
    forall q
      ensures PlaceOwned(r, q)
    {
      assert PlaceOwned(io, q);
      if q == p {
        WithoutMembers(ListAt(io, p), i);
      } else if q == p' {
        NoDupAppend(ListAt(io, p'), m);
      }
    }
  }

  /** Only lists and tags matter to ownership. */
  lemma SamePlaces(io: Io, r: Io)
    requires AllPlaces(io) && r.owner == io.owner
    requires forall q :: ListAt(r, q) == ListAt(io, q)
    ensures AllPlaces(r)
  {
    hide ListAt;
    forall q
      ensures PlaceOwned(r, q)
    {
      assert PlaceOwned(io, q);
    }
  }

  lemma ListedIsOwned(io: Io, p: Place, i: nat)
    requires AllPlaces(io) && i < |ListAt(io, p)|
    ensures ListAt(io, p)[i] in io.owner && io.owner[ListAt(io, p)[i]] == p
  {
    assert PlaceOwned(io, p);
  }

  lemma IdsWithout(q: seq<HeldPacket>, k: nat)
    requires k < |q|
    ensures Ids(Without(q, k)) == Without(Ids(q), k)
  {
  }

  /** Giving up the buffer at position `i` of a list from which it has just been taken. */
  lemma ReleaseOwned(io: Io, r: Io, p: Place, i: nat, sent: bool)
    requires Owned(io) && i < |ListAt(io, p)|
    requires r.frames == io.frames && r.owner == io.owner && r.log == io.log
    requires ListAt(r, p) == Without(ListAt(io, p), i)
    requires forall q :: q != p ==> ListAt(r, q) == ListAt(io, q)
    ensures Owned(Release(r, ListAt(io, p)[i], sent))
  {
    var m := ListAt(io, p)[i];
    ListedIsOwned(io, p, i);
    ReplaySnoc(io.log, if sent then Send(m) else Free(m));
    var out := Release(r, m, sent);
    forall q
      ensures ListAt(out, q) == ListAt(r, q)
    {
    }
    hide ListAt;
    Removed(io, out, p, i);
  }

  // ---------------------------------------------------- each operation keeps it

  lemma FreeHeldOwned(io: Io, ip: u32, k: nat)
    requires Owned(io) && ip in io.pending && k < |io.pending[ip]|
    ensures Owned(FreeHeld(io, ip, k))
  {
    var q := io.pending[ip];
    IdsWithout(q, k);
    hide Owned;
    ReleaseOwned(io, io.(pending := io.pending[ip := Without(q, k)]), Held(ip), k, false);
  }

  lemma SendHeldOwned(io: Io, ip: u32, k: nat, f: Frame)
    requires Owned(io) && ip in io.pending && k < |io.pending[ip]|
    ensures Owned(SendHeld(io, ip, k, f))
  {
    var q := io.pending[ip];
    IdsWithout(q, k);
    ListedIsOwned(io, Held(ip), k);
    hide AllPlaces;
    var r := SendHeld(io, ip, k, f);
    assert r.owner.Keys == io.owner.Keys && r.frames.Keys == io.frames.Keys;
    Moved(io, r, Held(ip), k, InTx);
  }

  lemma RelabelOwned(io: Io, m: Mbuf, f: Frame)
    requires Owned(io) && m in io.owner
    ensures Owned(io.(frames := io.frames[m := f]))
  {
    hide AllPlaces;
    SamePlaces(io, io.(frames := io.frames[m := f]));
  }

  lemma DropIfEmptyOwned(io: Io, ip: u32)
    requires Owned(io)
    ensures Owned(DropIfEmpty(io, ip))
  {
    hide AllPlaces;
    SamePlaces(io, DropIfEmpty(io, ip));
  }

  lemma {:induction false} FlushFromOwned(cfg: F.Config, c: Cache, io: Io, ip: u32, k: nat, now: u64)
    requires Owned(io) && ip in io.pending
    ensures Owned(FlushFrom(cfg, c, io, ip, k, now))
    decreases |io.pending[ip]| - k
  {
    var q := io.pending[ip];
    if k < |q| {
      ListedIsOwned(io, Held(ip), k);
      hide Owned, F.FinishL2, Expired, FrameOf, ListAt;
      if Expired(q[k], now) {
        FreeHeldOwned(io, ip, k);
        FlushFromOwned(cfg, c, FreeHeld(io, ip, k), ip, k, now);
      } else {
        match F.FinishL2(cfg, c, FrameOf(io, q[k].m), ip) {
          case None => FlushFromOwned(cfg, c, io, ip, k + 1, now);
          case Some(f) =>
            if |io.tx| >= BURST {
              RelabelOwned(io, q[k].m, f);
              FlushFromOwned(cfg, c, io.(frames := io.frames[q[k].m := f]), ip, k + 1, now);
            } else {
              SendHeldOwned(io, ip, k, f);
              FlushFromOwned(cfg, c, SendHeld(io, ip, k, f), ip, k, now);
            }
        }
      }
    }
  }

  lemma FlushOwned(cfg: F.Config, c: Cache, io: Io, ip: u32, now: u64)
    requires Owned(io)
    ensures Owned(Flush(cfg, c, io, ip, now))
  {
    if !(ip == 0 || ip !in io.pending || io.pending[ip] == []) {
      FlushFromOwned(cfg, c, io, ip, 0, now);
      DropIfEmptyOwned(FlushFrom(cfg, c, io, ip, 0, now), ip);
    }
  }

  lemma {:induction false} ExpireFromOwned(io: Io, ip: u32, k: nat, now: u64)
    requires Owned(io) && ip in io.pending
    ensures Owned(ExpireFrom(io, ip, k, now))
    decreases |io.pending[ip]| - k
  {
    hide Owned, Expired;
    var q := io.pending[ip];
    if k < |q| {
      if Expired(q[k], now) {
        FreeHeldOwned(io, ip, k);
        ExpireFromOwned(FreeHeld(io, ip, k), ip, k, now);
      } else {
        ExpireFromOwned(io, ip, k + 1, now);
      }
    }
  }

  lemma {:induction false} ExpirePendingOwned(io: Io, ips: seq<u32>, now: u64)
    requires Owned(io)
    ensures Owned(ExpirePending(io, ips, now))
  {
    hide Owned;
    if ips != [] {
      var before := ExpirePending(io, ips[..|ips| - 1], now);
      var ip := ips[|ips| - 1];
      ExpirePendingOwned(io, ips[..|ips| - 1], now);
      if ip in before.pending {
        ExpireFromOwned(before, ip, 0, now);
        DropIfEmptyOwned(ExpireFrom(before, ip, 0, now), ip);
      }
    }
  }

  /** Buffers that arrive are distinct and not already held. */
  ghost predicate FreshBurst(io: Io, burst: seq<(Mbuf, Frame)>) {
    && (forall i :: 0 <= i < |burst| ==> burst[i].0 !in io.owner)
    && (forall i, j :: 0 <= i < j < |burst| ==> burst[i].0 != burst[j].0)
  }

  lemma ReceiveOne(io: Io, m: Mbuf, f: Frame)
    requires Owned(io) && m !in io.owner
    ensures Owned(io.(frames := io.frames[m := f], owner := io.owner[m := InRx],
                      rx := io.rx + [m], log := io.log + [Acquire(m)]))
  {
    var r := io.(frames := io.frames[m := f], owner := io.owner[m := InRx],
                 rx := io.rx + [m], log := io.log + [Acquire(m)]);
    ReplaySnoc(io.log, Acquire(m));
    assert r.owner.Keys == io.owner.Keys + {m} == r.frames.Keys;
    hide AllPlaces;
    Added(io, r, InRx, m);
  }

  lemma {:induction false} ReceiveOwned(io: Io, burst: seq<(Mbuf, Frame)>)
    requires Owned(io) && FreshBurst(io, burst)
    ensures Owned(Receive(io, burst))
    ensures forall m :: m in Receive(io, burst).owner ==> m in io.owner || exists i :: 0 <= i < |burst| && burst[i].0 == m
  {
    hide Owned;
    if burst != [] {
      var k := |burst| - 1;
      ReceiveOwned(io, burst[..k]);
      assert burst[k].0 !in Receive(io, burst[..k]).owner;
      ReceiveOne(Receive(io, burst[..k]), burst[k].0, burst[k].1);
    }
  }

  lemma {:induction false} DrainEmpties(io: Io, sent: nat)
    ensures Drain(io, sent).tx == [] && Drain(io, sent).drop == []
    ensures Drain(io, sent).rx == io.rx && Drain(io, sent).pending == io.pending
    decreases |io.tx| + |io.drop|
  {
    if io.tx != [] {
      DrainEmpties(Release(io.(tx := io.tx[1..]), io.tx[0], sent > 0), if sent > 0 then sent - 1 else 0);
    } else if io.drop != [] {
      DrainEmpties(Release(io.(drop := io.drop[1..]), io.drop[0], false), 0);
    }
  }

  lemma {:induction false} DrainOwned(io: Io, sent: nat)
    requires Owned(io)
    ensures Owned(Drain(io, sent))
    decreases |io.tx| + |io.drop|
  {
    hide Owned;
    if io.tx != [] {
      assert io.tx[1..] == Without(io.tx, 0);
      ReleaseOwned(io, io.(tx := io.tx[1..]), InTx, 0, sent > 0);
      DrainOwned(Release(io.(tx := io.tx[1..]), io.tx[0], sent > 0), if sent > 0 then sent - 1 else 0);
    } else if io.drop != [] {
      assert io.drop[1..] == Without(io.drop, 0);
      ReleaseOwned(io, io.(drop := io.drop[1..]), InDrop, 0, false);
      DrainOwned(Release(io.(drop := io.drop[1..]), io.drop[0], false), 0);
    }
  }

  /** Holding a packet keeps ownership exactly when there is an address to hold it for. */
  lemma EnqueueOwned(io: Io, ip: u32, now: u64)
    requires Owned(io) && io.rx != []
    ensures Owned(Enqueue(io, ip, now)) <==> ip != 0
  {
    var m := io.rx[0];
    var r := Enqueue(io, ip, now);
    ListedIsOwned(io, InRx, 0);
    assert io.rx[1..] == Without(io.rx, 0);
    if ip == 0 {
      assert r.owner[m] == Lost && m !in ListAt(r, Lost);
      assert !PlaceOwned(r, Lost);
    } else if |QueueOf(io, ip)| >= PENDING_MAX {
      hide Owned;
      ReleaseOwned(io, io.(rx := io.rx[1..]), InRx, 0, false);
    } else {
      assert Ids(QueueOf(r, ip)) == Ids(QueueOf(io, ip)) + [m];
      assert r.owner.Keys == io.owner.Keys;
      hide AllPlaces;
      Moved(io, r, InRx, 0, Held(ip));
    }
  }

  /** A probe that finds the batch full is allocated and freed on the spot. */
  lemma AcquireFreeOwned(io: Io, p: Mbuf)
    requires Owned(io) && p !in io.owner
    ensures Owned(io.(log := io.log + [Acquire(p), Free(p)]))
  {
    hide AllPlaces;
    ReplaySnoc(io.log, Acquire(p));
    ReplaySnoc(io.log + [Acquire(p)], Free(p));
    assert io.log + [Acquire(p), Free(p)] == io.log + [Acquire(p)] + [Free(p)];
    assert io.owner.Keys + {p} - {p} == io.owner.Keys;
    SamePlaces(io, io.(log := io.log + [Acquire(p), Free(p)]));
  }

  lemma AcquireTxOwned(io: Io, r: Io, p: Mbuf, f: Frame)
    requires Owned(io) && p !in io.owner
    requires r.frames == io.frames[p := f] && r.owner == io.owner[p := InTx] && r.log == io.log + [Acquire(p)]
    requires r.tx == io.tx + [p] && r.rx == io.rx && r.drop == io.drop && r.pending == io.pending
    ensures Owned(r)
  {
    hide AllPlaces;
    ReplaySnoc(io.log, Acquire(p));
    assert r.owner.Keys == io.owner.Keys + {p} == r.frames.Keys;
    Added(io, r, InTx, p);
  }

  lemma ProbeOwned(cfg: ArpConfig, io: Io, ip: u32, now: u64, alloc: Option<Mbuf>)
    requires Owned(io) && (alloc.Some? ==> alloc.value !in io.owner)
    ensures Owned(Probe(cfg, io, ip, now, alloc))
  {
    hide Owned, MakeRequest;
    if ip != 0 && !(ip in io.probed && Age(now, io.probed[ip]) < PROBE_INTERVAL) && alloc.Some? {
      if |io.tx| >= BURST {
        AcquireFreeOwned(io, alloc.value);
      } else {
        AcquireTxOwned(io, Probe(cfg, io, ip, now, alloc), alloc.value, MakeRequest(cfg, ip));
      }
    }
  }

  lemma DispatchOwned(io: Io)
    requires Owned(io) && io.rx != []
    ensures Owned(ToDrop(io)) && Owned(ToTx(io))
  {
    ListedIsOwned(io, InRx, 0);
    assert io.rx[1..] == Without(io.rx, 0);
    hide AllPlaces;
    assert ToDrop(io).owner.Keys == io.owner.Keys == ToTx(io).owner.Keys;
    Moved(io, ToDrop(io), InRx, 0, InDrop);
    Moved(io, ToTx(io), InRx, 0, InTx);
  }
}
