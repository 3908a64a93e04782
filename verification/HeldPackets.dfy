/**
 The queues of packets held for ARP: their order, size and contents, what a flush does to
 them, and that completing a held frame later gives the frame that sending it at once would
 have given.
 */
module HeldPackets {
  import opened Base
  import opened Packet
  import opened PacketProofs
  import opened Neighbors
  import opened Worker
  import opened Ownership
  import F = Forward

  // -------------------------------------------------------------- invariants

  /** Oldest first, none from the future, and no more than the cap. */
  ghost predicate QueueOk(q: seq<HeldPacket>, clock: u64) {
    && |q| <= 64
    && (forall i :: 0 <= i < |q| ==> q[i].since <= clock)
    && (forall i, j :: 0 <= i < j < |q| ==> q[i].since <= q[j].since)
  }

  ghost predicate Timed(io: Io, clock: u64) {
    forall ip :: ip in io.pending ==> QueueOk(io.pending[ip], clock)
  }

  ghost predicate NonEmpty(io: Io) {
    forall ip :: ip in io.pending ==> ip != 0 && io.pending[ip] != []
  }

  /** A frame that can be finished for `ip`: it parses, and `ip` is where it is going. */
  ghost predicate Ready(f: Frame, ip: u32) {
    ParseOk(f) && IpAt(f, DST_AT) == ip
  }

  ghost predicate HeldReady(io: Io) {
    forall m :: m in io.owner && io.owner[m].Held? ==> m in io.frames && Ready(io.frames[m], io.owner[m].ip)
  }

  lemma SetL2Body(f: Frame, g: Frame, src: Mac, dst: Mac)
    requires ETH_LEN <= |f| && SameBody(f, g)
    ensures SameBody(SetL2(f, src, dst), g)
    ensures SetL2(f, src, dst) == SetL2(g, src, dst)
  {
    SetL2Effect(f, src, dst);
    SetL2Effect(g, src, dst);
    assert f[12..] == g[12..];
  }

  lemma SetL2Ready(f: Frame, ip: u32, src: Mac, dst: Mac)
    requires Ready(f, ip)
    ensures Ready(SetL2(f, src, dst), ip)
  {
    SetL2Effect(f, src, dst);
    var r := SetL2(f, src, dst);
    assert forall i :: 12 <= i < |f| ==> r[i] == f[i];
  }

  // ---------------------------------------------------- what a flush leaves alone

  /** Everything outside the queue of `ip` and the end of the transmit batch. */
  ghost predicate OthersKept(io: Io, r: Io, ip: u32) {
    && r.rx == io.rx && r.drop == io.drop && r.probed == io.probed && r.probes == io.probes
    && io.tx <= r.tx && (|r.tx| <= |io.tx| || |r.tx| <= BURST)
    && (forall a :: a != ip ==> (a in r.pending <==> a in io.pending))
    && (forall a :: a != ip && a in io.pending ==> r.pending[a] == io.pending[a])
    && (forall m :: m in io.owner && io.owner[m] != Held(ip) ==>
          m in r.owner && r.owner[m] == io.owner[m] && FrameOf(r, m) == FrameOf(io, m))
    && (forall m :: m in r.owner ==> m in io.owner)
  }

  lemma OthersKeptTransitive(a: Io, b: Io, c: Io, ip: u32)
    requires OthersKept(a, b, ip) && OthersKept(b, c, ip)
    ensures OthersKept(a, c, ip)
  {
  }

  lemma FreeHeldOthers(io: Io, ip: u32, k: nat)
    requires Owned(io) && ip in io.pending && k < |io.pending[ip]|
    ensures OthersKept(io, FreeHeld(io, ip, k), ip)
  {
    ListedIsOwned(io, Held(ip), k);
  }

  lemma SendHeldOthers(io: Io, ip: u32, k: nat, f: Frame)
    requires Owned(io) && ip in io.pending && k < |io.pending[ip]| && |io.tx| < BURST
    ensures OthersKept(io, SendHeld(io, ip, k, f), ip)
  {
    ListedIsOwned(io, Held(ip), k);
  }

  lemma RelabelOthers(io: Io, ip: u32, m: Mbuf, f: Frame)
    requires m in io.owner && io.owner[m] == Held(ip)
    ensures OthersKept(io, io.(frames := io.frames[m := f]), ip)
  {
  }

  lemma {:induction false} FlushFromOthers(cfg: F.Config, c: Cache, io: Io, ip: u32, k: nat, now: u64)
    requires Owned(io) && ip in io.pending
    ensures var r := FlushFrom(cfg, c, io, ip, k, now); ip in r.pending && OthersKept(io, r, ip)
    decreases |io.pending[ip]| - k
  {
    var q := io.pending[ip];
    var r := FlushFrom(cfg, c, io, ip, k, now);
    if k < |q| {
      ListedIsOwned(io, Held(ip), k);
      hide Owned, F.FinishL2, Expired, FrameOf, ListAt, OthersKept;
      if Expired(q[k], now) {
        var next := FreeHeld(io, ip, k);
        FreeHeldOwned(io, ip, k);
        FreeHeldOthers(io, ip, k);
        FlushFromOthers(cfg, c, next, ip, k, now);
        OthersKeptTransitive(io, next, r, ip);
      } else {
        match F.FinishL2(cfg, c, FrameOf(io, q[k].m), ip) {
          case None => FlushFromOthers(cfg, c, io, ip, k + 1, now);
          case Some(f) =>
            if |io.tx| >= BURST {
              var next := io.(frames := io.frames[q[k].m := f]);
              RelabelOwned(io, q[k].m, f);
              RelabelOthers(io, ip, q[k].m, f);
              FlushFromOthers(cfg, c, next, ip, k + 1, now);
              OthersKeptTransitive(io, next, r, ip);
            } else {
              var next := SendHeld(io, ip, k, f);
              SendHeldOwned(io, ip, k, f);
              SendHeldOthers(io, ip, k, f);
              FlushFromOthers(cfg, c, next, ip, k, now);
              OthersKeptTransitive(io, next, r, ip);
            }
        }
      }
    }
  }

  // ------------------------------------------------- what becomes of held frames

  /**
   Each packet held for `ip` before: freed, still held with at most its MACs rewritten, or
   sent with exactly the layer-2 header of the resolved neighbor.
   */
  ghost predicate FrameFate(cfg: F.Config, c: Cache, io: Io, r: Io, ip: u32, m: Mbuf)
    requires m in io.owner
  {
    m in r.owner ==>
      && ETH_LEN <= |FrameOf(io, m)|
      && (|| (r.owner[m] == Held(ip) && SameBody(FrameOf(r, m), FrameOf(io, m)))
          || (r.owner[m] == InTx && ip in c
              && FrameOf(r, m) == SetL2(FrameOf(io, m), cfg.gatewayMac, c[ip].mac)))
  }

  ghost predicate Fates(cfg: F.Config, c: Cache, io: Io, r: Io, ip: u32) {
    forall m :: m in io.owner && io.owner[m] == Held(ip) ==> FrameFate(cfg, c, io, r, ip, m)
  }

  /** Fates carry back over a step that dealt with one packet and left the others alone. */
  lemma FatesThroughStep(cfg: F.Config, c: Cache, io: Io, next: Io, r: Io, ip: u32, e: Mbuf)
    requires Fates(cfg, c, next, r, ip)
    requires e in io.owner && FrameFate(cfg, c, io, r, ip, e)
    requires forall m :: m in io.owner && io.owner[m] == Held(ip) && m != e ==>
                           m in next.owner && next.owner[m] == Held(ip) && FrameOf(next, m) == FrameOf(io, m)
    ensures Fates(cfg, c, io, r, ip)
  {
    forall m | m in io.owner && io.owner[m] == Held(ip) && m != e
      ensures FrameFate(cfg, c, io, r, ip, m)
    {
      assert FrameFate(cfg, c, next, r, ip, m);
    }
  }

  lemma FatesUnchanged(cfg: F.Config, c: Cache, io: Io, ip: u32)
    requires HeldReady(io) && io.frames.Keys == io.owner.Keys
    ensures Fates(cfg, c, io, io, ip)
  {
    forall m | m in io.owner && io.owner[m] == Held(ip)
      ensures FrameFate(cfg, c, io, io, ip, m)
    {
    }
  }

  lemma FatesOfExpired(cfg: F.Config, c: Cache, io: Io, ip: u32, k: nat, r: Io)
    requires Owned(io) && ip in io.pending && k < |io.pending[ip]|
    requires Fates(cfg, c, FreeHeld(io, ip, k), r, ip) && OthersKept(FreeHeld(io, ip, k), r, ip)
    ensures Fates(cfg, c, io, r, ip)
  {
    ListedIsOwned(io, Held(ip), k);
    hide Owned, Fates;
    FatesThroughStep(cfg, c, io, FreeHeld(io, ip, k), r, ip, io.pending[ip][k].m);
  }

  lemma FatesOfSent(cfg: F.Config, c: Cache, io: Io, ip: u32, k: nat, f: Frame, r: Io)
    requires Owned(io) && HeldReady(io) && ip in io.pending && k < |io.pending[ip]|
    requires F.FinishL2(cfg, c, FrameOf(io, io.pending[ip][k].m), ip) == Some(f)
    requires Fates(cfg, c, SendHeld(io, ip, k, f), r, ip) && OthersKept(SendHeld(io, ip, k, f), r, ip)
    ensures Fates(cfg, c, io, r, ip)
  {
    ListedIsOwned(io, Held(ip), k);
    hide Owned, Fates, SetL2, Ready;
    FinishStep(cfg, c, io, ip, k, f);
    SentFate(cfg, c, io, ip, k, f, r);
    hide HeldReady, FrameFate;
    FatesThroughStep(cfg, c, io, SendHeld(io, ip, k, f), r, ip, io.pending[ip][k].m);
  }

  /** The packet that was sent stays in the batch as it was put there. */
  lemma SentFate(cfg: F.Config, c: Cache, io: Io, ip: u32, k: nat, f: Frame, r: Io)
    requires ip in io.pending && k < |io.pending[ip]| && io.pending[ip][k].m in io.owner
    requires var e := io.pending[ip][k].m;
             ip in c && Ready(FrameOf(io, e), ip) && f == SetL2(FrameOf(io, e), cfg.gatewayMac, c[ip].mac)
    requires OthersKept(SendHeld(io, ip, k, f), r, ip)
    ensures FrameFate(cfg, c, io, r, ip, io.pending[ip][k].m)
  {
    var e, next := io.pending[ip][k].m, SendHeld(io, ip, k, f);
    ReadyLength(FrameOf(io, e), ip);
    hide Ready, SetL2;
    assert e in next.owner && next.owner[e] == InTx && FrameOf(next, e) == f;
    hide SendHeld, FrameOf;
  }

  lemma {:induction false} FlushFromFates(cfg: F.Config, c: Cache, io: Io, ip: u32, k: nat, now: u64)
    requires Owned(io) && HeldReady(io) && ip in io.pending
    ensures Fates(cfg, c, io, FlushFrom(cfg, c, io, ip, k, now), ip)
    decreases |io.pending[ip]| - k
  {
    var q := io.pending[ip];
    var r := FlushFrom(cfg, c, io, ip, k, now);
    if k >= |q| {
      FatesUnchanged(cfg, c, io, ip);
    } else {
      ListedIsOwned(io, Held(ip), k);
      hide Owned, ListAt, Fates, OthersKept, F.FinishL2, Expired, FrameOf, Ready;
      var e := q[k].m;
      if Expired(q[k], now) {
        var next := FreeHeld(io, ip, k);
        FreeHeldOwned(io, ip, k);
        FlushFromFates(cfg, c, next, ip, k, now);
        FlushFromOthers(cfg, c, next, ip, k, now);
        FatesOfExpired(cfg, c, io, ip, k, r);
      } else if F.FinishL2(cfg, c, FrameOf(io, e), ip).None? {
        FlushFromFates(cfg, c, io, ip, k + 1, now);
      } else {
        var f := F.FinishL2(cfg, c, FrameOf(io, e), ip).value;
        FinishStep(cfg, c, io, ip, k, f);
        if |io.tx| >= BURST {
          RelabelOwned(io, e, f);
          FlushFromFates(cfg, c, io.(frames := io.frames[e := f]), ip, k + 1, now);
          ReadyLength(FrameOf(io, e), ip);
          FatesThroughRelabel(cfg, c, io, ip, e, f, r);
        } else {
          SendHeldOwned(io, ip, k, f);
          FlushFromFates(cfg, c, SendHeld(io, ip, k, f), ip, k, now);
          FlushFromOthers(cfg, c, SendHeld(io, ip, k, f), ip, k, now);
          FatesOfSent(cfg, c, io, ip, k, f, r);
        }
      }
    }
  }

  lemma ReadyLength(f: Frame, ip: u32)
    requires Ready(f, ip)
    ensures ETH_LEN <= |f|
  {
  }

  /** A frame finished at position `k`: its header, and that its queue stays ready. */
  lemma FinishStep(cfg: F.Config, c: Cache, io: Io, ip: u32, k: nat, f: Frame)
    requires Owned(io) && HeldReady(io) && ip in io.pending && k < |io.pending[ip]|
    requires F.FinishL2(cfg, c, FrameOf(io, io.pending[ip][k].m), ip) == Some(f)
    ensures var e := io.pending[ip][k].m;
            && ip in c && Ready(FrameOf(io, e), ip) && Ready(f, ip)
            && f == SetL2(FrameOf(io, e), cfg.gatewayMac, c[ip].mac)
            && HeldReady(io.(frames := io.frames[e := f])) && HeldReady(SendHeld(io, ip, k, f))
  {
    ListedIsOwned(io, Held(ip), k);
    var e := io.pending[ip][k].m;
    hide Owned;
    assert Ready(FrameOf(io, e), ip);
    assert ip in c && f == SetL2(FrameOf(io, e), cfg.gatewayMac, c[ip].mac);
    hide Ready, SetL2, F.FinishL2, HeldReady;
    SetL2Ready(FrameOf(io, e), ip, cfg.gatewayMac, c[ip].mac);
    StaysReady(io, io.(frames := io.frames[e := f]), e, f, ip);
    StaysReady(io, SendHeld(io, ip, k, f), e, f, ip);
  }

  /** One frame replaced by one that is ready for the same address. */
  lemma StaysReady(io: Io, r: Io, e: Mbuf, f: Frame, ip: u32)
    requires HeldReady(io) && Ready(f, ip) && r.frames == io.frames[e := f]
    requires e in io.owner && io.owner[e] == Held(ip) && (r.owner == io.owner || r.owner == io.owner[e := InTx])
    ensures HeldReady(r)
  {
    hide Ready;
  }

  lemma FatesThroughRelabel(cfg: F.Config, c: Cache, io: Io, ip: u32, e: Mbuf, f: Frame, r: Io)
    requires e in io.owner && io.owner[e] == Held(ip) && ip in c && ETH_LEN <= |FrameOf(io, e)|
    requires f == SetL2(FrameOf(io, e), cfg.gatewayMac, c[ip].mac)
    requires Fates(cfg, c, io.(frames := io.frames[e := f]), r, ip)
    ensures Fates(cfg, c, io, r, ip)
  {
    var next := io.(frames := io.frames[e := f]);
    var g := FrameOf(io, e);
    forall m | m in io.owner && io.owner[m] == Held(ip)
      ensures FrameFate(cfg, c, io, r, ip, m)
    {
      assert FrameFate(cfg, c, next, r, ip, m);
      if m == e {
        SetL2Body(g, g, cfg.gatewayMac, c[ip].mac);
        SetL2Body(f, g, cfg.gatewayMac, c[ip].mac);
      }
    }
  }

  // --------------------------------------------------- a flush keeps the invariants

  lemma ReadyBody(a: Frame, b: Frame, ip: u32)
    requires Ready(b, ip) && SameBody(a, b)
    ensures Ready(a, ip)
  {
    ParseIgnoresMacs(b, a);
    hide Parse;
  }

  lemma SameFate(cfg: F.Config, c: Cache, io: Io, r: Io, d: Io, ip: u32, m: Mbuf)
    requires m in io.owner && FrameFate(cfg, c, io, r, ip, m)
    requires d.owner == r.owner && d.frames == r.frames
    ensures FrameFate(cfg, c, io, d, ip, m)
  {
  }

  lemma DropIfEmptyFates(cfg: F.Config, c: Cache, io: Io, r: Io, ip: u32)
    requires OthersKept(io, r, ip) && Fates(cfg, c, io, r, ip)
    ensures OthersKept(io, DropIfEmpty(r, ip), ip) && Fates(cfg, c, io, DropIfEmpty(r, ip), ip)
  {
    hide FrameFate;
    var d := DropIfEmpty(r, ip);
    assert d.owner == r.owner && d.frames == r.frames;
    forall m | m in io.owner && io.owner[m] == Held(ip)
      ensures FrameFate(cfg, c, io, d, ip, m)
    {
      assert FrameFate(cfg, c, io, r, ip, m);
      SameFate(cfg, c, io, r, d, ip, m);
    }
  }

  lemma FlushFates(cfg: F.Config, c: Cache, io: Io, ip: u32, now: u64)
    requires Owned(io) && HeldReady(io) && NonEmpty(io)
    ensures var r := Flush(cfg, c, io, ip, now); OthersKept(io, r, ip) && Fates(cfg, c, io, r, ip)
  {
    if ip in io.pending {
      FlushFromOthers(cfg, c, io, ip, 0, now);
      FlushFromFates(cfg, c, io, ip, 0, now);
      hide OthersKept, Fates, FlushFrom;
      DropIfEmptyFates(cfg, c, io, FlushFrom(cfg, c, io, ip, 0, now), ip);
    } else {
      forall m | m in io.owner && io.owner[m] == Held(ip)
        ensures FrameFate(cfg, c, io, io, ip, m)
      {
      }
    }
  }

  lemma FatesReady(cfg: F.Config, c: Cache, io: Io, r: Io, ip: u32)
    requires HeldReady(io) && OthersKept(io, r, ip) && Fates(cfg, c, io, r, ip)
    requires r.frames.Keys == r.owner.Keys && io.frames.Keys == io.owner.Keys
    ensures HeldReady(r)
  {
    forall m | m in r.owner && r.owner[m].Held?
      ensures m in r.frames && Ready(r.frames[m], r.owner[m].ip)
    {
      if io.owner[m] == Held(ip) {
        assert FrameFate(cfg, c, io, r, ip, m);
        ReadyBody(r.frames[m], io.frames[m], ip);
      } else {
        assert FrameOf(r, m) == FrameOf(io, m);
      }
    }
  }

  lemma {:induction false} FlushFromTimed(cfg: F.Config, c: Cache, io: Io, ip: u32, k: nat, now: u64, clock: u64)
    requires ip in io.pending && QueueOk(io.pending[ip], clock)
    ensures var r := FlushFrom(cfg, c, io, ip, k, now); ip in r.pending && QueueOk(r.pending[ip], clock)
    decreases |io.pending[ip]| - k
  {
    hide F.FinishL2, Expired, FrameOf;
    var q := io.pending[ip];
    if k < |q| {
      if Expired(q[k], now) {
        FlushFromTimed(cfg, c, FreeHeld(io, ip, k), ip, k, now, clock);
      } else {
        match F.FinishL2(cfg, c, FrameOf(io, q[k].m), ip) {
          case None => FlushFromTimed(cfg, c, io, ip, k + 1, now, clock);
          case Some(f) =>
            if |io.tx| >= BURST {
              FlushFromTimed(cfg, c, io.(frames := io.frames[q[k].m := f]), ip, k + 1, now, clock);
            } else {
              FlushFromTimed(cfg, c, SendHeld(io, ip, k, f), ip, k, now, clock);
            }
        }
      }
    }
  }

  /** All that is kept about held packets, between any two steps of the worker. */
  ghost predicate HeldInv(io: Io, clock: u64) {
    Owned(io) && Timed(io, clock) && NonEmpty(io) && HeldReady(io)
  }

  lemma FlushHeld(cfg: F.Config, c: Cache, io: Io, ip: u32, now: u64, clock: u64)
    requires HeldInv(io, clock)
    ensures HeldInv(Flush(cfg, c, io, ip, now), clock)
  {
    var r := Flush(cfg, c, io, ip, now);
    FlushOwned(cfg, c, io, ip, now);
    FlushFates(cfg, c, io, ip, now);
    FatesReady(cfg, c, io, r, ip);
    if ip in io.pending {
      FlushFromTimed(cfg, c, io, ip, 0, now, clock);
      FlushFromOthers(cfg, c, io, ip, 0, now);
    }
    hide FlushFrom, Owned, HeldReady, Fates;
  }

  // ------------------------------------------------------ the three-way split

  /** No packet from position `k` on has waited too long. */
  ghost predicate FreshFrom(q: seq<HeldPacket>, k: nat, now: u64) {
    forall i :: k <= i < |q| ==> !Expired(q[i], now)
  }

  /** With the neighbor unknown or the batch full, unexpired packets stay where they are. */
  lemma {:induction false} FlushKeeps(cfg: F.Config, c: Cache, io: Io, ip: u32, k: nat, now: u64)
    requires ip in io.pending && FreshFrom(io.pending[ip], k, now)
    requires ip !in c || BURST <= |io.tx|
    ensures var r := FlushFrom(cfg, c, io, ip, k, now);
            r.pending == io.pending && r.tx == io.tx && r.log == io.log
    decreases |io.pending[ip]| - k
  {
    hide FrameOf, Expired;
    var q := io.pending[ip];
    if k < |q| {
      match F.FinishL2(cfg, c, FrameOf(io, q[k].m), ip) {
        case None => FlushKeeps(cfg, c, io, ip, k + 1, now);
        case Some(f) => FlushKeeps(cfg, c, io.(frames := io.frames[q[k].m := f]), ip, k + 1, now);
      }
    }
  }

  function Frees(q: seq<HeldPacket>): (r: seq<Event>)
    ensures |r| == |q| && forall i :: 0 <= i < |q| ==> r[i] == Free(q[i].m)
  {
    seq(|q|, i requires 0 <= i < |q| => Free(q[i].m))
  }

  lemma SliceShift(q: seq<HeldPacket>, n: nat)
    requires 1 <= n <= |q|
    ensures var w := Without(q, 0);
            && w[n - 1..] == q[n..]
            && Ids(q[..n]) == [q[0].m] + Ids(w[..n - 1])
            && Frees(q[..n]) == [Free(q[0].m)] + Frees(w[..n - 1])
  {
  }

  ghost predicate StaleTo(q: seq<HeldPacket>, a: nat, now: u64) {
    a <= |q| && forall i :: 0 <= i < a ==> Expired(q[i], now)
  }

  lemma TailAges(q: seq<HeldPacket>, a: nat, now: u64)
    requires q != []
    ensures FreshFrom(q, 0, now) ==> FreshFrom(Without(q, 0), 0, now)
    ensures 1 <= a && StaleTo(q, a, now) ==> StaleTo(Without(q, 0), a - 1, now)
  {
  }

  /** One packet sent from the front. */
  lemma FirstSent(cfg: F.Config, c: Cache, io: Io, ip: u32, now: u64) returns (next: Io)
    requires Owned(io) && HeldReady(io) && ip in io.pending && ip in c && |io.tx| < BURST
    requires io.pending[ip] != [] && !Expired(io.pending[ip][0], now)
    ensures Owned(next) && HeldReady(next) && ip in next.pending
    ensures next.pending[ip] == Without(io.pending[ip], 0)
    ensures next.tx == io.tx + [io.pending[ip][0].m] && next.log == io.log
    ensures FlushFrom(cfg, c, io, ip, 0, now) == FlushFrom(cfg, c, next, ip, 0, now)
  {
    var m := io.pending[ip][0].m;
    ListedIsOwned(io, Held(ip), 0);
    assert Ready(FrameOf(io, m), ip);
    var f := F.FinishL2(cfg, c, FrameOf(io, m), ip).value;
    FinishStep(cfg, c, io, ip, 0, f);
    SendHeldOwned(io, ip, 0, f);
    hide Owned, HeldReady;
    next := SendHeld(io, ip, 0, f);
  }

  /** With the neighbor known, unexpired packets are sent from the front while there is room. */
  lemma {:induction false} FlushSends(cfg: F.Config, c: Cache, io: Io, ip: u32, now: u64)
    requires Owned(io) && HeldReady(io)
    requires ip in io.pending && ip in c && FreshFrom(io.pending[ip], 0, now) && |io.tx| <= BURST
    ensures var r, q := FlushFrom(cfg, c, io, ip, 0, now), io.pending[ip];
            var n := Min(|q|, BURST - |io.tx|);
            && ip in r.pending && r.pending[ip] == q[n..]
            && r.tx == io.tx + Ids(q[..n]) && r.log == io.log
    decreases |io.pending[ip]|
  {
    hide Owned, HeldReady, Expired;
    var q := io.pending[ip];
    if q == [] || BURST <= |io.tx| {
      FlushKeepsAll(cfg, c, io, ip, now);
      assert Ids(q[..0]) == [];
    } else {
      assert !Expired(q[0], now);
      hide FlushFrom, FreshFrom, Without, Ids;
      var next := FirstSent(cfg, c, io, ip, now);
      var n := Min(|q|, BURST - |io.tx|);
      var w := Without(q, 0);
      SliceShift(q, n);
      TailAges(q, 0, now);
      FlushSends(cfg, c, next, ip, now);
      Assoc(io.tx, [q[0].m], Ids(w[..n - 1]));
    }
  }

  lemma FlushKeepsAll(cfg: F.Config, c: Cache, io: Io, ip: u32, now: u64)
    requires ip in io.pending && FreshFrom(io.pending[ip], 0, now)
    requires ip !in c || BURST <= |io.tx| || io.pending[ip] == []
    ensures var r := FlushFrom(cfg, c, io, ip, 0, now);
            r.pending == io.pending && r.tx == io.tx && r.log == io.log
  {
    if io.pending[ip] != [] {
      FlushKeeps(cfg, c, io, ip, 0, now);
    }
  }

  /** One packet freed from the front. */
  lemma FirstFreed(cfg: F.Config, c: Cache, io: Io, ip: u32, now: u64)
    requires Owned(io) && HeldReady(io) && ip in io.pending
    requires io.pending[ip] != [] && Expired(io.pending[ip][0], now)
    ensures var next := FreeHeld(io, ip, 0);
            && Owned(next) && HeldReady(next)
            && FlushFrom(cfg, c, io, ip, 0, now) == FlushFrom(cfg, c, next, ip, 0, now)
  {
    FreeHeldOwned(io, ip, 0);
    hide Owned, Ready;
  }

  /** The expired packets at the front are freed, oldest first. */
  lemma {:induction false} FlushFrees(cfg: F.Config, c: Cache, io: Io, ip: u32, a: nat, now: u64) returns (next: Io)
    requires Owned(io) && HeldReady(io) && ip in io.pending && StaleTo(io.pending[ip], a, now)
    ensures Owned(next) && HeldReady(next) && ip in next.pending
    ensures next.pending[ip] == io.pending[ip][a..] && next.tx == io.tx
    ensures next.log == io.log + Frees(io.pending[ip][..a])
    ensures FlushFrom(cfg, c, io, ip, 0, now) == FlushFrom(cfg, c, next, ip, 0, now)
    decreases a
  {
    hide Owned, HeldReady, FlushFrom, Expired;
    var q := io.pending[ip];
    if a == 0 {
      next := io;
      assert Frees(q[..0]) == [];
    } else {
      assert Expired(q[0], now);
      hide StaleTo, Without, Frees;
      FirstFreed(cfg, c, io, ip, now);
      var one := FreeHeld(io, ip, 0);
      SliceShift(q, a);
      TailAges(q, a, now);
      next := FlushFrees(cfg, c, one, ip, a - 1, now);
      Assoc(io.log, [Free(q[0].m)], Frees(Without(q, 0)[..a - 1]));
    }
  }

  /** In a time-ordered queue the expired packets are a prefix. */
  lemma {:induction false} ExpiredPrefix(q: seq<HeldPacket>, now: u64) returns (a: nat)
    requires QueueOk(q, now)
    ensures a <= |q|
    ensures forall i :: 0 <= i < |q| ==> (Expired(q[i], now) <==> i < a)
  {
    a := 0;
    while a < |q| && Expired(q[a], now)
      invariant a <= |q|
      invariant forall i :: 0 <= i < a ==> Expired(q[i], now)
    {
      a := a + 1;
    }
  }

  /**
   `flush_pending` cuts the queue, in order, into an expired prefix that is freed, a middle part
   appended to the transmit batch as far as it has room, and a suffix that stays queued. With the
   neighbor unknown or the batch full (or over-full) the middle part is empty.
   */
  lemma FlushSplits(cfg: F.Config, c: Cache, io: Io, ip: u32, now: u64) returns (a: nat, b: nat)
    requires HeldInv(io, now) && ip in io.pending
    ensures a <= b <= |io.pending[ip]|
    ensures forall i :: 0 <= i < |io.pending[ip]| ==> (Expired(io.pending[ip][i], now) <==> i < a)
    ensures b - a == if ip in c && |io.tx| < 32 then Min(|io.pending[ip]| - a, 32 - |io.tx|) else 0
    ensures var r, q := Flush(cfg, c, io, ip, now), io.pending[ip];
            && QueueOf(r, ip) == q[b..] && (ip in r.pending <==> b < |q|)
            && r.tx == io.tx + Ids(q[a..b])
            && r.log == io.log + Frees(q[..a])
  {
    hide Owned, HeldReady, FlushFrom, Expired, NonEmpty;
    var q := io.pending[ip];
    a := ExpiredPrefix(q, now);
    var next := FlushFrees(cfg, c, io, ip, a, now);
    var rest := next.pending[ip];
    assert forall i :: 0 <= i < |rest| ==> rest[i] == q[a + i];
    if ip in c && |io.tx| < BURST {
      var n := Min(|rest|, BURST - |io.tx|);
      FlushSends(cfg, c, next, ip, now);
      b := a + n;
      assert rest[n..] == q[b..] && rest[..n] == q[a..b];
    } else {
      FlushKeepsAll(cfg, c, next, ip, now);
      b := a;
      assert Ids(q[a..b]) == [];
    }
    FlushUnfold(cfg, c, io, ip, now);
  }

  /** A packet held for any address is still held or sent after a flush, unless it was freed. */
  lemma FlushKeepsUnlessFreed(cfg: F.Config, c: Cache, io: Io, ip: u32, now: u64, m: Mbuf)
    requires HeldInv(io, now) && m in io.owner
    ensures var r := Flush(cfg, c, io, ip, now);
            OnlyFrees(io.log, r.log) && (m in r.owner <==> !Freed(io.log, r.log, m))
  {
    var r := Flush(cfg, c, io, ip, now);
    if ip in io.pending {
      var a, b := FlushSplits(cfg, c, io, ip, now);
      assert OnlyFrees(io.log, r.log);
    }
    FlushOwned(cfg, c, io, ip, now);
    hide Flush, AllPlaces, HeldReady;
    FreedIsGone(io, r, m);
  }

  lemma FlushUnfold(cfg: F.Config, c: Cache, io: Io, ip: u32, now: u64)
    requires NonEmpty(io) && ip in io.pending && Owned(io)
    ensures var r := FlushFrom(cfg, c, io, ip, 0, now);
            && Flush(cfg, c, io, ip, now) == DropIfEmpty(r, ip) && ip in r.pending
  {
    FlushFromOthers(cfg, c, io, ip, 0, now);
  }
}
