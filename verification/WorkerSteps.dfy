/**
 The remaining worker operations on held packets and probes: expiry, receiving, holding,
 probing and draining keep the invariants, and probes to one address are rate limited.
 */
module WorkerSteps {
  import opened Base
  import opened Packet
  import opened Arp
  import opened Worker
  import opened Ownership
  import opened HeldPackets
  import opened Neighbors
  import F = Forward

  // ----------------------------------------------------------- queue expiry

  /** The packets of a queue that have not waited too long, in order. */
  function Unexpired(q: seq<HeldPacket>, now: u64): seq<HeldPacket> {
    if q == [] then []
    else if Expired(q[0], now) then Unexpired(q[1..], now)
    else [q[0]] + Unexpired(q[1..], now)
  }

  lemma UnexpiredStep(q: seq<HeldPacket>, k: nat, now: u64)
    requires k < |q|
    ensures Expired(q[k], now) ==>
              && Without(q, k)[..k] == q[..k]
              && Unexpired(q[k..], now) == Unexpired(Without(q, k)[k..], now)
    ensures !Expired(q[k], now) ==> q[..k] + Unexpired(q[k..], now) == q[..k + 1] + Unexpired(q[k + 1..], now)
  {
    assert Without(q, k)[k..] == q[k + 1..];
    assert q[k..][1..] == q[k + 1..];
    if !Expired(q[k], now) {
      assert Unexpired(q[k..], now) == [q[k]] + Unexpired(q[k + 1..], now);
      assert q[..k + 1] == q[..k] + [q[k]];
    }
  }

  lemma {:induction false} ExpireFromExact(io: Io, ip: u32, k: nat, now: u64)
    requires Owned(io) && ip in io.pending && k <= |io.pending[ip]|
    ensures var r, q := ExpireFrom(io, ip, k, now), io.pending[ip];
            && Owned(r) && OthersKept(io, r, ip)
            && ip in r.pending && r.pending[ip] == q[..k] + Unexpired(q[k..], now)
    decreases |io.pending[ip]| - k
  {
    hide Owned, Expired, OthersKept;
    var q := io.pending[ip];
    if k == |q| {
      OthersKeptReflexive(io, ip);
      assert q[..k] + Unexpired(q[k..], now) == q;
    } else {
      UnexpiredStep(q, k, now);
      hide Unexpired;
      if Expired(q[k], now) {
        var next := FreeHeld(io, ip, k);
        FreeHeldOwned(io, ip, k);
        FreeHeldOthers(io, ip, k);
        ExpireFromExact(next, ip, k, now);
        OthersKeptTransitive(io, next, ExpireFrom(io, ip, k, now), ip);
      } else {
        ExpireFromExact(io, ip, k + 1, now);
      }
    }
  }

  lemma OthersKeptReflexive(io: Io, ip: u32)
    ensures OthersKept(io, io, ip)
  {
  }

  lemma DropIfEmptyOthers(io: Io, r: Io, ip: u32)
    requires OthersKept(io, r, ip)
    ensures OthersKept(io, DropIfEmpty(r, ip), ip)
  {
  }

  lemma ExpireQueueExact(io: Io, ip: u32, now: u64)
    requires Owned(io)
    ensures var r := ExpireQueue(io, ip, now);
            && Owned(r) && OthersKept(io, r, ip) && QueueOf(r, ip) == Unexpired(QueueOf(io, ip), now)
            && (ip in r.pending ==> r.pending[ip] != [])
  {
    if ip in io.pending {
      ExpireFromExact(io, ip, 0, now);
      var r, q := ExpireFrom(io, ip, 0, now), io.pending[ip];
      hide ExpireFrom, Unexpired, Owned, OthersKept;
      assert q[..0] + Unexpired(q[0..], now) == Unexpired(q, now) by { assert q[0..] == q && q[..0] == []; }
      DropIfEmptyOwned(r, ip);
      DropIfEmptyOthers(io, r, ip);
    } else {
      OthersKeptReflexive(io, ip);
    }
  }

  /** `expire_pending` leaves every queue with exactly its unexpired packets, in order. */
  lemma {:induction false} ExpirePendingExact(io: Io, ips: seq<u32>, now: u64)
    requires Owned(io) && NoDup(ips)
    ensures var r := ExpirePending(io, ips, now);
            && Owned(r)
            && (forall ip: u32 :: QueueOf(r, ip) == if ip in ips then Unexpired(QueueOf(io, ip), now) else QueueOf(io, ip))
            && (forall ip: u32 :: ip in r.pending && ip in ips ==> r.pending[ip] != [])
            && (forall ip: u32 :: ip in r.pending ==> ip in io.pending)
  {
    hide Owned, Unexpired;
    if ips != [] {
      var k := |ips| - 1;
      var ip := ips[k];
      assert ips == ips[..k] + [ip] && ip !in ips[..k];
      ExpirePendingExact(io, ips[..k], now);
      ExpireQueueExact(ExpirePending(io, ips[..k], now), ip, now);
      hide ExpireQueue;
    }
  }

  /** Buffers may go; the rest keep their place and their bytes. */
  ghost predicate Shrunk(io: Io, r: Io) {
    && r.rx == io.rx && r.tx == io.tx && r.drop == io.drop && r.probed == io.probed && r.probes == io.probes
    && forall m :: m in r.owner ==> m in io.owner && r.owner[m] == io.owner[m] && FrameOf(r, m) == FrameOf(io, m)
  }

  lemma FreeHeldShrunk(io: Io, ip: u32, k: nat)
    requires ip in io.pending && k < |io.pending[ip]|
    ensures Shrunk(io, FreeHeld(io, ip, k))
  {
  }

  lemma {:induction false} ExpireFromShrunk(io: Io, ip: u32, k: nat, now: u64)
    requires ip in io.pending
    ensures Shrunk(io, ExpireFrom(io, ip, k, now))
    decreases |io.pending[ip]| - k
  {
    hide Expired, FrameOf;
    if k < |io.pending[ip]| {
      if Expired(io.pending[ip][k], now) {
        FreeHeldShrunk(io, ip, k);
        ExpireFromShrunk(FreeHeld(io, ip, k), ip, k, now);
      } else {
        ExpireFromShrunk(io, ip, k + 1, now);
      }
    }
  }

  lemma {:induction false} ExpirePendingShrunk(io: Io, ips: seq<u32>, now: u64)
    ensures Shrunk(io, ExpirePending(io, ips, now))
  {
    if ips != [] {
      var before := ExpirePending(io, ips[..|ips| - 1], now);
      var ip := ips[|ips| - 1];
      ExpirePendingShrunk(io, ips[..|ips| - 1], now);
      if ip in before.pending {
        ExpireFromShrunk(before, ip, 0, now);
        hide ExpireFrom;
      }
    }
  }

  lemma {:induction false} ExpireFromFrees(io: Io, ip: u32, k: nat, now: u64)
    requires ip in io.pending
    ensures OnlyFrees(io.log, ExpireFrom(io, ip, k, now).log)
    decreases |io.pending[ip]| - k
  {
    hide Expired;
    if k < |io.pending[ip]| {
      if Expired(io.pending[ip][k], now) {
        var next := FreeHeld(io, ip, k);
        ExpireFromFrees(next, ip, k, now);
        OnlyFreesTransitive(io.log, next.log, ExpireFrom(next, ip, k, now).log);
      } else {
        ExpireFromFrees(io, ip, k + 1, now);
      }
    }
  }

  lemma {:induction false} ExpirePendingFrees(io: Io, ips: seq<u32>, now: u64)
    ensures OnlyFrees(io.log, ExpirePending(io, ips, now).log)
  {
    if ips != [] {
      var before := ExpirePending(io, ips[..|ips| - 1], now);
      var ip := ips[|ips| - 1];
      ExpirePendingFrees(io, ips[..|ips| - 1], now);
      if ip in before.pending {
        ExpireFromFrees(before, ip, 0, now);
        hide ExpireFrom;
        OnlyFreesTransitive(io.log, before.log, ExpireFrom(before, ip, 0, now).log);
      }
    }
  }

  lemma {:induction false} UnexpiredOk(q: seq<HeldPacket>, now: u64, clock: u64)
    requires QueueOk(q, clock)
    ensures QueueOk(Unexpired(q, now), clock)
    ensures |Unexpired(q, now)| <= |q|
    ensures forall i :: 0 <= i < |Unexpired(q, now)| && q != [] ==> q[0].since <= Unexpired(q, now)[i].since
  {
    if q != [] {
      UnexpiredOk(q[1..], now, clock);
    }
  }

  lemma TimedLater(io: Io, clock: u64, now: u64)
    requires HeldInv(io, clock) && clock <= now
    ensures HeldInv(io, now)
  {
    hide Owned, HeldReady;
  }

  lemma ExpireHeldKept(io: Io, ips: seq<u32>, now: u64)
    requires HeldInv(io, now) && NoDup(ips) && forall ip :: ip in io.pending ==> ip in ips
    ensures HeldInv(ExpirePending(io, ips, now), now)
  {
    hide Unexpired, AllPlaces, Ready, QueueOk, ExpirePending;
    var r := ExpirePending(io, ips, now);
    ExpirePendingExact(io, ips, now);
    ExpirePendingShrunk(io, ips, now);
    assert LedgerOk(io) && LedgerOk(r);
    KeptReady(io, r);
    hide Owned, HeldReady;
    forall ip | ip in r.pending
      ensures QueueOk(r.pending[ip], now) && ip != 0
    {
      UnexpiredOk(io.pending[ip], now, now);
      assert QueueOf(r, ip) == Unexpired(QueueOf(io, ip), now);
    }
  }

  // ------------------------------------------------- how long packets are held

  /** At time `t` no packet still in a queue had reached the timeout. */
  ghost predicate NoneOverdue(io: Io, t: u64) {
    forall ip, i :: ip in io.pending && 0 <= i < |io.pending[ip]| ==> t < io.pending[ip][i].since + 5_000
  }

  lemma {:induction false} UnexpiredYoung(q: seq<HeldPacket>, now: u64)
    requires forall i :: 0 <= i < |q| ==> q[i].since <= now
    ensures forall i :: 0 <= i < |Unexpired(q, now)| ==> now < Unexpired(q, now)[i].since + PENDING_TIMEOUT
  {
    if q != [] {
      UnexpiredYoung(q[1..], now);
    }
  }

  lemma ExpiryLeavesYoung(io: Io, ips: seq<u32>, now: u64)
    requires HeldInv(io, now) && NoDup(ips) && forall ip :: ip in io.pending ==> ip in ips
    ensures NoneOverdue(ExpirePending(io, ips, now), now)
  {
    var r := ExpirePending(io, ips, now);
    ExpirePendingExact(io, ips, now);
    hide ExpirePending, Unexpired, Owned, HeldReady;
    forall ip, i | ip in r.pending && 0 <= i < |r.pending[ip]|
      ensures now < r.pending[ip][i].since + PENDING_TIMEOUT
    {
      UnexpiredYoung(io.pending[ip], now);
      assert QueueOf(r, ip) == Unexpired(QueueOf(io, ip), now);
    }
  }

  /** A flush only takes packets out. */
  lemma FlushNoneOverdue(cfg: F.Config, c: Cache, io: Io, ip: u32, now: u64, t: u64)
    requires HeldInv(io, now) && NoneOverdue(io, t)
    ensures NoneOverdue(Flush(cfg, c, io, ip, now), t)
  {
    var r := Flush(cfg, c, io, ip, now);
    if ip in io.pending {
      var a, b := FlushSplits(cfg, c, io, ip, now);
      FlushFates(cfg, c, io, ip, now);
      hide Flush, HeldInv, Fates;
      var q := io.pending[ip];
      forall x, i | x in r.pending && 0 <= i < |r.pending[x]|
        ensures t < r.pending[x][i].since + PENDING_TIMEOUT
      {
        if x == ip {
          assert r.pending[ip][i] == q[b + i];
        }
      }
    }
  }

  lemma EnqueueNoneOverdue(io: Io, ip: u32, now: u64, t: u64)
    requires io.rx != [] && NoneOverdue(io, t) && t <= now
    ensures NoneOverdue(Enqueue(io, ip, now), t)
  {
  }

  // --------------------------------------------------- receiving and draining

  lemma {:induction false} ReceiveEffect(io: Io, burst: seq<(Mbuf, Frame)>)
    requires FreshBurst(io, burst)
    ensures var r := Receive(io, burst);
            && r.tx == io.tx && r.drop == io.drop && r.pending == io.pending
            && r.probed == io.probed && r.probes == io.probes
            && |r.rx| == |io.rx| + |burst|
            && (forall m :: m in io.owner ==> m in r.owner && r.owner[m] == io.owner[m] && FrameOf(r, m) == FrameOf(io, m))
            && (forall m :: m in r.owner && m !in io.owner ==>
                  r.owner[m] == InRx && exists i :: 0 <= i < |burst| && burst[i] == (m, FrameOf(r, m)))
  {
    if burst != [] {
      var k := |burst| - 1;
      var r, before := Receive(io, burst), Receive(io, burst[..k]);
      ReceiveEffect(io, burst[..k]);
      forall m | m in r.owner && m !in io.owner
        ensures r.owner[m] == InRx && exists i :: 0 <= i < |burst| && burst[i] == (m, FrameOf(r, m))
      {
        if m == burst[k].0 {
          assert burst[k] == (m, FrameOf(r, m));
        } else {
          var i :| 0 <= i < k && burst[..k][i] == (m, FrameOf(before, m));
          assert burst[i] == (m, FrameOf(r, m));
        }
      }
    }
  }

  lemma ReceiveHeld(io: Io, burst: seq<(Mbuf, Frame)>, clock: u64)
    requires HeldInv(io, clock) && FreshBurst(io, burst)
    ensures HeldInv(Receive(io, burst), clock)
  {
    hide AllPlaces, Ready, Receive;
    ReceiveOwned(io, burst);
    ReceiveEffect(io, burst);
    var r := Receive(io, burst);
    assert LedgerOk(io) && LedgerOk(r);
    KeptReady(io, r);
    hide Owned, HeldReady;
  }

  /** Whoever is held was held before, for the same address and with the same bytes. */
  lemma KeptReady(io: Io, r: Io)
    requires HeldReady(io) && io.frames.Keys == io.owner.Keys && r.frames.Keys == r.owner.Keys
    requires forall m :: m in r.owner && r.owner[m].Held? ==>
               m in io.owner && r.owner[m] == io.owner[m] && FrameOf(r, m) == FrameOf(io, m)
    ensures HeldReady(r)
  {
    hide Ready;
    forall m | m in r.owner && r.owner[m].Held?
      ensures m in r.frames && Ready(r.frames[m], r.owner[m].ip)
    {
      assert FrameOf(r, m) == FrameOf(io, m);
    }
  }

  lemma {:induction false} DrainShrunk(io: Io, sent: nat)
    ensures var r := Drain(io, sent);
            && r.pending == io.pending && r.rx == io.rx && r.probed == io.probed && r.probes == io.probes
            && forall m :: m in r.owner ==> m in io.owner && r.owner[m] == io.owner[m] && FrameOf(r, m) == FrameOf(io, m)
    decreases |io.tx| + |io.drop|
  {
    if io.tx != [] {
      DrainShrunk(Release(io.(tx := io.tx[1..]), io.tx[0], sent > 0), if sent > 0 then sent - 1 else 0);
    } else if io.drop != [] {
      DrainShrunk(Release(io.(drop := io.drop[1..]), io.drop[0], false), 0);
    }
  }

  lemma DrainHeld(io: Io, sent: nat, clock: u64)
    requires HeldInv(io, clock)
    ensures HeldInv(Drain(io, sent), clock)
  {
    hide AllPlaces, Ready, Drain;
    DrainOwned(io, sent);
    DrainShrunk(io, sent);
    assert LedgerOk(io) && LedgerOk(Drain(io, sent));
    KeptReady(io, Drain(io, sent));
    hide Owned, HeldReady;
  }

  // ------------------------------------------------------ disposing of a packet

  lemma RelabelRxHeld(io: Io, m: Mbuf, f: Frame, clock: u64)
    requires HeldInv(io, clock) && m in io.owner && io.owner[m] == InRx
    ensures HeldInv(io.(frames := io.frames[m := f]), clock)
  {
    RelabelOwned(io, m, f);
    hide Owned, Ready;
  }

  lemma DispatchHeld(io: Io, clock: u64)
    requires HeldInv(io, clock) && io.rx != []
    ensures HeldInv(ToDrop(io), clock) && HeldInv(ToTx(io), clock)
  {
    DispatchOwned(io);
    hide Owned, Ready;
  }

  lemma EnqueueReady(io: Io, ip: u32, now: u64)
    requires HeldReady(io) && io.rx != [] && ip != 0 && Ready(FrameOf(io, io.rx[0]), ip)
    requires io.frames.Keys == io.owner.Keys && io.rx[0] in io.owner
    ensures HeldReady(Enqueue(io, ip, now))
  {
    hide Ready;
  }

  /** A frame ready for `ip` may be held for it. */
  lemma EnqueueHeld(io: Io, ip: u32, now: u64)
    requires HeldInv(io, now) && io.rx != [] && ip != 0 && Ready(FrameOf(io, io.rx[0]), ip)
    ensures HeldInv(Enqueue(io, ip, now), now)
  {
    EnqueueOwned(io, ip, now);
    ListedIsOwned(io, InRx, 0);
    assert LedgerOk(io);
    EnqueueReady(io, ip, now);
    hide Owned, HeldReady, Ready;
    var q := QueueOf(io, ip);
    assert |q| < PENDING_MAX ==> QueueOk(q + [HeldPacket(io.rx[0], now)], now);
  }

  lemma ProbeHeld(cfg: ArpConfig, io: Io, ip: u32, now: u64, alloc: Option<Mbuf>, clock: u64)
    requires HeldInv(io, clock) && (alloc.Some? ==> alloc.value !in io.owner)
    ensures HeldInv(Probe(cfg, io, ip, now, alloc), clock)
  {
    hide Owned, HeldReady, Probe;
    ProbeOwned(cfg, io, ip, now, alloc);
    ProbeReady(cfg, io, ip, now, alloc);
    ProbePending(cfg, io, ip, now, alloc);
  }

  lemma ProbePending(cfg: ArpConfig, io: Io, ip: u32, now: u64, alloc: Option<Mbuf>)
    ensures Probe(cfg, io, ip, now, alloc).pending == io.pending
  {
    hide MakeRequest;
  }

  lemma ProbeReady(cfg: ArpConfig, io: Io, ip: u32, now: u64, alloc: Option<Mbuf>)
    requires HeldReady(io) && (alloc.Some? ==> alloc.value !in io.owner)
    ensures HeldReady(Probe(cfg, io, ip, now, alloc))
  {
    hide MakeRequest, Ready;
  }

  // ----------------------------------------------------------- the probe rate

  /** Recorded probes: none from the future, and those to one address spaced out. */
  ghost predicate ProbesOk(io: Io, clock: u64) {
    && (forall ip :: ip in io.probed ==> io.probed[ip] <= clock)
    && (forall i :: 0 <= i < |io.probes| ==>
          io.probes[i].ip in io.probed && io.probes[i].at <= io.probed[io.probes[i].ip])
    && Spaced(io.probes)
  }

  ghost predicate Spaced(ps: seq<ProbeRecord>) {
    forall i, j :: 0 <= i < j < |ps| && ps[i].ip == ps[j].ip ==> ps[i].at + PROBE_INTERVAL <= ps[j].at
  }

  lemma ProbeSpaced(cfg: ArpConfig, io: Io, ip: u32, now: u64, alloc: Option<Mbuf>, clock: u64)
    requires ProbesOk(io, clock) && clock <= now
    ensures ProbesOk(Probe(cfg, io, ip, now, alloc), now)
  {
    hide MakeRequest;
  }

  /** Probes to `ip` recorded in the window from `lo` to `hi`. */
  ghost function ProbesIn(ps: seq<ProbeRecord>, ip: u32, lo: u64, hi: u64): nat {
    if ps == [] then 0
    else
      var p := ps[|ps| - 1];
      ProbesIn(ps[..|ps| - 1], ip, lo, hi) + if p.ip == ip && lo <= p.at <= hi then 1 else 0
  }

  /** The last of `n` spaced probes in the window is at least `n - 1` intervals after its start. */
  lemma {:induction false} ProbesSpread(ps: seq<ProbeRecord>, ip: u32, lo: u64, hi: u64)
    requires Spaced(ps)
    ensures var n := ProbesIn(ps, ip, lo, hi);
            n > 0 ==> exists i :: 0 <= i < |ps| && ps[i].ip == ip && lo + (n - 1) * PROBE_INTERVAL <= ps[i].at <= hi
  {
    if ps != [] {
      var k := |ps| - 1;
      var init := ps[..k];
      ProbesSpread(init, ip, lo, hi);
      var m := ProbesIn(init, ip, lo, hi);
      if ps[k].ip == ip && lo <= ps[k].at <= hi {
        if m > 0 {
          var i :| 0 <= i < |init| && init[i].ip == ip && lo + (m - 1) * PROBE_INTERVAL <= init[i].at <= hi;
          assert ps[i] == init[i];
        }
        assert ps[k].ip == ip && lo + m * PROBE_INTERVAL <= ps[k].at <= hi;
      } else if m > 0 {
        var i :| 0 <= i < |init| && init[i].ip == ip && lo + (m - 1) * PROBE_INTERVAL <= init[i].at <= hi;
        assert ps[i] == init[i];
      }
    }
  }

  /** At most `T/1000 + 1` probes per address in any window of `T` ms. */
  lemma ProbeRate(ps: seq<ProbeRecord>, ip: u32, lo: u64, hi: u64)
    requires Spaced(ps) && lo <= hi
    ensures ProbesIn(ps, ip, lo, hi) <= (hi - lo) / PROBE_INTERVAL + 1
  {
    ProbesSpread(ps, ip, lo, hi);
  }
}
