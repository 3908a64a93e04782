/**
 Packets held for one address leave in the order in which they came: over every run, of two packets
 in a queue the one in front is sent or freed before the other is sent.
 */
module HoldOrder {
  import opened Base
  import opened Packet
  import opened Neighbors
  import opened Arp
  import opened Worker
  import opened Ownership
  import opened HeldPackets
  import opened WorkerSteps
  import opened Gateway
  import opened GatewayProofs
  import opened RunTheorems
  import F = Forward

  // ------------------------------------------------------------------ order

  ghost predicate Before(s: seq<Mbuf>, a: Mbuf, b: Mbuf) {
    exists i, j :: 0 <= i < j < |s| && s[i] == a && s[j] == b
  }

  lemma BeforeAt(s: seq<Mbuf>, i: nat, j: nat)
    requires i < j < |s|
    ensures Before(s, s[i], s[j])
  {
  }

  lemma BeforeAppended(s: seq<Mbuf>, t: seq<Mbuf>, a: Mbuf, b: Mbuf)
    requires Before(s, a, b)
    ensures Before(s + t, a, b)
  {
    var i, j :| 0 <= i < j < |s| && s[i] == a && s[j] == b;
    BeforeAt(s + t, i, j);
  }

  lemma BeforePrepended(s: seq<Mbuf>, t: seq<Mbuf>, a: Mbuf, b: Mbuf)
    requires Before(t, a, b)
    ensures Before(s + t, a, b)
  {
    var i, j :| 0 <= i < j < |t| && t[i] == a && t[j] == b;
    assert (s + t)[|s| + i] == a && (s + t)[|s| + j] == b;
    BeforeAt(s + t, |s| + i, |s| + j);
  }

  /** Something inserted changes no order. */
  lemma BeforeInserted(s: seq<Mbuf>, mid: seq<Mbuf>, t: seq<Mbuf>, a: Mbuf, b: Mbuf)
    requires Before(s + t, a, b)
    ensures Before(s + mid + t, a, b)
  {
    var i, j :| 0 <= i < j < |s + t| && (s + t)[i] == a && (s + t)[j] == b;
    var i', j' := if i < |s| then i else i + |mid|, if j < |s| then j else j + |mid|;
    assert (s + mid + t)[i'] == a && (s + mid + t)[j'] == b;
    BeforeAt(s + mid + t, i', j');
  }

  lemma MiddleMember(s: seq<Mbuf>, mid: seq<Mbuf>, t: seq<Mbuf>, i: nat)
    requires |s| <= i < |s| + |mid|
    ensures (s + mid + t)[i] in mid
  {
    assert (s + mid + t)[i] == mid[i - |s|];
  }

  lemma Outside(s: seq<Mbuf>, mid: seq<Mbuf>, t: seq<Mbuf>, i: nat)
    requires i < |s + mid + t| && (s + mid + t)[i] !in mid
    ensures !(|s| <= i < |s| + |mid|)
  {
    if |s| <= i < |s| + |mid| {
      MiddleMember(s, mid, t, i);
    }
  }

  /** Neither does something else taken out. */
  lemma BeforeRemoved(s: seq<Mbuf>, mid: seq<Mbuf>, t: seq<Mbuf>, a: Mbuf, b: Mbuf)
    requires Before(s + mid + t, a, b) && a !in mid && b !in mid
    ensures Before(s + t, a, b)
  {
    var u := s + mid + t;
    var i, j :| 0 <= i < j < |u| && u[i] == a && u[j] == b;
    Outside(s, mid, t, i);
    Outside(s, mid, t, j);
    var i', j' := if i < |s| then i else i - |mid|, if j < |s| then j else j - |mid|;
    assert (s + t)[i'] == a && (s + t)[j'] == b;
    BeforeAt(s + t, i', j');
  }

  lemma BeforeMembers(s: seq<Mbuf>, a: Mbuf, b: Mbuf)
    requires Before(s, a, b)
    ensures a in s && b in s
  {
  }

  // ------------------------------------------------------------ what is kept

  /** The transmit batch, and behind it the packets held for `ip`. */
  ghost function Line(io: Io, ip: u32): seq<Mbuf> {
    io.tx + Ids(QueueOf(io, ip))
  }

  ghost predicate GivenUp(e: Event, m: Mbuf) {
    e == Send(m) || e == Free(m)
  }

  /** Since `n`, `a` was given up or `b` freed, and `b` had not been sent by then. */
  ghost predicate Settled(log: seq<Event>, n: nat, a: Mbuf, b: Mbuf) {
    exists i :: n <= i < |log| && (GivenUp(log[i], a) || log[i] == Free(b))
                && forall k :: n <= k < i ==> log[k] != Send(b)
  }

  /** Since `n`, nothing has happened to either. */
  ghost predicate Open(log: seq<Event>, n: nat, a: Mbuf, b: Mbuf) {
    n <= |log| && forall k :: n <= k < |log| ==> !GivenUp(log[k], a) && !GivenUp(log[k], b)
  }

  /** It is settled that `a` goes first, or both are still in line, `a` in front. */
  ghost predicate Ordered(io: Io, ip: u32, n: nat, a: Mbuf, b: Mbuf) {
    || Settled(io.log, n, a, b)
    || (Open(io.log, n, a, b) && Before(Line(io, ip), a, b))
  }

  lemma SettledAt(log: seq<Event>, n: nat, a: Mbuf, b: Mbuf, i: nat)
    requires n <= i < |log| && (GivenUp(log[i], a) || log[i] == Free(b)) && forall k :: n <= k < i ==> log[k] != Send(b)
    ensures Settled(log, n, a, b)
  {
  }

  lemma SettledLater(log: seq<Event>, later: seq<Event>, n: nat, a: Mbuf, b: Mbuf)
    requires Settled(log, n, a, b) && log <= later
    ensures Settled(later, n, a, b)
  {
    var i :| n <= i < |log| && (GivenUp(log[i], a) || log[i] == Free(b)) && forall k :: n <= k < i ==> log[k] != Send(b);
    SettledAt(later, n, a, b, i);
  }

  /** If all that is logged are frees, then either one of the two is among them or nothing happened to them. */
  lemma FreesSettle(log: seq<Event>, later: seq<Event>, n: nat, a: Mbuf, b: Mbuf)
    requires Open(log, n, a, b) && OnlyFrees(log, later)
    ensures Freed(log, later, a) || Freed(log, later, b) ==> Settled(later, n, a, b)
    ensures !Freed(log, later, a) && !Freed(log, later, b) ==> Open(later, n, a, b)
  {
    if Freed(log, later, a) || Freed(log, later, b) {
      var m := if Freed(log, later, a) then a else b;
      var i :| |log| <= i < |later| && later[i] == Free(m);
      assert forall k :: n <= k < |log| ==> later[k] == log[k];
      SettledAt(later, n, a, b, i);
    }
  }

  /** Whoever is in line is in the batch or in the queue, so not at hand and not in the pool. */
  lemma InLine(io: Io, ip: u32, m: Mbuf)
    requires Owned(io) && m in Line(io, ip)
    ensures m in io.owner && (io.owner[m] == InTx || io.owner[m] == Held(ip))
    ensures m in io.tx <==> io.owner[m] == InTx
  {
    assert PlaceOwned(io, InTx) && PlaceOwned(io, Held(ip));
  }

  lemma LineAt(io: Io, ip: u32, i: nat)
    requires Owned(io) && i < |Line(io, ip)|
    ensures Line(io, ip)[i] in io.owner
    ensures io.owner[Line(io, ip)[i]] == if i < |io.tx| then InTx else Held(ip)
  {
    if i < |io.tx| {
      ListedIsOwned(io, InTx, i);
    } else {
      ListedIsOwned(io, Held(ip), i - |io.tx|);
    }
  }

  lemma LineNoDup(io: Io, ip: u32)
    requires Owned(io)
    ensures NoDup(Line(io, ip))
  {
    var line, ids := Line(io, ip), Ids(QueueOf(io, ip));
    assert PlaceOwned(io, InTx) && PlaceOwned(io, Held(ip));
    assert NoDup(io.tx) && NoDup(ids);
    hide Owned, PlaceOwned;
    forall i, j | 0 <= i < j < |line|
      ensures line[i] != line[j]
    {
      LineAt(io, ip, i);
      LineAt(io, ip, j);
      if i >= |io.tx| {
        assert ids[i - |io.tx|] != ids[j - |io.tx|];
      }
    }
  }

  // -------------------------------------------------------------- each operation

  lemma FlushOrdered(cfg: F.Config, c: Cache, io: Io, at: u32, now: u64, ip: u32, n: nat, a: Mbuf, b: Mbuf)
    requires HeldInv(io, now) && Ordered(io, ip, n, a, b)
    ensures Ordered(Flush(cfg, c, io, at, now), ip, n, a, b)
  {
    var r := Flush(cfg, c, io, at, now);
    if at in io.pending {
      var x, y := FlushSplits(cfg, c, io, at, now);
      FlushFates(cfg, c, io, at, now);
      var q := io.pending[at];
      hide Flush, HeldInv, Fates, FrameOf;
      assert OnlyFrees(io.log, r.log);
      if Settled(io.log, n, a, b) {
        SettledLater(io.log, r.log, n, a, b);
      } else {
        FreesSettle(io.log, r.log, n, a, b);
        if Open(r.log, n, a, b) {
          if at == ip {
            FlushedLine(io, r, ip, x, y, a, b);
          } else {
            assert QueueOf(r, ip) == QueueOf(io, ip);
            BeforeInserted(io.tx, Ids(q[x..y]), Ids(QueueOf(io, ip)), a, b);
          }
        }
      }
    }
  }

  lemma FlushedLine(io: Io, r: Io, ip: u32, x: nat, y: nat, a: Mbuf, b: Mbuf)
    requires ip in io.pending && x <= y <= |io.pending[ip]|
    requires r.tx == io.tx + Ids(io.pending[ip][x..y]) && QueueOf(r, ip) == io.pending[ip][y..]
    requires r.log == io.log + Frees(io.pending[ip][..x])
    requires !Freed(io.log, r.log, a) && !Freed(io.log, r.log, b) && Before(Line(io, ip), a, b)
    ensures Before(Line(r, ip), a, b)
  {
    var q := io.pending[ip];
    NotAmongFreed(io.log, q[..x], a);
    NotAmongFreed(io.log, q[..x], b);
    CutIds(q, x, y);
    hide Ids, Freed, Before, Frees;
    var s, t, u := Ids(q[..x]), Ids(q[x..y]), Ids(q[y..]);
    Assoc(io.tx, s, t + u);
    BeforeRemoved(io.tx, s, t + u, a, b);
    Assoc(io.tx, t, u);
  }

  lemma IdsConcat(p: seq<HeldPacket>, q: seq<HeldPacket>)
    ensures Ids(p + q) == Ids(p) + Ids(q)
  {
  }

  lemma CutIds(q: seq<HeldPacket>, x: nat, y: nat)
    requires x <= y <= |q|
    ensures Ids(q) == Ids(q[..x]) + (Ids(q[x..y]) + Ids(q[y..])) && Ids(q[x..]) == Ids(q[x..y]) + Ids(q[y..])
  {
    assert q[..x] + q[x..] == q;
    assert q[x..y] + q[y..] == q[x..];
    hide Ids;
    IdsConcat(q[..x], q[x..]);
    IdsConcat(q[x..y], q[y..]);
  }

  lemma AmongFreed(log: seq<Event>, q: seq<HeldPacket>, i: nat)
    requires i < |q|
    ensures Freed(log, log + Frees(q), q[i].m)
  {
    assert (log + Frees(q))[|log| + i] == Free(q[i].m);
  }

  lemma NotAmongFreed(log: seq<Event>, q: seq<HeldPacket>, m: Mbuf)
    requires !Freed(log, log + Frees(q), m)
    ensures m !in Ids(q)
  {
    if m in Ids(q) {
      var i :| 0 <= i < |q| && Ids(q)[i] == m;
      AmongFreed(log, q, i);
    }
  }

  /** Frames do not matter to the line. */
  lemma RelabelOrdered(io: Io, m: Mbuf, f: Frame, ip: u32, n: nat, a: Mbuf, b: Mbuf)
    requires Ordered(io, ip, n, a, b)
    ensures Ordered(io.(frames := io.frames[m := f]), ip, n, a, b)
  {
  }

  /** An operation that only adds to the line and logs nothing about those in it. */
  ghost predicate Extends(io: Io, r: Io, ip: u32) {
    && io.log <= r.log && io.tx <= r.tx && QueueOf(io, ip) <= QueueOf(r, ip)
    && forall k, m :: |io.log| <= k < |r.log| && m in Line(io, ip) ==> !GivenUp(r.log[k], m)
  }

  lemma ExtendedLine(io: Io, r: Io, ip: u32, a: Mbuf, b: Mbuf)
    requires io.tx <= r.tx && QueueOf(io, ip) <= QueueOf(r, ip) && Before(Line(io, ip), a, b)
    ensures Before(Line(r, ip), a, b)
  {
    var more, tail := r.tx[|io.tx|..], QueueOf(r, ip)[|QueueOf(io, ip)|..];
    var q, t := Ids(QueueOf(io, ip)), Ids(tail);
    assert r.tx == io.tx + more;
    assert Ids(QueueOf(r, ip)) == q + t;
    hide Before, Ids;
    BeforeInserted(io.tx, more, q, a, b);
    BeforeAppended(r.tx + q, t, a, b);
    Assoc(r.tx, q, t);
  }

  lemma ExtendsOrdered(io: Io, r: Io, ip: u32, n: nat, a: Mbuf, b: Mbuf)
    requires Extends(io, r, ip) && Ordered(io, ip, n, a, b)
    ensures Ordered(r, ip, n, a, b)
  {
    if Settled(io.log, n, a, b) {
      SettledLater(io.log, r.log, n, a, b);
    } else {
      BeforeMembers(Line(io, ip), a, b);
      ExtendedLine(io, r, ip, a, b);
      StillOpen(io, r, ip, n, a, b);
    }
  }

  lemma StillOpen(io: Io, r: Io, ip: u32, n: nat, a: Mbuf, b: Mbuf)
    requires Extends(io, r, ip) && Open(io.log, n, a, b) && a in Line(io, ip) && b in Line(io, ip)
    ensures Open(r.log, n, a, b)
  {
    hide Line;
    forall k | n <= k < |r.log|
      ensures !GivenUp(r.log[k], a) && !GivenUp(r.log[k], b)
    {
      if k < |io.log| {
        assert r.log[k] == io.log[k];
      }
    }
  }

  lemma EnqueueExtends(io: Io, at: u32, now: u64, ip: u32)
    requires Owned(io) && io.rx != []
    ensures Extends(io, Enqueue(io, at, now), ip)
  {
    ListedIsOwned(io, InRx, 0);
    forall m | m in Line(io, ip)
      ensures m != io.rx[0]
    {
      InLine(io, ip, m);
    }
    hide Owned;
  }

  lemma ProbeExtends(cfg: ArpConfig, io: Io, at: u32, now: u64, alloc: Option<Mbuf>, ip: u32)
    requires Owned(io) && (alloc.Some? ==> alloc.value !in io.owner)
    ensures Extends(io, Probe(cfg, io, at, now, alloc), ip)
  {
    forall m | m in Line(io, ip)
      ensures m in io.owner
    {
      InLine(io, ip, m);
    }
    hide Owned, MakeRequest;
  }

  lemma DisposeOrdered(cfg: F.Config, io: Io, o: F.Outcome, now: u64, alloc: Option<Mbuf>, ip: u32, n: nat, a: Mbuf, b: Mbuf)
    requires HeldInv(io, now) && io.rx != [] && Allocatable(io, o, now, alloc) && Ordered(io, ip, n, a, b)
    requires WaitsReady(FrameOf(io, io.rx[0]), o)
    ensures Ordered(Dispose(cfg, io, o, now, alloc), ip, n, a, b)
  {
    if o.result == F.PendingArp {
      var e := Enqueue(io, o.waitIp, now);
      EnqueueExtends(io, o.waitIp, now, ip);
      EnqueueOwned(io, o.waitIp, now);
      hide Owned, HeldReady, Enqueue, Extends, Ordered, Probe;
      ExtendsOrdered(io, e, ip, n, a, b);
      ProbeExtends(ArpCfg(cfg), e, o.waitIp, now, alloc, ip);
      ExtendsOrdered(e, Dispose(cfg, io, o, now, alloc), ip, n, a, b);
    } else {
      assert Extends(io, Dispose(cfg, io, o, now, alloc), ip);
      hide Dispose, Extends, Ordered;
      ExtendsOrdered(io, Dispose(cfg, io, o, now, alloc), ip, n, a, b);
    }
  }

  lemma FlushedOrdered(cfg: F.Config, io: Io, h: Handled, now: u64, ip: u32, n: nat, a: Mbuf, b: Mbuf)
    requires HeldInv(io, now) && io.rx != [] && Ordered(io, ip, n, a, b)
    ensures Ordered(Flushed(cfg, io, h, now), ip, n, a, b)
  {
    FirstOwned(io, now);
    RelabelRxHeld(io, io.rx[0], h.frame, now);
    RelabelOrdered(io, io.rx[0], h.frame, ip, n, a, b);
    hide HeldInv, Ordered, Flush;
    FlushOrdered(cfg, h.cache, io.(frames := io.frames[io.rx[0] := h.frame]), h.outcome.learnedIp, now, ip, n, a, b);
  }

  lemma HandleOrdered(cfg: F.Config, g: Gw, now: u64, alloc: Option<Mbuf>, ip: u32, n: nat, a: Mbuf, b: Mbuf)
    requires GwInv(cfg, g) && Enabled(cfg, g, HandleNext(now, alloc)) && Ordered(g.io, ip, n, a, b)
    ensures Ordered(HandleOne(cfg, g, now, alloc).io, ip, n, a, b)
  {
    var f, h := FrameOf(g.io, g.io.rx[0]), Verdict(cfg, g, now);
    ListedIsOwned(g.io, InRx, 0);
    HandleFrameKeeps(cfg, g, g.io.pending.Keys, f, now);
    TimedLater(g.io, g.clock, now);
    hide SessInv, HeldInv, HandleFrame, Flushed, NamesClient, WaitsReady, Dispose, Ordered, Allocatable, FrameOf;
    FlushedKeeps(cfg, g.io, h, now);
    FlushedOrdered(cfg, g.io, h, now, ip, n, a, b);
    DisposeOrdered(cfg, Flushed(cfg, g.io, h, now), h.outcome, now, alloc, ip, n, a, b);
  }

  // ---- the batches go

  /** The log of a drain: the batch in order, then the drop batch. */
  lemma {:induction false} DrainLog(io: Io, sent: nat)
    ensures var r := Drain(io, sent);
            DrainedLog(io, r) && r.tx == []
    decreases |io.tx| + |io.drop|
  {
    if io.tx != [] {
      var next := Release(io.(tx := io.tx[1..]), io.tx[0], sent > 0);
      DrainLog(next, if sent > 0 then sent - 1 else 0);
      var r := Drain(io, sent);
      assert r == Drain(next, if sent > 0 then sent - 1 else 0);
      hide Drain;
      ShiftedLog(io, next, r);
    } else if io.drop != [] {
      var next := Release(io.(drop := io.drop[1..]), io.drop[0], false);
      DrainLog(next, 0);
      var r := Drain(io, sent);
      assert r == Drain(next, 0);
      hide Drain;
      ShiftedDrop(io, next, r);
    }
  }

  lemma ShiftedLog(io: Io, next: Io, r: Io)
    requires io.tx != [] && next.tx == io.tx[1..] && next.drop == io.drop
    requires |next.log| == |io.log| + 1 && io.log <= next.log && GivenUp(next.log[|io.log|], io.tx[0])
    requires DrainedLog(next, r)
    ensures DrainedLog(io, r)
  {
    forall k | 0 <= k < |io.tx|
      ensures GivenUp(r.log[|io.log| + k], io.tx[k])
    {
      if k > 0 {
        assert GivenUp(r.log[|next.log| + (k - 1)], next.tx[k - 1]);
      }
    }
    forall k | 0 <= k < |io.drop|
      ensures r.log[|io.log| + |io.tx| + k] == Free(io.drop[k])
    {
      assert r.log[|next.log| + |next.tx| + k] == Free(next.drop[k]);
    }
  }

  lemma ShiftedDrop(io: Io, next: Io, r: Io)
    requires io.tx == [] && next.tx == [] && io.drop != [] && next.drop == io.drop[1..]
    requires next.log == io.log + [Free(io.drop[0])]
    requires DrainedLog(next, r)
    ensures DrainedLog(io, r)
  {
    forall k | 0 <= k < |io.drop|
      ensures r.log[|io.log| + |io.tx| + k] == Free(io.drop[k])
    {
      if k > 0 {
        assert r.log[|next.log| + |next.tx| + (k - 1)] == Free(next.drop[k - 1]);
      } else {
        assert r.log[|io.log|] == next.log[|io.log|];
      }
    }
  }

  /** Where `a` is in the batch, `b` is behind it or not in the batch. */
  lemma PlaceInBatch(io: Io, ip: u32, a: Mbuf, b: Mbuf) returns (i: nat)
    requires Owned(io) && Before(Line(io, ip), a, b) && a in io.tx
    ensures i < |io.tx| && io.tx[i] == a && forall k :: 0 <= k < i ==> io.tx[k] != b
  {
    LineNoDup(io, ip);
    hide Owned;
    var line := Line(io, ip);
    var p, q :| 0 <= p < q < |line| && line[p] == a && line[q] == b;
    i :| 0 <= i < |io.tx| && io.tx[i] == a;
    assert line[i] == a;
    assert i == p;
    forall k | 0 <= k < i
      ensures io.tx[k] != b
    {
      assert line[k] != line[q];
    }
  }

  lemma FinishOrdered(io: Io, sent: nat, clock: u64, ip: u32, n: nat, a: Mbuf, b: Mbuf)
    requires HeldInv(io, clock) && Ordered(io, ip, n, a, b)
    ensures Ordered(Drain(io, sent), ip, n, a, b)
  {
    var r := Drain(io, sent);
    DrainLog(io, sent);
    DrainShrunk(io, sent);
    hide Drain, HeldReady, AllPlaces;
    if Settled(io.log, n, a, b) {
      SettledLater(io.log, r.log, n, a, b);
    } else if a in io.tx {
      var i := PlaceInBatch(io, ip, a, b);
      FirstIsSettled(io, r, n, a, b, i);
    } else {
      StillQueued(io, r, ip, n, a, b);
    }
  }

  lemma FirstIsSettled(io: Io, r: Io, n: nat, a: Mbuf, b: Mbuf, i: nat)
    requires Open(io.log, n, a, b) && DrainedLog(io, r)
    requires i < |io.tx| && io.tx[i] == a && forall k :: 0 <= k < i ==> io.tx[k] != b
    ensures Settled(r.log, n, a, b)
  {
    forall k | n <= k < |io.log| + i
      ensures r.log[k] != Send(b)
    {
      if k < |io.log| {
        assert r.log[k] == io.log[k];
      } else {
        assert GivenUp(r.log[|io.log| + (k - |io.log|)], io.tx[k - |io.log|]);
      }
    }
    SettledAt(r.log, n, a, b, |io.log| + i);
  }

  /** The log of a drain names only those in the batches. */
  ghost predicate DrainedLog(io: Io, r: Io) {
    && io.log <= r.log && |r.log| == |io.log| + |io.tx| + |io.drop|
    && (forall k :: 0 <= k < |io.tx| ==> GivenUp(r.log[|io.log| + k], io.tx[k]))
    && (forall k :: 0 <= k < |io.drop| ==> r.log[|io.log| + |io.tx| + k] == Free(io.drop[k]))
  }

  lemma NotDrained(io: Io, r: Io, m: Mbuf)
    requires DrainedLog(io, r) && m !in io.tx && m !in io.drop
    ensures forall k :: |io.log| <= k < |r.log| ==> !GivenUp(r.log[k], m)
  {
    forall k | |io.log| <= k < |r.log|
      ensures !GivenUp(r.log[k], m)
    {
      if k < |io.log| + |io.tx| {
        assert GivenUp(r.log[|io.log| + (k - |io.log|)], io.tx[k - |io.log|]);
      } else {
        assert r.log[|io.log| + |io.tx| + (k - |io.log| - |io.tx|)] == Free(io.drop[k - |io.log| - |io.tx|]);
      }
    }
  }

  /** Both behind the batch: in the queue alone they stand as they did. */
  lemma BehindBatch(io: Io, ip: u32, a: Mbuf, b: Mbuf)
    requires Owned(io) && Before(Line(io, ip), a, b) && a !in io.tx
    ensures Before(Ids(QueueOf(io, ip)), a, b)
    ensures a in io.owner && io.owner[a] == Held(ip) && b in io.owner && io.owner[b] == Held(ip)
  {
    var line, ids := Line(io, ip), Ids(QueueOf(io, ip));
    var p, q :| 0 <= p < q < |line| && line[p] == a && line[q] == b;
    assert |io.tx| <= p;
    LineAt(io, ip, p);
    LineAt(io, ip, q);
    hide Owned;
    assert ids[p - |io.tx|] == a && ids[q - |io.tx|] == b;
    BeforeAt(ids, p - |io.tx|, q - |io.tx|);
  }

  lemma StillQueued(io: Io, r: Io, ip: u32, n: nat, a: Mbuf, b: Mbuf)
    requires Owned(io) && Open(io.log, n, a, b) && Before(Line(io, ip), a, b) && a !in io.tx
    requires r.tx == [] && r.pending == io.pending && DrainedLog(io, r)
    ensures Ordered(r, ip, n, a, b)
  {
    BehindBatch(io, ip, a, b);
    NotInBatches(io, ip, a);
    NotInBatches(io, ip, b);
    hide Owned, Before;
    DrainedOpen(io, r, n, a, b);
    hide Open, DrainedLog;
    assert Line(r, ip) == Ids(QueueOf(io, ip));
  }

  lemma DrainedOpen(io: Io, r: Io, n: nat, a: Mbuf, b: Mbuf)
    requires Open(io.log, n, a, b) && DrainedLog(io, r)
    requires a !in io.tx && a !in io.drop && b !in io.tx && b !in io.drop
    ensures Open(r.log, n, a, b)
  {
    NotDrained(io, r, a);
    NotDrained(io, r, b);
    assert io.log <= r.log;
    hide DrainedLog;
    forall k | n <= k < |r.log|
      ensures !GivenUp(r.log[k], a) && !GivenUp(r.log[k], b)
    {
      if k < |io.log| {
        assert r.log[k] == io.log[k];
      }
    }
  }

  lemma NotInBatches(io: Io, ip: u32, m: Mbuf)
    requires Owned(io) && m in io.owner && io.owner[m] == Held(ip)
    ensures m !in io.tx && m !in io.drop
  {
    assert PlaceOwned(io, InTx) && PlaceOwned(io, InDrop);
  }

  // ---- expiry

  lemma ExpiryOrdered(io: Io, ips: seq<u32>, now: u64, ip: u32, n: nat, a: Mbuf, b: Mbuf)
    requires HeldInv(io, now) && NoDup(ips) && (forall x :: x in ips <==> x in io.pending)
    requires Ordered(io, ip, n, a, b)
    ensures Ordered(ExpirePending(io, ips, now), ip, n, a, b)
  {
    var r := ExpirePending(io, ips, now);
    ExpirePendingFrees(io, ips, now);
    if Settled(io.log, n, a, b) {
      SettledLater(io.log, r.log, n, a, b);
    } else {
      FreesSettle(io.log, r.log, n, a, b);
      if !Freed(io.log, r.log, a) && !Freed(io.log, r.log, b) {
        SweptLine(io, ips, now, ip, a, b);
      }
    }
  }

  lemma SweptLine(io: Io, ips: seq<u32>, now: u64, ip: u32, a: Mbuf, b: Mbuf)
    requires HeldInv(io, now) && NoDup(ips) && (forall x :: x in ips <==> x in io.pending)
    requires Before(Line(io, ip), a, b)
    requires var r := ExpirePending(io, ips, now); !Freed(io.log, r.log, a) && !Freed(io.log, r.log, b)
    ensures Before(Line(ExpirePending(io, ips, now), ip), a, b)
  {
    var r := ExpirePending(io, ips, now);
    BeforeMembers(Line(io, ip), a, b);
    StaysInLine(io, r, ips, now, ip, a);
    StaysInLine(io, r, ips, now, ip, b);
    var x := SweptQueue(io, ips, now, ip);
    hide ExpirePending, HeldInv, Owned, Before, Freed;
    var q := QueueOf(io, ip);
    CutIds(q, x, x);
    assert Ids(q[x..x]) == [];
    NotInPrefix(io, r, ip, x, a);
    NotInPrefix(io, r, ip, x, b);
    hide Ids;
    Assoc(io.tx, Ids(q[..x]), Ids(q[x..]));
    BeforeRemoved(io.tx, Ids(q[..x]), Ids(q[x..]), a, b);
  }

  /** The sweep takes a front part of the queue and leaves the batch alone. */
  lemma SweptQueue(io: Io, ips: seq<u32>, now: u64, ip: u32) returns (x: nat)
    requires HeldInv(io, now) && NoDup(ips) && (forall y :: y in ips <==> y in io.pending)
    ensures var r := ExpirePending(io, ips, now);
            r.tx == io.tx && x <= |QueueOf(io, ip)| && QueueOf(r, ip) == QueueOf(io, ip)[x..]
  {
    ExpirePendingExact(io, ips, now);
    ExpirePendingShrunk(io, ips, now);
    hide ExpirePending, Owned, HeldReady;
    if ip in io.pending {
      x := ExpiredPrefix(io.pending[ip], now);
      UnexpiredSuffix(io.pending[ip], x, now);
    } else {
      x := 0;
    }
    hide Unexpired;
  }

  lemma StaysInLine(io: Io, r: Io, ips: seq<u32>, now: u64, ip: u32, m: Mbuf)
    requires HeldInv(io, now) && r == ExpirePending(io, ips, now) && m in Line(io, ip) && !Freed(io.log, r.log, m)
    ensures Owned(r) && m in r.owner && m in io.owner && r.owner[m] == io.owner[m]
  {
    InLine(io, ip, m);
    ExpirePendingOwned(io, ips, now);
    ExpirePendingFrees(io, ips, now);
    ExpirePendingShrunk(io, ips, now);
    hide ExpirePending, AllPlaces, HeldReady;
    FreedIsGone(io, r, m);
  }

  /** What is still held is not in the part of the queue that went. */
  lemma NotInPrefix(io: Io, r: Io, ip: u32, x: nat, m: Mbuf)
    requires Owned(io) && Owned(r) && x <= |QueueOf(io, ip)|
    requires QueueOf(r, ip) == QueueOf(io, ip)[x..] && m in io.owner && m in r.owner && r.owner[m] == io.owner[m]
    ensures m !in Ids(QueueOf(io, ip)[..x])
  {
    var q := QueueOf(io, ip);
    if m in Ids(q[..x]) {
      var i :| 0 <= i < x && Ids(q[..x])[i] == m;
      PrefixIsGone(io, r, ip, x, i);
    }
  }

  lemma PrefixIsGone(io: Io, r: Io, ip: u32, x: nat, i: nat)
    requires Owned(io) && Owned(r) && i < x <= |QueueOf(io, ip)|
    requires QueueOf(r, ip) == QueueOf(io, ip)[x..]
    ensures var m := QueueOf(io, ip)[i].m;
            m in io.owner && io.owner[m] == Held(ip) && !(m in r.owner && r.owner[m] == Held(ip))
  {
    var m, ids, rest := QueueOf(io, ip)[i].m, ListAt(io, Held(ip)), ListAt(r, Held(ip));
    ListedIsOwned(io, Held(ip), i);
    assert PlaceOwned(io, Held(ip)) && PlaceOwned(r, Held(ip));
    forall j | 0 <= j < |rest|
      ensures rest[j] != m
    {
      assert rest[j] == ids[x + j] != ids[i];
    }
  }

  // ---------------------------------------------------------------- the theorem

  lemma {:induction false} ReceiveLine(io: Io, burst: seq<(Mbuf, Frame)>, ip: u32)
    ensures Extends(io, Receive(io, burst), ip)
    ensures var r := Receive(io, burst); r.tx == io.tx && r.pending == io.pending
  {
    if burst != [] {
      ReceiveLine(io, burst[..|burst| - 1], ip);
    }
  }

  lemma StepOrdered(cfg: F.Config, g: Gw, s: Step, ip: u32, n: nat, a: Mbuf, b: Mbuf)
    requires GwInv(cfg, g) && Enabled(cfg, g, s) && Ordered(g.io, ip, n, a, b)
    ensures Ordered(Apply(cfg, g, s).io, ip, n, a, b)
  {
    hide Ordered, SessInv, HeldInv, HandleOne, Receive, Drain, ExpirePending, NamesClient, Extends;
    match s {
      case Recv(burst) =>
        ReceiveLine(g.io, burst, ip);
        ExtendsOrdered(g.io, Receive(g.io, burst), ip, n, a, b);
      case HandleNext(now, alloc) =>
        HandleOrdered(cfg, g, now, alloc, ip, n, a, b);
      case Finish(sent) =>
        FinishOrdered(g.io, sent, g.clock, ip, n, a, b);
      case ExpireHeld(now, ips) =>
        TimedLater(g.io, g.clock, now);
        ExpiryOrdered(g.io, ips, now, ip, n, a, b);
      case _ =>
    }
  }

  lemma {:induction false} RunOrdered(cfg: F.Config, g: Gw, steps: seq<Step>, ip: u32, n: nat, a: Mbuf, b: Mbuf)
    requires GwInv(cfg, g) && IsRun(cfg, g, steps) && Ordered(g.io, ip, n, a, b)
    ensures Ordered(Run(cfg, g, steps).io, ip, n, a, b)
    decreases |steps|
  {
    hide GwInv, Ordered, Apply, Enabled;
    if steps != [] {
      StepKeeps(cfg, g, steps[0]);
      StepOrdered(cfg, g, steps[0], ip, n, a, b);
      RunOrdered(cfg, Apply(cfg, g, steps[0]), steps[1..], ip, n, a, b);
    }
  }

  /**
   First held, first sent. Of two packets held for one address, `a` in front of `b`, over every run: if
   `b` is sent, then before that `a` was sent or freed. (`Free(b)` stands for the case that the packet
   was freed and its buffer is in use for another.)
   */
  lemma HeldFirstSentFirst(cfg: F.Config, g: Gw, steps: seq<Step>, ip: u32, a: Mbuf, b: Mbuf)
    requires GwInv(cfg, g) && IsRun(cfg, g, steps)
    requires ip in g.io.pending && Before(Ids(g.io.pending[ip]), a, b)
    ensures var n, log := |g.io.log|, Run(cfg, g, steps).io.log;
            forall j :: n <= j < |log| && log[j] == Send(b) ==>
              exists i :: n <= i < j && (log[i] == Send(a) || log[i] == Free(a) || log[i] == Free(b))
  {
    hide IsRun, Run;
    var n := |g.io.log|;
    BeforePrepended(g.io.tx, Ids(g.io.pending[ip]), a, b);
    LineNoDup(g.io, ip);
    hide GwInv;
    assert a != b;
    assert Ordered(g.io, ip, n, a, b);
    hide Ordered, Before;
    RunOrdered(cfg, g, steps, ip, n, a, b);
    OrderedMeans(Run(cfg, g, steps).io, ip, n, a, b);
  }

  lemma OrderedMeans(io: Io, ip: u32, n: nat, a: Mbuf, b: Mbuf)
    requires Ordered(io, ip, n, a, b) && a != b
    ensures forall j :: n <= j < |io.log| && io.log[j] == Send(b) ==>
              exists i :: n <= i < j && (io.log[i] == Send(a) || io.log[i] == Free(a) || io.log[i] == Free(b))
  {
    forall j | n <= j < |io.log| && io.log[j] == Send(b)
      ensures exists i :: n <= i < j && (io.log[i] == Send(a) || io.log[i] == Free(a) || io.log[i] == Free(b))
    {
      if Settled(io.log, n, a, b) {
        var i :| n <= i < |io.log| && (GivenUp(io.log[i], a) || io.log[i] == Free(b))
                 && forall k :: n <= k < i ==> io.log[k] != Send(b);
      }
    }
  }
}
