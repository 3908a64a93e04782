/**
 The gateway object and its worker loop (src/vgw.cpp). Every method is proved against the
 functions of `Worker` and `Gateway`; one turn of the loop is proved to be a run of the state
 machine, so what holds of every run holds of the loop.

 `rx`, `tx` and `drop` are the batch arrays of the current iteration. `owner`, `log`, `probes`
 and `clock` are kept for the proofs only.
 */
module VioletGws {
  import opened Base
  import opened Packet
  import Sessions
  import opened SessionTables
  import opened Upstreams
  import opened UpstreamTables
  import opened Neighbors
  import opened NeighborTables
  import opened Arp
  import opened ArpHandlers
  import opened Forwarders
  import opened CpShm
  import opened CpShms
  import opened Worker
  import opened Ownership
  import opened Gateway
  import opened GatewayProofs
  import opened Turns
  import WorkerSteps
  import F = Forward

  const SESSION_EXPIRE_INTERVAL: u64 := 1_000
  const ARP_EXPIRE_INTERVAL: u64 := 60_000
  const CP_POLL_INTERVAL: u64 := 1_000

  /** The first upstream list: what the control block holds, or else the seed. */
  method FirstUpstreams(cp: Block, ups: UpstreamTable, seed: Publication)
    requires cp.Valid() && ups.counter == 0
    modifies ups, cp`lastApplied
    ensures cp.Valid()
    ensures var fromBlock := cp.magic == MAGIC && cp.version != 0 && cp.version != old(cp.lastApplied);
            var p := if fromBlock then Decode(cp.data[..]) else seed;
            ups.State() == Ups(p.policy, p.endpoints, 0)
  {
    hide Decode;
    var applied := cp.PollApply(ups);
    if !applied {
      ups.SetPolicy(seed.policy);
      ups.Set(seed.endpoints);
    }
  }

  class VioletGw {
    const cfg: F.Config
    const sessions: SessionTable
    const upstreams: UpstreamTable
    const neighbors: NeighborTable
    const forwarder: Forwarder
    const arp: ArpHandler
    const cp: Block

    var frames: map<Mbuf, Frame>
    var rx: seq<Mbuf>
    var tx: seq<Mbuf>
    var drop: seq<Mbuf>
    var pending: map<u32, seq<HeldPacket>>
    var probed: map<u32, u64>
    var lastExpire: u64
    var lastArpExpire: u64
    var lastPoll: u64

    ghost var owner: map<Mbuf, Place>
    ghost var log: seq<Event>
    ghost var probes: seq<ProbeRecord>
    ghost var clock: u64

    ghost predicate Valid() {
      && sessions.Valid() && cp.Valid()
      && neighbors.timeout == NEIGHBOR_TIMEOUT
      && forwarder.cfg == cfg && forwarder.sessions == sessions
      && forwarder.upstreams == upstreams && forwarder.neighbors == neighbors
      && arp.cfg == ArpCfg(cfg) && arp.neighbors == neighbors
    }

    ghost function IoState(): Io
      reads this
    {
      Io(frames, owner, rx, tx, drop, pending, probed, log, probes)
    }

    ghost function State(): Gw
      requires Valid()
      reads this, sessions, sessions.portInUse, upstreams, neighbors
    {
      Gw(sessions.State(), neighbors.entries, upstreams.State(), IoState(), clock)
    }

    function FrameAt(m: Mbuf): Frame
      reads this
    {
      if m in frames then frames[m] else []
    }

    /**
     `init_services`: default SNAT range, one static neighbor, and the upstream list of the control
     block, or of the seed if the block has nothing to apply.
     */
    constructor (cfg: F.Config, cp: Block, seed: Publication, seedIp: u32, seedMac: Mac, now: u64)
      requires cp.Valid()
      modifies cp`lastApplied
      ensures Valid() && Initial(cfg, State()) && GwInv(cfg, State()) && this.cp == cp && clock == now && Swept()
      ensures var fromBlock := cp.magic == MAGIC && cp.version != 0 && cp.version != old(cp.lastApplied);
              var p := if fromBlock then Decode(cp.data[..]) else seed;
              State().ups == Ups(p.policy, p.endpoints, 0)
      ensures State().sess == Sessions.Fresh(cfg.gatewayIp, 60_000, 10_000, 60_000)
      ensures State().cache == map[seedIp := Entry(seedMac, 0, true)]
      ensures lastExpire == now && lastArpExpire == now && lastPoll == now
      ensures fresh(sessions) && fresh(sessions.portInUse) && fresh(upstreams) && fresh(neighbors)
    {
      hide Decode, GwInv, Sessions.Inv;
      var table := new SessionTable(cfg.gatewayIp, 60_000, 10_000, 60_000);
      var ups := new UpstreamTable();
      FirstUpstreams(cp, ups, seed);
      var cache := new NeighborTable(NEIGHBOR_TIMEOUT);
      cache.Seed(seedIp, seedMac);
      this.cfg, this.cp, sessions, upstreams, neighbors := cfg, cp, table, ups, cache;
      forwarder := new Forwarder(cfg, table, ups, cache);
      arp := new ArpHandler(ArpCfg(cfg), cache);
      frames, rx, tx, drop, pending, probed := map[], [], [], [], map[], map[];
      owner, log, probes, clock := map[], [], [], now;
      lastExpire, lastArpExpire, lastPoll := now, now, now;
      new;
      InitialInv(cfg, State());
    }

    method FreeBuffer(m: Mbuf, sent: bool)
      modifies this`frames, this`owner, this`log
      ensures IoState() == Release(old(IoState()), m, sent)
    {
      frames := frames - {m};
      owner := owner - {m};
      log := log + [if sent then Send(m) else Free(m)];
    }

    // ------------------------------------------------------------ held packets

    /** One queue entry of the flush loop; `keep` says whether it stays queued. */
    method FlushEntry(e: HeldPacket, ip: u32, now: u64) returns (keep: bool)
      requires Valid()
      modifies this`frames, this`tx, this`owner, this`log
      ensures (IoState(), keep) == EntryNext(cfg, neighbors.entries, old(IoState()), ip, e, now)
    {
      hide F.FinishL2;
      if Age(now, e.since) >= PENDING_TIMEOUT {
        FreeBuffer(e.m, false);
        return false;
      }
      var finished := forwarder.FinishL2(FrameAt(e.m), ip);
      if finished.None? { return true; }
      frames := frames[e.m := finished.value];
      if |tx| >= BURST { return true; }
      tx := tx + [e.m];
      owner := owner[e.m := InTx];
      return false;
    }

    method FlushPending(ip: u32, now: u64)
      requires Valid()
      modifies this`frames, this`tx, this`pending, this`owner, this`log
      ensures IoState() == Flush(cfg, neighbors.entries, old(IoState()), ip, now)
    {
      hide F.FinishL2, Expired, EntryNext, FlushAt, FlushFrom;
      if ip == 0 || ip !in pending || pending[ip] == [] { return; }
      ghost var io0 := IoState();
      var q := pending[ip];
      var remaining: seq<HeldPacket> := [];
      FlushStarts(cfg, neighbors.entries, io0, ip, now);
      for i := 0 to |q|
        invariant pending == io0.pending
        invariant FlushAt(cfg, neighbors.entries, io0, IoState(), ip, remaining, q, i, now)
      {
        EntryInQueue(cfg, neighbors.entries, io0, IoState(), ip, remaining, q, i, now);
        var keep := FlushEntry(q[i], ip, now);
        if keep {
          remaining := remaining + [q[i]];
        }
      }
      FlushDone(cfg, neighbors.entries, io0, IoState(), ip, remaining, q, now);
      if remaining == [] {
        pending := pending - {ip};
      } else {
        pending := pending[ip := remaining];
      }
    }

    /** The inner loop of `expire_pending`: one queue, erasing in place. */
    method ExpireOne(ip: u32, now: u64)
      requires ip in pending
      modifies this`frames, this`pending, this`owner, this`log
      ensures IoState() == ExpireQueue(old(IoState()), ip, now)
    {
      hide Expired;
      var i := 0;
      while i < |pending[ip]|
        invariant ip in pending && 0 <= i <= |pending[ip]|
        invariant ExpireFrom(IoState(), ip, i, now) == ExpireFrom(old(IoState()), ip, 0, now)
        decreases |pending[ip]| - i
      {
        var e := pending[ip][i];
        ExpiredTest(e, now);
        if Age(now, e.since) >= PENDING_TIMEOUT {
          ghost var io := IoState();
          pending := pending[ip := Without(pending[ip], i)];
          FreeBuffer(e.m, false);
          assert IoState() == FreeHeld(io, ip, i);
        } else {
          i := i + 1;
        }
      }
      if pending[ip] == [] {
        pending := pending - {ip};
      }
    }

    /** Visits every queue once, in whatever order the hash table has. */
    method ExpirePending(now: u64) returns (ghost ips: seq<u32>)
      modifies this`frames, this`pending, this`owner, this`log
      ensures IoState() == Worker.ExpirePending(old(IoState()), ips, now)
      ensures NoDup(ips) && forall ip :: ip in ips <==> ip in old(pending)
    {
      ips := [];
      var todo := pending.Keys;
      while todo != {}
        invariant IoState() == Worker.ExpirePending(old(IoState()), ips, now)
        invariant NoDup(ips) && forall ip :: ip in old(pending) <==> ip in ips || ip in todo
        invariant forall ip :: ip in todo ==> ip in pending && ip !in ips
        decreases todo
      {
        var ip :| ip in todo;
        todo := todo - {ip};
        ghost var io := IoState();
        ExpireOne(ip, now);
        ExpireQueueElsewhere(io, ip, now);
        NoDupAppend(ips, ip);
        assert (ips + [ip])[..|ips|] == ips;
        ips := ips + [ip];
      }
    }

    // --------------------------------------------------------- one packet

    method EnqueuePending(ip: u32, now: u64)
      requires rx != []
      modifies this`frames, this`rx, this`pending, this`owner, this`log
      ensures IoState() == Enqueue(old(IoState()), ip, now)
    {
      var m := rx[0];
      rx := rx[1..];
      if ip == 0 {
        owner := owner[m := Lost];
        return;
      }
      var q := if ip in pending then pending[ip] else [];
      if |q| >= PENDING_MAX {
        FreeBuffer(m, false);
        return;
      }
      pending := pending[ip := q + [HeldPacket(m, now)]];
      owner := owner[m := Held(ip)];
    }

    /** `alloc` is the buffer the pool yields to `make_request`, if it yields one. */
    method MaybeProbeArp(ip: u32, now: u64, alloc: Option<Mbuf>)
      requires Valid()
      modifies this`frames, this`tx, this`probed, this`owner, this`log, this`probes
      ensures IoState() == Probe(ArpCfg(cfg), old(IoState()), ip, now, alloc)
    {
      hide MakeRequest;
      if ip == 0 { return; }
      if ip in probed && Age(now, probed[ip]) < PROBE_INTERVAL { return; }
      if alloc.None? { return; }
      var p := alloc.value;
      if |tx| >= BURST {
        log := log + [Acquire(p), Free(p)];
        return;
      }
      frames := frames[p := MakeRequest(arp.cfg, ip)];
      tx := tx + [p];
      probed := probed[ip := now];
      owner, log, probes := owner[p := InTx], log + [Acquire(p)], probes + [ProbeRecord(ip, now)];
    }

    /** `handle`: the frame at the head of the burst is rewritten in place. */
    method Handle(now: u64) returns (o: F.Outcome)
      requires Valid() && rx != []
      modifies this`frames, sessions, sessions.portInUse, upstreams, neighbors
      ensures var h := HandleFrame(cfg, old(State()), old(pending).Keys, old(FrameAt(rx[0])), now);
              && o == h.outcome && sessions.State() == h.sess && upstreams.State() == h.ups
              && neighbors.entries == h.cache && frames == old(frames)[rx[0] := h.frame]
    {
      hide F.Handle, Arp.Handle;
      var m := rx[0];
      var f := FrameAt(m);
      if EtherType(f) == ETHER_TYPE_ARP {
        var f', reply, learned := arp.Handle(f, now);
        frames := frames[m := f'];
        return F.Outcome(if reply then F.TxArp else F.Drop, 0, learned);
      }
      if EtherType(f) == ETHER_TYPE_IPV4 {
        var src := Ipv4Src(f);
        if src != 0 && src % 0x100 < 224 {
          neighbors.Learn(src, MacAt(f, 6), now);
        }
        var f';
        f', o := forwarder.Handle(f, now);
        frames := frames[m := f'];
        var seen := Ipv4Src(f');
        if seen != 0 && seen in pending {
          o := o.(learnedIp := seen);
        }
        return;
      }
      frames := frames[m := f];
      return F.DROPPED;
    }

    method HandleAndFlush(now: u64) returns (o: F.Outcome)
      requires Valid() && rx != []
      modifies this`frames, this`tx, this`pending, this`owner, this`log
      modifies sessions, sessions.portInUse, upstreams, neighbors
      ensures var h := HandleFrame(cfg, old(State()), old(pending).Keys, FrameOf(old(IoState()), old(rx)[0]), now);
              && o == h.outcome && sessions.State() == h.sess && upstreams.State() == h.ups
              && neighbors.entries == h.cache && IoState() == Flushed(cfg, old(IoState()), h, now)
    {
      hide HandleFrame, Flush;
      o := Handle(now);
      if o.learnedIp != 0 {
        FlushPending(o.learnedIp, now);
      }
    }

    /**
     Where the packet at hand goes. `hasBuffer` says whether the pool can yield a buffer for a
     probe; if so it is any buffer not in use by then, so possibly one just freed.
     */
    method DisposeOf(o: F.Outcome, now: u64, hasBuffer: bool) returns (ghost alloc: Option<Mbuf>)
      requires Valid() && rx != [] && frames.Keys == owner.Keys && rx[0] in owner
      modifies this`frames, this`rx, this`tx, this`drop, this`pending, this`probed
      modifies this`owner, this`log, this`probes
      ensures Allocatable(old(IoState()), o, now, alloc) && (alloc.Some? <==> hasBuffer)
      ensures IoState() == Dispose(cfg, old(IoState()), o, now, alloc)
    {
      hide Enqueue, Probe;
      alloc := if hasBuffer then Some(0) else None;
      if o.result == F.Drop {
        drop := drop + [rx[0]];
        owner := owner[rx[0] := InDrop];
        rx := rx[1..];
      } else if o.result == F.PendingArp {
        EnqueueKeys(IoState(), o.waitIp, now);
        EnqueuePending(o.waitIp, now);
        var buffer := AnyBuffer(hasBuffer);
        MaybeProbeArp(o.waitIp, now, buffer);
        alloc := buffer;
      } else {
        tx := tx + [rx[0]];
        owner := owner[rx[0] := InTx];
        rx := rx[1..];
      }
    }

    method AnyBuffer(hasBuffer: bool) returns (buffer: Option<Mbuf>)
      ensures (buffer.Some? <==> hasBuffer) && (buffer.Some? ==> buffer.value !in frames)
    {
      buffer := None;
      if hasBuffer {
        BufferExists(frames.Keys);
        var p: Mbuf :| p !in frames;
        buffer := Some(p);
      }
    }

    /** The body of the burst loop is one step of the machine. */
    method HandleNextPacket(now: u64, hasBuffer: bool) returns (ghost alloc: Option<Mbuf>)
      requires Valid() && GwInv(cfg, State()) && rx != [] && clock <= now
      modifies this`frames, this`rx, this`tx, this`drop, this`pending, this`probed
      modifies this`owner, this`log, this`probes, this`clock
      modifies sessions, sessions.portInUse, upstreams, neighbors
      ensures Enabled(cfg, old(State()), HandleNext(now, alloc)) && (alloc.Some? <==> hasBuffer)
      ensures State() == HandleOne(cfg, old(State()), now, alloc)
    {
      hide HandleFrame, Flushed, Dispose, Allocatable, GwInv;
      ghost var h := Verdict(cfg, State(), now);
      FlushedReady(cfg, State(), h, now);
      var o := HandleAndFlush(now);
      alloc := DisposeOf(o, now, hasBuffer);
      clock := now;
    }

    // ------------------------------------------------------------ the batches

    method ReceiveBurst(burst: seq<(Mbuf, Frame)>)
      modifies this`frames, this`rx, this`owner, this`log
      ensures IoState() == Receive(old(IoState()), burst)
    {
      for i := 0 to |burst|
        invariant IoState() == Receive(old(IoState()), burst[..i])
      {
        assert burst[..i + 1][..i] == burst[..i];
        var (m, f) := burst[i];
        frames, rx := frames[m := f], rx + [m];
        owner, log := owner[m := InRx], log + [Acquire(m)];
      }
      assert burst[..|burst|] == burst;
    }

    /**
     The send loop and the frees after it. `accepts` are the numbers the NIC accepts in successive
     calls; a call that accepts nothing ends the loop.
     */
    method SendAndFree(accepts: seq<nat>) returns (sent: nat)
      modifies this`frames, this`tx, this`drop, this`owner, this`log
      ensures sent == TakenByNic(accepts, old(|tx|)) && IoState() == Drain(old(IoState()), sent)
    {
      sent := SendLoop(|tx|, accepts);
      var left := sent;
      while tx != []
        invariant Drain(IoState(), left) == Drain(old(IoState()), sent)
        decreases |tx|
      {
        var m := tx[0];
        tx := tx[1..];
        FreeBuffer(m, left > 0);
        left := if left > 0 then left - 1 else 0;
      }
      left := 0;
      while drop != []
        invariant tx == [] && Drain(IoState(), left) == Drain(old(IoState()), sent)
        decreases |drop|
      {
        var m := drop[0];
        drop := drop[1..];
        FreeBuffer(m, false);
      }
    }

    /** The send loop: call after call, until all is sent or the NIC takes nothing. */
    static method SendLoop(n: nat, accepts: seq<nat>) returns (sent: nat)
      ensures sent == TakenByNic(accepts, n)
    {
      sent := 0;
      var i := 0;
      while sent < n
        invariant sent <= n && i <= |accepts|
        invariant sent + TakenByNic(accepts[i..], n - sent) == TakenByNic(accepts, n)
        decreases n - sent
      {
        var m := if i < |accepts| then Min(accepts[i], n - sent) else 0;
        if m == 0 { break; }
        assert accepts[i..][1..] == accepts[i + 1..];
        sent, i := sent + m, i + 1;
      }
    }

    // --------------------------------------------------------- the worker loop

    /** The object has followed the run `steps` from `g`. */
    ghost predicate Follows(g: Gw, steps: seq<Step>)
      requires Valid()
      reads this, sessions, sessions.portInUse, upstreams, neighbors
    {
      GwInv(cfg, g) && IsRun(cfg, g, steps) && State() == Run(cfg, g, steps)
    }

    /** No packet still held was overdue when the queues were last swept. */
    ghost predicate Swept()
      reads this
    {
      lastArpExpire <= clock && WorkerSteps.NoneOverdue(IoState(), lastArpExpire)
    }

    lemma HeldBriefly(now: u64)
      requires Swept() && now < lastArpExpire + ARP_EXPIRE_INTERVAL
      ensures forall ip, i :: ip in pending && 0 <= i < |pending[ip]| ==>
                now < pending[ip][i].since + 65_000
    {
    }

    lemma FollowsNone()
      requires Valid() && GwInv(cfg, State())
      ensures Follows(State(), [])
    {
      hide GwInv;
    }

    lemma FollowsRun(g: Gw, steps: seq<Step>)
      requires Valid() && Follows(g, steps)
      ensures IsRun(cfg, g, steps) && Run(cfg, g, steps).io.tx == tx
    {
      hide GwInv, IsRun, Run;
    }

    lemma FollowsKeeps(g: Gw, steps: seq<Step>)
      requires Valid() && Follows(g, steps)
      ensures GwInv(cfg, State()) && frames.Keys == owner.Keys
    {
      hide GwInv;
      RunKeeps(cfg, g, steps);
      BuffersMatch(cfg, State());
    }

    method TimedSessionExpiry(now: u64, ghost g: Gw, ghost steps: seq<Step>) returns (ghost steps': seq<Step>)
      requires Valid() && Follows(g, steps) && clock <= now
      modifies this`lastExpire, this`clock, sessions, sessions.portInUse
      ensures Follows(g, steps') && old(clock) <= clock <= now && IoState() == old(IoState())
      ensures var due := Age(now, old(lastExpire)) >= 1_000;
              && steps' == steps + (if due then [ExpireSessions(now)] else [])
              && lastExpire == if due then now else old(lastExpire)
    {
      hide GwInv, Sessions.Inv;
      steps' := steps;
      assert steps + [] == steps;
      if Age(now, lastExpire) >= SESSION_EXPIRE_INTERVAL {
        RunAppend(cfg, g, steps, ExpireSessions(now));
        SessionsReady(cfg, State());
        hide IsRun, Run;
        var removed := sessions.Expire(now);
        lastExpire, clock := now, now;
        steps' := steps + [ExpireSessions(now)];
      }
    }

    method TimedArpExpiry(now: u64, ghost g: Gw, ghost steps: seq<Step>)
      returns (ghost steps': seq<Step>, ghost ips: seq<u32>)
      requires Valid() && Follows(g, steps) && clock <= now && Swept()
      modifies this`lastArpExpire, this`clock, this`frames, this`pending, this`owner, this`log, neighbors
      ensures Follows(g, steps') && clock <= now && Swept() && now < lastArpExpire + ARP_EXPIRE_INTERVAL
      ensures var due := Age(now, old(lastArpExpire)) >= 60_000;
              && steps' == steps + (if due then [ExpireNeighbors(now), ExpireHeld(now, ips)] else [])
              && lastArpExpire == if due then now else old(lastArpExpire)
    {
      hide GwInv, IsRun, Run, WorkerSteps.NoneOverdue;
      steps', ips := steps, [];
      assert steps + [] == steps;
      if Age(now, lastArpExpire) >= ARP_EXPIRE_INTERVAL {
        steps' := NeighborExpiryStep(now, g, steps);
        steps', ips := HeldExpiryStep(now, g, steps');
        assert steps + [ExpireNeighbors(now)] + [ExpireHeld(now, ips)]
            == steps + [ExpireNeighbors(now), ExpireHeld(now, ips)];
        lastArpExpire := now;
      }
    }

    method NeighborExpiryStep(now: u64, ghost g: Gw, ghost steps: seq<Step>) returns (ghost steps': seq<Step>)
      requires Valid() && Follows(g, steps) && clock <= now
      modifies this`clock, neighbors
      ensures Follows(g, steps') && clock == now && steps' == steps + [ExpireNeighbors(now)]
    {
      hide GwInv;
      RunAppend(cfg, g, steps, ExpireNeighbors(now));
      hide IsRun, Run;
      neighbors.Expire(now);
      clock := now;
      steps' := steps + [ExpireNeighbors(now)];
    }

    method HeldExpiryStep(now: u64, ghost g: Gw, ghost steps: seq<Step>)
      returns (ghost steps': seq<Step>, ghost ips: seq<u32>)
      requires Valid() && Follows(g, steps) && clock <= now
      modifies this`clock, this`frames, this`pending, this`owner, this`log
      ensures Follows(g, steps') && clock == now && WorkerSteps.NoneOverdue(IoState(), now)
      ensures steps' == steps + [ExpireHeld(now, ips)]
    {
      hide GwInv, Worker.ExpirePending, WorkerSteps.NoneOverdue;
      ghost var before := State();
      ips := ExpirePending(now);
      RunAppend(cfg, g, steps, ExpireHeld(now, ips));
      SweepLeavesYoung(cfg, before, ips, now);
      hide IsRun, Run;
      clock := now;
      steps' := steps + [ExpireHeld(now, ips)];
    }

    /** The block may have been rewritten since the last poll; what it holds now is what is applied. */
    method TimedPoll(now: u64, ghost g: Gw, ghost steps: seq<Step>) returns (ghost steps': seq<Step>)
      requires Valid() && Follows(g, steps)
      modifies this`lastPoll, upstreams, cp`lastApplied
      ensures Follows(g, steps')
      ensures var due := Age(now, old(lastPoll)) >= 1_000;
              var isNew := cp.magic == MAGIC && cp.version != 0 && cp.version != old(cp.lastApplied);
              var p := Decode(cp.data[..]);
              && steps' == steps + (if due && isNew then [ApplyControl(p.policy, p.endpoints)] else [])
              && lastPoll == (if due then now else old(lastPoll))
              && cp.lastApplied == if due && isNew then cp.version else old(cp.lastApplied)
    {
      hide GwInv, Decode;
      steps' := steps;
      assert steps + [] == steps;
      if Age(now, lastPoll) >= CP_POLL_INTERVAL {
        ghost var p := Decode(cp.data[..]);
        RunAppend(cfg, g, steps, ApplyControl(p.policy, p.endpoints));
        var applied := cp.PollApply(upstreams);
        if applied {
          steps' := steps + [ApplyControl(p.policy, p.endpoints)];
        }
        hide IsRun, Run;
        lastPoll := now;
      }
    }

    /** The burst loop; `pool` says for each packet whether the pool could yield a buffer. */
    method HandleBurst(now: u64, pool: seq<bool>, ghost g: Gw, ghost steps: seq<Step>)
      returns (ghost steps': seq<Step>, ghost allocs: seq<Option<Mbuf>>)
      requires Valid() && Follows(g, steps) && clock <= now && |pool| == |rx| && Swept()
      modifies this`frames, this`rx, this`tx, this`drop, this`pending, this`probed
      modifies this`owner, this`log, this`probes, this`clock
      modifies sessions, sessions.portInUse, upstreams, neighbors
      ensures Follows(g, steps') && clock <= now && rx == [] && Swept()
      ensures steps' == steps + Handles(now, allocs) && |allocs| == |pool|
      ensures forall k :: 0 <= k < |pool| ==> (allocs[k].Some? <==> pool[k])
    {
      hide *;
      steps', allocs := steps, [];
      HandlesNone(steps, now);
      var i := 0;
      while rx != []
        invariant Follows(g, steps') && clock <= now && i + |rx| == |pool| && Swept()
        invariant steps' == steps + Handles(now, allocs) && |allocs| == i
        invariant forall k :: 0 <= k < i ==> (allocs[k].Some? <==> pool[k])
        decreases |rx|
      {
        ghost var alloc := HandleStep(now, pool[i], g, steps');
        HandlesOne(steps, now, allocs, alloc);
        steps', allocs := steps' + [HandleNext(now, alloc)], allocs + [alloc];
        i := i + 1;
      }
    }

    method HandleStep(now: u64, hasBuffer: bool, ghost g: Gw, ghost steps: seq<Step>) returns (ghost alloc: Option<Mbuf>)
      requires Valid() && Follows(g, steps) && clock <= now && rx != [] && Swept()
      modifies this`frames, this`rx, this`tx, this`drop, this`pending, this`probed
      modifies this`owner, this`log, this`probes, this`clock
      modifies sessions, sessions.portInUse, upstreams, neighbors
      ensures Follows(g, steps + [HandleNext(now, alloc)]) && clock <= now && Swept()
      ensures rx == old(rx)[1..] && (alloc.Some? <==> hasBuffer)
    {
      hide GwInv, WorkerSteps.NoneOverdue;
      ghost var before := State();
      RunKeeps(cfg, g, steps);
      alloc := HandleNextPacket(now, hasBuffer);
      HandleOneRx(cfg, before, now, alloc);
      HandleOneNoneOverdue(cfg, before, now, alloc, lastArpExpire);
      RunAppend(cfg, g, steps, HandleNext(now, alloc));
      hide IsRun, Run, HandleOne;
    }

    /**
     One turn of the worker loop. `arrivals` are the frames the NIC delivers, in buffers that are not
     in use by then. The premises are those of the run's steps: a clock that does not go back, and
     VIP packets that name their sender. A packet still held at the end of a turn has been held for
     less than the timeout and the sweep interval together.
     */
    method Iterate(now: u64, arrivals: seq<Frame>, pool: seq<bool>, accepts: seq<nat>)
      returns (ghost steps: seq<Step>, ghost t: Turn)
      requires Valid() && GwInv(cfg, State()) && clock <= now && rx == [] && tx == [] && drop == [] && Swept()
      requires |arrivals| <= BURST && |pool| == |arrivals|
      requires forall i :: 0 <= i < |arrivals| ==> NamesClient(cfg, arrivals[i])
      modifies this, sessions, sessions.portInUse, upstreams, neighbors, cp`lastApplied
      ensures Follows(old(State()), steps)
      ensures var control := Age(now, old(lastPoll)) >= 1_000
                             && cp.magic == MAGIC && cp.version != 0 && cp.version != old(cp.lastApplied);
              var house := House(now, Age(now, old(lastExpire)) >= 1_000, Age(now, old(lastArpExpire)) >= 60_000, t.ips,
                                 if control then Some(Decode(cp.data[..])) else None);
              IsTurn(cfg, old(State()), steps, house, now, arrivals, pool, accepts, t)
      ensures lastExpire == (if Age(now, old(lastExpire)) >= 1_000 then now else old(lastExpire))
      ensures lastArpExpire == (if Age(now, old(lastArpExpire)) >= 60_000 then now else old(lastArpExpire))
      ensures lastPoll == (if Age(now, old(lastPoll)) >= 1_000 then now else old(lastPoll))
      ensures GwInv(cfg, State()) && clock <= now && rx == [] && tx == [] && drop == [] && Swept()
      ensures forall ip, i :: ip in pending && 0 <= i < |pending[ip]| ==>
                now < pending[ip][i].since + 65_000
    {
      hide *;
      ghost var g := State();
      FollowsNone();
      ghost var house, ips := Housekeeping(now, g);
      steps, t := house, Turn(ips, [], [], 0);
      QuietTurn(cfg, g, house, now, pool, accepts, t);
      if arrivals != [] {
        steps, t := BurstPart(now, arrivals, pool, accepts, g, house, ips);
      }
      FollowsKeeps(g, steps);
      HeldBriefly(now);
    }

    method Housekeeping(now: u64, ghost g: Gw) returns (ghost steps: seq<Step>, ghost ips: seq<u32>)
      requires Valid() && Follows(g, []) && clock <= now && Swept()
      modifies this`lastExpire, this`lastArpExpire, this`lastPoll, this`clock
      modifies this`frames, this`pending, this`owner, this`log
      modifies sessions, sessions.portInUse, upstreams, neighbors, cp`lastApplied
      ensures Follows(g, steps) && clock <= now && Swept() && now < lastArpExpire + ARP_EXPIRE_INTERVAL
      ensures var control := Age(now, old(lastPoll)) >= 1_000
                             && cp.magic == MAGIC && cp.version != 0 && cp.version != old(cp.lastApplied);
              steps == House(now, Age(now, old(lastExpire)) >= 1_000, Age(now, old(lastArpExpire)) >= 60_000, ips,
                             if control then Some(Decode(cp.data[..])) else None)
      ensures lastExpire == (if Age(now, old(lastExpire)) >= 1_000 then now else old(lastExpire))
      ensures lastArpExpire == (if Age(now, old(lastArpExpire)) >= 60_000 then now else old(lastArpExpire))
      ensures lastPoll == (if Age(now, old(lastPoll)) >= 1_000 then now else old(lastPoll))
    {
      hide Follows, WorkerSteps.NoneOverdue, Decode;
      steps := TimedSessionExpiry(now, g, []);
      steps, ips := TimedArpExpiry(now, g, steps);
      steps := TimedPoll(now, g, steps);
    }

    method BurstPart(now: u64, arrivals: seq<Frame>, pool: seq<bool>, accepts: seq<nat>,
                     ghost g: Gw, ghost house: seq<Step>, ghost ips: seq<u32>)
      returns (ghost steps: seq<Step>, ghost t: Turn)
      requires Valid() && Follows(g, house) && clock <= now && rx == [] && tx == [] && drop == [] && Swept()
      requires arrivals != [] && |arrivals| <= BURST && |pool| == |arrivals|
      requires forall i :: 0 <= i < |arrivals| ==> NamesClient(cfg, arrivals[i])
      modifies this`frames, this`rx, this`tx, this`drop, this`pending, this`probed
      modifies this`owner, this`log, this`probes, this`clock
      modifies sessions, sessions.portInUse, upstreams, neighbors
      ensures Follows(g, steps) && clock <= now && rx == [] && tx == [] && drop == [] && Swept()
      ensures IsTurn(cfg, g, steps, house, now, arrivals, pool, accepts, t) && t.ips == ips
    {
      hide *;
      FollowsKeeps(g, house);
      var burst := Deliver(arrivals);
      steps := ReceiveStep(burst, g, house);
      ghost var allocs;
      steps, allocs := HandleBurst(now, pool, g, steps);
      FollowsRun(g, steps);
      ghost var sent;
      steps, sent := SendStep(accepts, g, steps);
      t := Turn(ips, burst, allocs, sent);
      BurstTurn(cfg, g, house, now, arrivals, pool, accepts, t);
    }

    /** The NIC puts the frames in any buffers that are not in use. */
    method Deliver(arrivals: seq<Frame>) returns (burst: seq<(Mbuf, Frame)>)
      requires frames.Keys == owner.Keys
      ensures |burst| == |arrivals| && FreshBurst(IoState(), burst)
      ensures forall i :: 0 <= i < |burst| ==> burst[i].1 == arrivals[i]
    {
      burst := [];
      var used := frames.Keys;
      for i := 0 to |arrivals|
        invariant |burst| == i && FreshBurst(IoState(), burst) && owner.Keys <= used
        invariant forall k :: 0 <= k < i ==> burst[k].1 == arrivals[k] && burst[k].0 in used
      {
        BufferExists(used);
        var m: Mbuf :| m !in used;
        burst, used := burst + [(m, arrivals[i])], used + {m};
      }
    }

    method ReceiveStep(burst: seq<(Mbuf, Frame)>, ghost g: Gw, ghost steps: seq<Step>)
      returns (ghost steps': seq<Step>)
      requires Valid() && Follows(g, steps) && rx == [] && tx == [] && drop == [] && Swept()
      requires |burst| <= BURST && FreshBurst(IoState(), burst)
      requires forall i :: 0 <= i < |burst| ==> NamesClient(cfg, burst[i].1)
      modifies this`frames, this`rx, this`owner, this`log
      ensures Follows(g, steps') && |rx| == |burst| && Swept() && steps' == steps + [Recv(burst)]
    {
      hide GwInv, NamesClient, WorkerSteps.NoneOverdue;
      RunAppend(cfg, g, steps, Recv(burst));
      WorkerSteps.ReceiveEffect(IoState(), burst);
      hide IsRun, Run, Receive;
      ReceiveBurst(burst);
      SameQueues(old(IoState()), IoState(), lastArpExpire);
      steps' := steps + [Recv(burst)];
    }

    method SendStep(accepts: seq<nat>, ghost g: Gw, ghost steps: seq<Step>)
      returns (ghost steps': seq<Step>, ghost sent: nat)
      requires Valid() && Follows(g, steps) && rx == [] && Swept()
      modifies this`frames, this`tx, this`drop, this`owner, this`log
      ensures Follows(g, steps') && tx == [] && drop == [] && Swept()
      ensures steps' == steps + [Finish(sent)] && sent == TakenByNic(accepts, |old(tx)|)
    {
      hide GwInv, Drain, WorkerSteps.NoneOverdue;
      ghost var io := IoState();
      sent := SendAndFree(accepts);
      RunAppend(cfg, g, steps, Finish(sent));
      hide IsRun, Run;
      DrainEmpties(io, sent);
      SameQueues(io, IoState(), lastArpExpire);
      steps' := steps + [Finish(sent)];
    }
  }

  /** A finite set of identifiers leaves one free. */
  lemma {:induction false} BufferExists(used: set<Mbuf>)
    ensures exists p: Mbuf :: p !in used
  {
    var top := UpperBound(used);
    assert top !in used;
  }

  lemma {:induction false} UpperBound(used: set<Mbuf>) returns (top: Mbuf)
    ensures forall m :: m in used ==> m < top
    decreases |used|
  {
    if used == {} {
      top := 0;
    } else {
      var m :| m in used;
      var rest := UpperBound(used - {m});
      top := if m < rest then rest else m + 1;
      assert forall x :: x in used ==> x == m || x in used - {m};
    }
  }

  lemma SweepLeavesYoung(cfg: F.Config, g: Gw, ips: seq<u32>, now: u64)
    requires GwInv(cfg, g) && g.clock <= now && NoDup(ips) && forall ip :: ip in g.io.pending ==> ip in ips
    ensures WorkerSteps.NoneOverdue(Worker.ExpirePending(g.io, ips, now), now)
  {
    WorkerSteps.TimedLater(g.io, g.clock, now);
    WorkerSteps.ExpiryLeavesYoung(g.io, ips, now);
  }

  lemma SameQueues(io: Io, r: Io, t: u64)
    requires WorkerSteps.NoneOverdue(io, t) && r.pending == io.pending
    ensures WorkerSteps.NoneOverdue(r, t)
  {
  }

  lemma BuffersMatch(cfg: F.Config, g: Gw)
    requires GwInv(cfg, g)
    ensures g.io.frames.Keys == g.io.owner.Keys
  {
  }

  /** When the packet at hand is disposed of, every buffer has a frame and a place. */
  lemma FlushedReady(cfg: F.Config, g: Gw, h: Handled, now: u64)
    requires GwInv(cfg, g) && g.io.rx != [] && g.clock <= now
    ensures var r := Flushed(cfg, g.io, h, now);
            r.rx == g.io.rx && r.frames.Keys == r.owner.Keys && r.rx[0] in r.owner
  {
    hide SessInv, NamesClient, AllPlaces;
    WorkerSteps.TimedLater(g.io, g.clock, now);
    FlushedKeeps(cfg, g.io, h, now);
    FirstOwned(Flushed(cfg, g.io, h, now), now);
  }

  lemma EnqueueKeys(io: Io, ip: u32, now: u64)
    requires io.rx != [] && io.frames.Keys == io.owner.Keys && io.rx[0] in io.owner
    ensures Enqueue(io, ip, now).frames.Keys == Enqueue(io, ip, now).owner.Keys
  {
  }

  lemma SessionsReady(cfg: F.Config, g: Gw)
    requires GwInv(cfg, g)
    ensures Sessions.Inv(g.sess)
  {
  }

  /** A step taken at the end of a run extends it. */
  lemma RunAppend(cfg: F.Config, g: Gw, steps: seq<Step>, s: Step)
    requires GwInv(cfg, g) && IsRun(cfg, g, steps) && Enabled(cfg, Run(cfg, g, steps), s)
    ensures IsRun(cfg, g, steps + [s])
    ensures Run(cfg, g, steps + [s]) == Apply(cfg, Run(cfg, g, steps), s)
    ensures GwInv(cfg, Run(cfg, g, steps)) && GwInv(cfg, Run(cfg, g, steps + [s]))
  {
    hide GwInv, Apply, Enabled, IsRun, Run;
    RunOne(cfg, Run(cfg, g, steps), s);
    RunConcat(cfg, g, steps, [s]);
    RunKeeps(cfg, g, steps);
    RunKeeps(cfg, g, steps + [s]);
  }

  lemma ExpiredTest(e: HeldPacket, now: u64)
    ensures Expired(e, now) <==> Age(now, e.since) >= PENDING_TIMEOUT
  {
  }

  lemma {:induction false} ExpireFromElsewhere(io: Io, ip: u32, k: nat, now: u64)
    requires ip in io.pending
    ensures var r := ExpireFrom(io, ip, k, now);
            ip in r.pending && forall a :: a != ip ==> (a in r.pending <==> a in io.pending)
    decreases |io.pending[ip]| - k
  {
    hide Expired;
    if k < |io.pending[ip]| {
      if Expired(io.pending[ip][k], now) {
        ExpireFromElsewhere(FreeHeld(io, ip, k), ip, k, now);
      } else {
        ExpireFromElsewhere(io, ip, k + 1, now);
      }
    }
  }

  lemma ExpireQueueElsewhere(io: Io, ip: u32, now: u64)
    ensures forall a :: a != ip ==> (a in ExpireQueue(io, ip, now).pending <==> a in io.pending)
  {
    if ip in io.pending {
      ExpireFromElsewhere(io, ip, 0, now);
    }
  }

  /** The buffers with the queue of `ip` as the loop sees it: kept so far, then still to come. */
  ghost function AtEntry(io: Io, pending: map<u32, seq<HeldPacket>>, ip: u32, q: seq<HeldPacket>): Io {
    io.(pending := pending[ip := q])
  }

  ghost function EntryNext(cfg: F.Config, c: Cache, io: Io, ip: u32, e: HeldPacket, now: u64): (Io, bool) {
    if Expired(e, now) then (Release(io, e.m, false), false)
    else
      match F.FinishL2(cfg, c, FrameOf(io, e.m), ip)
      case None => (io, true)
      case Some(f) =>
        if |io.tx| >= BURST then (io.(frames := io.frames[e.m := f]), true)
        else (io.(frames := io.frames[e.m := f], tx := io.tx + [e.m], owner := io.owner[e.m := InTx]), false)
  }

  /** The loop at entry `i` of `q`, with `left` kept so far, has the same flush ahead as at its start. */
  ghost predicate FlushAt(cfg: F.Config, c: Cache, io0: Io, io: Io, ip: u32, left: seq<HeldPacket>, q: seq<HeldPacket>,
                          i: nat, now: u64)
  {
    && i <= |q| && ip in io0.pending
    && FlushFrom(cfg, c, io0, ip, 0, now)
       == FlushFrom(cfg, c, AtEntry(io, io0.pending, ip, left + q[i..]), ip, |left|, now)
  }

  lemma FlushStarts(cfg: F.Config, c: Cache, io0: Io, ip: u32, now: u64)
    requires ip in io0.pending
    ensures FlushAt(cfg, c, io0, io0, ip, [], io0.pending[ip], 0, now)
  {
    var q := io0.pending[ip];
    hide FlushFrom;
    assert [] + q[0..] == q && io0.pending[ip := q] == io0.pending;
    assert AtEntry(io0, io0.pending, ip, [] + q[0..]) == io0;
  }

  /** Handling one entry in place is one turn of the flush loop on the queue. */
  lemma EntryInQueue(cfg: F.Config, c: Cache, io0: Io, io: Io, ip: u32,
                     left: seq<HeldPacket>, q: seq<HeldPacket>, i: nat, now: u64)
    requires FlushAt(cfg, c, io0, io, ip, left, q, i, now) && i < |q|
    ensures var (after, keep) := EntryNext(cfg, c, io, ip, q[i], now);
            FlushAt(cfg, c, io0, after, ip, if keep then left + [q[i]] else left, q, i + 1, now)
  {
    hide FlushFrom, EntryNext;
    EntryTurn(cfg, c, io, io0.pending, ip, left, q, i, now);
  }

  lemma EntryTurn(cfg: F.Config, c: Cache, io: Io, pending: map<u32, seq<HeldPacket>>, ip: u32,
                  left: seq<HeldPacket>, q: seq<HeldPacket>, i: nat, now: u64)
    requires i < |q|
    ensures var (after, keep) := EntryNext(cfg, c, io, ip, q[i], now);
            var left' := if keep then left + [q[i]] else left;
            FlushFrom(cfg, c, AtEntry(io, pending, ip, left + q[i..]), ip, |left|, now)
            == FlushFrom(cfg, c, AtEntry(after, pending, ip, left' + q[i + 1..]), ip, |left'|, now)
  {
    Gap(left, q, i);
    hide F.FinishL2, FrameOf, Expired, Release;
    var io' := AtEntry(io, pending, ip, left + q[i..]);
    assert io'.pending[ip] == left + q[i..] && io'.pending[ip][|left|] == q[i];
    assert io'.pending[ip := left + q[i + 1..]] == pending[ip := left + q[i + 1..]];
    FlushTurn(cfg, c, io', ip, |left|, now);
    hide FlushFrom;
    ReleaseAside(io, pending[ip := left + q[i + 1..]], q[i].m);
  }

  /** Giving up a buffer and changing the queues do not interfere. */
  lemma ReleaseAside(io: Io, pending: map<u32, seq<HeldPacket>>, m: Mbuf)
    ensures Release(io.(pending := pending), m, false) == Release(io, m, false).(pending := pending)
  {
  }

  /** One turn of the flush loop, unfolded. */
  lemma FlushTurn(cfg: F.Config, c: Cache, io: Io, ip: u32, k: nat, now: u64)
    requires ip in io.pending && k < |io.pending[ip]|
    ensures var e := io.pending[ip][k];
            FlushFrom(cfg, c, io, ip, k, now) ==
              if Expired(e, now) then FlushFrom(cfg, c, FreeHeld(io, ip, k), ip, k, now)
              else match F.FinishL2(cfg, c, FrameOf(io, e.m), ip)
                   case None => FlushFrom(cfg, c, io, ip, k + 1, now)
                   case Some(f) =>
                     if |io.tx| >= BURST then FlushFrom(cfg, c, io.(frames := io.frames[e.m := f]), ip, k + 1, now)
                     else FlushFrom(cfg, c, SendHeld(io, ip, k, f), ip, k, now)
  {
    hide F.FinishL2, FrameOf, Expired, FreeHeld, SendHeld;
  }

  /** At the end of the loop the kept entries are the queue that is left. */
  lemma FlushDone(cfg: F.Config, c: Cache, io0: Io, io: Io, ip: u32, left: seq<HeldPacket>, q: seq<HeldPacket>, now: u64)
    requires FlushAt(cfg, c, io0, io, ip, left, q, |q|, now)
    ensures FlushFrom(cfg, c, io0, ip, 0, now) == io.(pending := io0.pending[ip := left])
  {
    assert left + q[|q|..] == left;
  }

  lemma Gap(left: seq<HeldPacket>, q: seq<HeldPacket>, i: nat)
    requires i < |q|
    ensures (left + q[i..])[|left|] == q[i]
    ensures Without(left + q[i..], |left|) == left + q[i + 1..]
    ensures left + [q[i]] + q[i + 1..] == left + q[i..]
  {
  }
}
