/**
 The gateway as a state machine. A run is any sequence of: a burst arriving, one packet of it
 handled, the iteration's batches handed over, the three expiries, and a control-plane update
 (src/vgw.cpp). The worker loop is one such sequence per iteration.
 */
module Gateway {
  import opened Base
  import opened Packet
  import opened Sessions
  import opened Upstreams
  import opened Neighbors
  import opened Arp
  import opened Worker
  import opened Ownership
  import F = Forward

  const NEIGHBOR_TIMEOUT: u64 := 300_000

  datatype Gw = Gw(sess: Table, cache: Cache, ups: Ups, io: Io, clock: u64)

  datatype Step =
    | Recv(burst: seq<(Mbuf, Frame)>)
    | HandleNext(now: u64, alloc: Option<Mbuf>)
    | Finish(sent: nat)
    | ExpireSessions(now: u64)
    | ExpireNeighbors(now: u64)
    | ExpireHeld(now: u64, ips: seq<u32>)
    | ApplyControl(policy: Policy, nodes: seq<Endpoint>)

  function ArpCfg(cfg: F.Config): ArpConfig {
    ArpConfig(cfg.gatewayIp, cfg.vipIp, cfg.gatewayMac)
  }

  /** `ipv4_src_be`. */
  function Ipv4Src(f: Frame): u32 {
    if |f| < ETH_LEN + MIN_IP_LEN || EtherType(f) != ETHER_TYPE_IPV4 then 0 else IpAt(f, SRC_AT)
  }

  /** `passive_learn_ipv4`: multicast and zero sources are not learned. */
  function PassiveLearn(c: Cache, f: Frame, now: u64): Cache {
    var src := Ipv4Src(f);
    if src == 0 || src % 0x100 >= 224 then c else Learn(c, src, MacAt(f, 6), now)
  }

  datatype Handled = Handled(sess: Table, cache: Cache, ups: Ups, frame: Frame, outcome: F.Outcome)

  /** `VioletGW::handle` on the bytes of one packet; `waiting` are the addresses with a queue. */
  function HandleFrame(cfg: F.Config, g: Gw, waiting: set<u32>, f: Frame, now: u64): Handled {
    if EtherType(f) == ETHER_TYPE_ARP then
      var a := Arp.Handle(ArpCfg(cfg), g.cache, f, now);
      Handled(g.sess, a.cache, g.ups, a.frame,
              F.Outcome(if a.reply then F.TxArp else F.Drop, 0, a.learned))
    else if EtherType(f) == ETHER_TYPE_IPV4 then
      var c := PassiveLearn(g.cache, f, now);
      var o := F.Handle(cfg, c, g.sess, g.ups, f, now);
      var src := Ipv4Src(o.frame);
      Handled(o.sess, c, o.ups, o.frame,
              if src != 0 && src in waiting then o.outcome.(learnedIp := src) else o.outcome)
    else Handled(g.sess, g.cache, g.ups, f, F.DROPPED)
  }

  /** The packet at hand after `handle`, and the flush that a learned address sets off. */
  function Flushed(cfg: F.Config, io: Io, h: Handled, now: u64): Io
    requires io.rx != []
  {
    var io1 := io.(frames := io.frames[io.rx[0] := h.frame]);
    if h.outcome.learnedIp != 0 then Flush(cfg, h.cache, io1, h.outcome.learnedIp, now) else io1
  }

  /** Where the packet at hand goes. */
  function Dispose(cfg: F.Config, io: Io, o: F.Outcome, now: u64, alloc: Option<Mbuf>): Io
    requires io.rx != []
  {
    match o.result
    case Drop => ToDrop(io)
    case PendingArp => Probe(ArpCfg(cfg), Enqueue(io, o.waitIp, now), o.waitIp, now, alloc)
    case _ => ToTx(io)
  }

  lemma {:induction false} FlushFromRx(cfg: F.Config, c: Cache, io: Io, ip: u32, k: nat, now: u64)
    requires ip in io.pending
    ensures FlushFrom(cfg, c, io, ip, k, now).rx == io.rx
    decreases |io.pending[ip]| - k
  {
    hide F.FinishL2, Expired, FrameOf;
    var q := io.pending[ip];
    if k < |q| {
      if Expired(q[k], now) {
        FlushFromRx(cfg, c, FreeHeld(io, ip, k), ip, k, now);
      } else if F.FinishL2(cfg, c, FrameOf(io, q[k].m), ip).None? {
        FlushFromRx(cfg, c, io, ip, k + 1, now);
      } else {
        var f := F.FinishL2(cfg, c, FrameOf(io, q[k].m), ip).value;
        if |io.tx| >= BURST {
          FlushFromRx(cfg, c, io.(frames := io.frames[q[k].m := f]), ip, k + 1, now);
        } else {
          FlushFromRx(cfg, c, SendHeld(io, ip, k, f), ip, k, now);
        }
      }
    }
  }

  lemma FlushedRx(cfg: F.Config, io: Io, h: Handled, now: u64)
    requires io.rx != []
    ensures Flushed(cfg, io, h, now).rx == io.rx
  {
    var ip := h.outcome.learnedIp;
    var io1 := io.(frames := io.frames[io.rx[0] := h.frame]);
    if ip in io1.pending {
      FlushFromRx(cfg, h.cache, io1, ip, 0, now);
      hide FlushFrom;
    }
  }

  /** What `handle` makes of the packet at hand. */
  function Verdict(cfg: F.Config, g: Gw, now: u64): Handled
    requires g.io.rx != []
  {
    HandleFrame(cfg, g, g.io.pending.Keys, FrameOf(g.io, g.io.rx[0]), now)
  }

  /** One turn of the burst loop. */
  function HandleOne(cfg: F.Config, g: Gw, now: u64, alloc: Option<Mbuf>): Gw
    requires g.io.rx != []
  {
    var h := Verdict(cfg, g, now);
    FlushedRx(cfg, g.io, h, now);
    Gw(h.sess, h.cache, h.ups, Dispose(cfg, Flushed(cfg, g.io, h, now), h.outcome, now, alloc), now)
  }

  // -------------------------------------------------------------------- runs

  /** A packet for the VIP names its sender. */
  ghost predicate NamesClient(cfg: F.Config, f: Frame) {
    ParseOk(f) && F.ForVip(cfg, f) ==> IpAt(f, SRC_AT) != 0
  }

  /**
   A buffer that the pool yields for a probe is not held at that moment. It may be one that was
   freed earlier in the same step, by the flush or because the queue was full.
   */
  ghost predicate Allocatable(io: Io, o: F.Outcome, now: u64, alloc: Option<Mbuf>)
    requires io.rx != []
  {
    o.result == F.PendingArp && alloc.Some? ==> alloc.value !in Enqueue(io, o.waitIp, now).owner
  }

  /**
   What a step takes for granted: the clock does not go back, arriving and allocated buffers are
   not held when they arrive, and VIP packets have a non-zero source.
   */
  ghost predicate Enabled(cfg: F.Config, g: Gw, s: Step) {
    match s
    case Recv(burst) =>
      && g.io.rx == [] && g.io.tx == [] && g.io.drop == []
      && |burst| <= BURST && FreshBurst(g.io, burst)
      && forall i :: 0 <= i < |burst| ==> NamesClient(cfg, burst[i].1)
    case HandleNext(now, alloc) =>
      && g.io.rx != [] && g.clock <= now
      && var h := Verdict(cfg, g, now);
         FlushedRx(cfg, g.io, h, now);
         Allocatable(Flushed(cfg, g.io, h, now), h.outcome, now, alloc)
    case Finish(_) => g.io.rx == []
    case ExpireSessions(now) => g.clock <= now
    case ExpireNeighbors(now) => g.clock <= now
    case ExpireHeld(now, ips) => g.clock <= now && NoDup(ips) && forall ip :: ip in ips <==> ip in g.io.pending
    case ApplyControl(_, _) => true
  }

  ghost function Apply(cfg: F.Config, g: Gw, s: Step): Gw
    requires Enabled(cfg, g, s)
  {
    match s
    case Recv(burst) => g.(io := Receive(g.io, burst))
    case HandleNext(now, alloc) => HandleOne(cfg, g, now, alloc)
    case Finish(sent) => g.(io := Drain(g.io, sent))
    case ExpireSessions(now) => g.(sess := Sessions.Expire(g.sess, now), clock := now)
    case ExpireNeighbors(now) => g.(cache := Neighbors.Expire(g.cache, NEIGHBOR_TIMEOUT, now), clock := now)
    case ExpireHeld(now, ips) => g.(io := ExpirePending(g.io, ips, now), clock := now)
    case ApplyControl(policy, nodes) => g.(ups := g.ups.(policy := policy, nodes := nodes))
  }

  ghost predicate IsRun(cfg: F.Config, g: Gw, steps: seq<Step>)
    decreases |steps|
  {
    steps == [] || (Enabled(cfg, g, steps[0]) && IsRun(cfg, Apply(cfg, g, steps[0]), steps[1..]))
  }

  ghost function Run(cfg: F.Config, g: Gw, steps: seq<Step>): Gw
    requires IsRun(cfg, g, steps)
    decreases |steps|
  {
    if steps == [] then g else Run(cfg, Apply(cfg, g, steps[0]), steps[1..])
  }

  /** A gateway as `init_services` leaves it: empty tables, only static neighbors. */
  ghost predicate Initial(cfg: F.Config, g: Gw) {
    && g.sess == Fresh(cfg.gatewayIp, g.sess.idleTimeout, g.sess.begin, g.sess.end) && RangeOk(g.sess)
    && (forall ip :: ip in g.cache ==> g.cache[ip].isStatic && g.cache[ip].lastSeen == 0)
    && g.io == IDLE_IO
  }
}
