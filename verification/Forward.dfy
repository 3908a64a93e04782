/**
 The UDP forwarding pipeline on one frame: classification, session lookup or creation,
 address translation both ways, and the layer-2 rewrite (src/forward.cpp).
 */
module Forward {
  import opened Base
  import opened Packet
  import opened Sessions
  import opened Upstreams
  import opened Neighbors

  datatype Config = Config(
    vipIp: u32, vipPort: u16, gatewayIp: u32, gatewayMac: Mac, verify: bool, recompute: bool)

  datatype Result = Drop | TxForward | TxReverse | TxArp | PendingArp

  datatype Outcome = Outcome(result: Result, waitIp: u32, learnedIp: u32)

  const DROPPED := Outcome(Drop, 0, 0)

  /** Session table, upstream table and frame after one call, with its outcome. */
  datatype Out = Out(sess: Table, ups: Ups, frame: Frame, outcome: Outcome)

  function KeyOf(f: Frame): FlowKey
    requires HeadersFit(f)
  {
    FlowKey(IpAt(f, SRC_AT), IpAt(f, DST_AT), SrcPort(f), DstPort(f), PROTO_UDP)
  }

  /** client:sport -> vip:vport becomes gateway:snat -> upstream:uport. */
  function ForwardNat(cfg: Config, f: Frame, s: Session): (r: Frame)
    requires HeadersFit(f)
    ensures |r| == |f|
  {
    Rewrite(f, cfg.gatewayIp, s.upstreamIp, s.snatPort, s.upstreamPort, cfg.recompute)
  }

  /** upstream:uport -> gateway:snat becomes vip:vport -> client:sport. */
  function ReverseNat(cfg: Config, f: Frame, s: Session): (r: Frame)
    requires HeadersFit(f)
    ensures |r| == |f|
  {
    Rewrite(f, s.vipIp, s.clientIp, s.vipPort, s.clientPort, cfg.recompute)
  }

  /** Resolves the next hop of a translated frame: send it now, or hold it for ARP. */
  function Emit(cfg: Config, c: Cache, f: Frame, nextHop: u32, sent: Result): (Frame, Outcome)
    requires ETH_LEN <= |f|
  {
    if nextHop in c then (SetL2(f, cfg.gatewayMac, c[nextHop].mac), Outcome(sent, 0, 0))
    else (f, Outcome(PendingArp, nextHop, 0))
  }

  /** The session a VIP packet uses, created on a miss; also the pick counter's new value. */
  function SessionFor(sess: Table, ups: Ups, key: FlowKey, now: u64): (Table, Ups, Option<Handle>) {
    match LookupForward(sess, key)
    case Some(h) => (Touch(sess, h, now), ups, Some(h))
    case None =>
      var (ups1, pick) := Pick(ups, key);
      if pick.None? || pick.value.ip == 0 then (sess, ups1, None)
      else
        var (sess1, h) := Create(sess, key, pick.value.ip, pick.value.port, now);
        (sess1, ups1, h)
  }

  function HandleForward(cfg: Config, c: Cache, sess: Table, ups: Ups, f: Frame, now: u64): Out
    requires HeadersFit(f)
  {
    var (sess1, ups1, h) := SessionFor(sess, ups, KeyOf(f), now);
    if h.None? || h.value !in sess1.heap then Out(sess1, ups1, f, DROPPED)
    else
      var s := sess1.heap[h.value];
      var (f1, o) := Emit(cfg, c, ForwardNat(cfg, f, s), s.upstreamIp, TxForward);
      Out(sess1, ups1, f1, o)
  }

  function HandleReverse(cfg: Config, c: Cache, sess: Table, ups: Ups, f: Frame, now: u64): Out
    requires HeadersFit(f)
  {
    match LookupReverse(sess, KeyOf(f))
    case None => Out(sess, ups, f, DROPPED)
    case Some(h) =>
      var sess1 := Touch(sess, h, now);
      var s := sess1.heap[h];
      var (f1, o) := Emit(cfg, c, ReverseNat(cfg, f, s), s.clientIp, TxReverse);
      Out(sess1, ups, f1, o)
  }

  predicate ForVip(cfg: Config, f: Frame)
    requires HeadersFit(f)
  {
    IpAt(f, DST_AT) == cfg.vipIp && DstPort(f) == cfg.vipPort
  }

  function Handle(cfg: Config, c: Cache, sess: Table, ups: Ups, f: Frame, now: u64): Out {
    if Parse(f, cfg.verify).Failed? then Out(sess, ups, f, DROPPED)
    else if ForVip(cfg, f) then HandleForward(cfg, c, sess, ups, f, now)
    else if IpAt(f, DST_AT) == cfg.gatewayIp then HandleReverse(cfg, c, sess, ups, f, now)
    else Out(sess, ups, f, DROPPED)
  }

  /** `finish_l2` on a held frame. */
  function FinishL2(cfg: Config, c: Cache, f: Frame, nextHop: u32): Option<Frame> {
    if !ParseOk(f) || nextHop !in c then None
    else Some(SetL2(f, cfg.gatewayMac, c[nextHop].mac))
  }
}

/** The forwarder object: its calls on the tables it shares with the gateway. */
module Forwarders {
  import opened Base
  import opened Packet
  import opened Sessions
  import opened SessionTables
  import opened Upstreams
  import opened UpstreamTables
  import opened NeighborTables
  import F = Forward

  class Forwarder {
    const cfg: F.Config
    const sessions: SessionTable
    const upstreams: UpstreamTable
    const neighbors: NeighborTable

    constructor (cfg: F.Config, sessions: SessionTable, upstreams: UpstreamTable, neighbors: NeighborTable)
      ensures this.cfg == cfg && this.sessions == sessions
      ensures this.upstreams == upstreams && this.neighbors == neighbors
    {
      this.cfg, this.sessions, this.upstreams, this.neighbors := cfg, sessions, upstreams, neighbors;
    }

    method SessionFor(key: FlowKey, now: u64) returns (r: Option<Handle>)
      requires sessions.Valid()
      modifies sessions, sessions.portInUse, upstreams
      ensures (sessions.State(), upstreams.State(), r)
           == F.SessionFor(old(sessions.State()), old(upstreams.State()), key, now)
    {
      hide Create, Pick;
      if key in sessions.forward && sessions.forward[key] in sessions.heap {
        r := Some(sessions.forward[key]);
        sessions.Touch(r.value, now);
      } else {
        var pick := upstreams.Pick(key);
        if pick.None? || pick.value.ip == 0 { return None; }
        r := sessions.Create(key, pick.value.ip, pick.value.port, now);
      }
    }

    method HandleForward(f: Frame, now: u64) returns (f': Frame, o: F.Outcome)
      requires HeadersFit(f) && sessions.Valid()
      modifies sessions, sessions.portInUse, upstreams
      ensures F.Out(sessions.State(), upstreams.State(), f', o)
           == F.HandleForward(cfg, neighbors.entries, old(sessions.State()), old(upstreams.State()), f, now)
    {
      hide F.SessionFor, F.ForwardNat, F.Emit;
      var found := SessionFor(F.KeyOf(f), now);
      if found.None? || found.value !in sessions.heap { return f, F.DROPPED; }
      var s := sessions.heap[found.value];
      f', o := EmitTo(F.ForwardNat(cfg, f, s), s.upstreamIp, F.TxForward);
    }

    method HandleReverse(f: Frame, now: u64) returns (f': Frame, o: F.Outcome)
      requires HeadersFit(f) && sessions.Valid()
      modifies sessions
      ensures F.Out(sessions.State(), upstreams.State(), f', o)
           == F.HandleReverse(cfg, neighbors.entries, old(sessions.State()), upstreams.State(), f, now)
    {
      var key := F.KeyOf(f);
      if key !in sessions.reverse || sessions.reverse[key] !in sessions.heap { return f, F.DROPPED; }
      var h := sessions.reverse[key];
      sessions.Touch(h, now);
      var s := sessions.heap[h];
      f', o := EmitTo(F.ReverseNat(cfg, f, s), s.clientIp, F.TxReverse);
    }

    method EmitTo(f: Frame, nextHop: u32, sent: F.Result) returns (f': Frame, o: F.Outcome)
      requires ETH_LEN <= |f|
      ensures (f', o) == F.Emit(cfg, neighbors.entries, f, nextHop, sent)
    {
      var mac := neighbors.Lookup(nextHop);
      if mac.None? { return f, F.Outcome(F.PendingArp, nextHop, 0); }
      return SetL2(f, cfg.gatewayMac, mac.value), F.Outcome(sent, 0, 0);
    }

    method Handle(f: Frame, now: u64) returns (f': Frame, o: F.Outcome)
      requires sessions.Valid()
      modifies sessions, sessions.portInUse, upstreams
      ensures F.Out(sessions.State(), upstreams.State(), f', o)
           == F.Handle(cfg, neighbors.entries, old(sessions.State()), old(upstreams.State()), f, now)
    {
      if Parse(f, cfg.verify).Failed? { return f, F.DROPPED; }
      if F.ForVip(cfg, f) {
        f', o := HandleForward(f, now);
      } else if IpAt(f, DST_AT) == cfg.gatewayIp {
        f', o := HandleReverse(f, now);
      } else {
        return f, F.DROPPED;
      }
    }

    method FinishL2(f: Frame, nextHop: u32) returns (r: Option<Frame>)
      ensures r == F.FinishL2(cfg, neighbors.entries, f, nextHop)
    {
      if !ParseOk(f) { return None; }
      var mac := neighbors.Lookup(nextHop);
      if mac.None? { return None; }
      return Some(SetL2(f, cfg.gatewayMac, mac.value));
    }
  }
}
