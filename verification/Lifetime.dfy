/**
 How long a session lives, told by the packets alone: a packet of a flow, in either direction, keeps its
 session for another idle timeout, and a sweep removes exactly the sessions that had no packet for
 that long.
 */
module Lifetime {
  import opened Base
  import opened Packet
  import opened Sessions
  import opened SessionProofs
  import opened Upstreams
  import opened Neighbors
  import opened Worker
  import opened HeldPackets
  import opened Gateway
  import opened GatewayProofs
  import opened RunTheorems
  import Arp
  import N = NatTheorems
  import F = Forward

  /** Which sessions a packet can belong to: by its tuple, in one direction or the other. */
  datatype Match = Forward(key: FlowKey) | Reverse(key: FlowKey) | Nobody

  predicate Matches(m: Match, s: Session) {
    match m
    case Forward(key) => s.forwardKey == key
    case Reverse(key) => s.reverseKey == key
    case Nobody => false
  }

  function MatchOf(cfg: F.Config, f: Frame): Match {
    if Parse(f, cfg.verify).Failed? then Nobody
    else if F.ForVip(cfg, f) then Forward(F.KeyOf(f))
    else Reverse(F.KeyOf(f))
  }

  /** `f` is a packet of this session: of its client toward the VIP, or of its upstream toward the gateway. */
  predicate BelongsTo(cfg: F.Config, f: Frame, s: Session) {
    Matches(MatchOf(cfg, f), s)
  }

  /** From `sess` to `r`: the sessions of the packet are stamped `now`, the others stay as they are. */
  ghost predicate Stamped(sess: Table, r: Table, now: u64, m: Match) {
    && r.idleTimeout == sess.idleTimeout
    && (forall h :: h in sess.heap ==> h in r.heap)
    && forall h :: h in r.heap ==>
         if Matches(m, r.heap[h]) then r.heap[h].lastActive == now
         else h in sess.heap && r.heap[h] == sess.heap[h]
  }

  // ------------------------------------------------------------- one packet

  lemma NewIsStamped(t: Table, key: FlowKey, ip: u32, port: u16, now: u64)
    requires Sessions.Inv(t) && forall h :: h in t.heap ==> t.heap[h].forwardKey != key
    ensures Stamped(t, Create(t, key, ip, port, now).0, now, Forward(key))
  {
    AllocKeepsRest(t);
    NextHandleFresh(t);
    hide Alloc, Sessions.Inv;
  }

  lemma TouchedIsStamped(t: Table, h: Handle, now: u64, m: Match)
    requires h in t.heap && forall g :: g in t.heap ==> (Matches(m, t.heap[g]) <==> g == h)
    ensures Stamped(t, Touch(t, h, now), now, m)
  {
  }

  lemma ForwardStamps(sess: Table, ups: Ups, key: FlowKey, now: u64)
    requires Sessions.Inv(sess)
    ensures Stamped(sess, F.SessionFor(sess, ups, key, now).0, now, Forward(key))
  {
    ForwardLookup(sess, key);
    hide Sessions.Inv, Create, Pick;
    match LookupForward(sess, key) {
      case Some(h) =>
        TouchedIsStamped(sess, h, now, Forward(key));
      case None =>
        var (ups1, pick) := Pick(ups, key);
        if pick.Some? && pick.value.ip != 0 {
          NewIsStamped(sess, key, pick.value.ip, pick.value.port, now);
        }
    }
  }

  lemma ReverseStamps(cfg: F.Config, c: Cache, sess: Table, ups: Ups, f: Frame, now: u64)
    requires Sessions.Inv(sess) && HeadersFit(f)
    ensures Stamped(sess, F.HandleReverse(cfg, c, sess, ups, f, now).sess, now, Reverse(F.KeyOf(f)))
  {
    ReverseLookup(sess, F.KeyOf(f));
    hide Sessions.Inv, F.KeyOf, F.ReverseNat, SetL2, HeadersFit;
    match LookupReverse(sess, F.KeyOf(f)) {
      case Some(h) =>
        TouchedIsStamped(sess, h, now, Reverse(F.KeyOf(f)));
      case None =>
    }
  }

  /** The forwarder stamps exactly the session that the packet belongs to, and removes none. */
  lemma HandleStamps(cfg: F.Config, c: Cache, sess: Table, ups: Ups, f: Frame, now: u64)
    requires Sessions.Inv(sess) && sess.gatewayIp == cfg.gatewayIp
    ensures Stamped(sess, F.Handle(cfg, c, sess, ups, f, now).sess, now, MatchOf(cfg, f))
  {
    if Parse(f, cfg.verify).Parsed? {
      ParseWeaker(f, cfg.verify);
      if F.ForVip(cfg, f) {
        ForwardStamps(sess, ups, F.KeyOf(f), now);
        hide Parse, F.SessionFor, F.ForwardNat, F.Emit, Sessions.Inv, F.KeyOf, HeadersFit, F.ForVip;
      } else if IpAt(f, DST_AT) == cfg.gatewayIp {
        ReverseStamps(cfg, c, sess, ups, f, now);
        hide Parse, F.HandleReverse, Sessions.Inv, F.KeyOf, HeadersFit, F.ForVip;
      } else {
        ElsewhereBelongsToNone(cfg, sess, f);
        hide Parse, Sessions.Inv, F.KeyOf, HeadersFit, F.ForVip;
      }
    }
  }

  lemma ElsewhereBelongsToNone(cfg: F.Config, sess: Table, f: Frame)
    requires Sessions.Inv(sess) && sess.gatewayIp == cfg.gatewayIp && HeadersFit(f)
    requires !F.ForVip(cfg, f) && IpAt(f, DST_AT) != cfg.gatewayIp
    ensures forall h :: h in sess.heap ==> !BelongsTo(cfg, f, sess.heap[h])
  {
    forall h | h in sess.heap
      ensures !BelongsTo(cfg, f, sess.heap[h])
    {
      LiveSession(sess, h);
      hide Sessions.Inv, Parse;
    }
  }

  lemma FrameStamps(cfg: F.Config, g: Gw, waiting: set<u32>, f: Frame, now: u64)
    requires Sessions.Inv(g.sess) && g.sess.gatewayIp == cfg.gatewayIp
    ensures Stamped(g.sess, HandleFrame(cfg, g, waiting, f, now).sess, now, MatchOf(cfg, f))
  {
    HandleStamps(cfg, PassiveLearn(g.cache, f, now), g.sess, g.ups, f, now);
    if Parse(f, cfg.verify).Parsed? {
      ParsedIsIpv4(f, cfg.verify);
    }
    hide Parse, F.Handle, Arp.Handle, PassiveLearn, Ipv4Src, Sessions.Inv, F.KeyOf, HeadersFit, F.ForVip, EtherType;
  }

  // ----------------------------------------------------------------- one step

  /** The step handles a packet of session `h`, which is live after it. */
  ghost predicate HandlesPacketOf(cfg: F.Config, g: Gw, s: Step, h: Handle)
    requires Enabled(cfg, g, s)
  {
    && s.HandleNext? && h in Apply(cfg, g, s).sess.heap
    && BelongsTo(cfg, FrameOf(g.io, g.io.rx[0]), Apply(cfg, g, s).sess.heap[h])
  }

  lemma HandleOneStamps(cfg: F.Config, g: Gw, now: u64, alloc: Option<Mbuf>)
    requires GwInv(cfg, g) && g.io.rx != []
    ensures var f := FrameOf(g.io, g.io.rx[0]);
            Stamped(g.sess, HandleOne(cfg, g, now, alloc).sess, now, MatchOf(cfg, f))
  {
    FrameStamps(cfg, g, g.io.pending.Keys, FrameOf(g.io, g.io.rx[0]), now);
    hide GwInv, HandleFrame, Flushed, Dispose, MatchOf, FrameOf;
  }

  /** After a step a live session has the step's time if the step handled its packet, and else its old stamp. */
  lemma StepStamps(cfg: F.Config, g: Gw, s: Step, h: Handle)
    requires GwInv(cfg, g) && Enabled(cfg, g, s) && h in Apply(cfg, g, s).sess.heap
    ensures var r := Apply(cfg, g, s).sess;
            if HandlesPacketOf(cfg, g, s, h) then r.heap[h].lastActive == s.now
            else h in g.sess.heap && r.heap[h] == g.sess.heap[h]
  {
    hide HandleOne, MatchOf, Sessions.Expire, Sessions.Inv, HeldInv, NamesClient, Receive, Drain, ExpirePending;
    match s {
      case HandleNext(now, alloc) =>
        HandleOneStamps(cfg, g, now, alloc);
      case ExpireSessions(now) =>
        SweepOnly(g.sess, now, h);
      case _ =>
    }
  }

  lemma SweepOnly(t: Table, now: u64, h: Handle)
    requires Sessions.Inv(t) && h in Sessions.Expire(t, now).heap
    ensures h in t.heap && Sessions.Expire(t, now).heap[h] == t.heap[h]
  {
    hide Sessions.Inv, AliveIn, IdleIn, PortsOf, EraseAll;
    ExpireExact(t, now);
  }

  lemma StepTimeout(cfg: F.Config, g: Gw, s: Step)
    requires GwInv(cfg, g) && Enabled(cfg, g, s)
    ensures Apply(cfg, g, s).sess.idleTimeout == g.sess.idleTimeout
  {
    match s {
      case HandleNext(now, alloc) =>
        HandleOneStamps(cfg, g, now, alloc);
        hide HandleOne, GwInv, MatchOf;
      case ExpireSessions(now) =>
        SameTimeout(g.sess, IdleIn(g.sess, g.sess.order, now));
        hide EraseAll, GwInv;
      case _ =>
    }
  }

  /** Only a sweep removes sessions, and only those idle for the timeout. */
  lemma StepRemoves(cfg: F.Config, g: Gw, s: Step, h: Handle)
    requires GwInv(cfg, g) && Enabled(cfg, g, s) && h in g.sess.heap
    ensures h in Apply(cfg, g, s).sess.heap
            <==> !(s.ExpireSessions? && Age(s.now, g.sess.heap[h].lastActive) >= g.sess.idleTimeout)
  {
    hide HandleOne, MatchOf, Sessions.Expire, Sessions.Inv, HeldInv, NamesClient, Receive, Drain, ExpirePending;
    match s {
      case HandleNext(now, alloc) =>
        HandleOneStamps(cfg, g, now, alloc);
      case ExpireSessions(now) =>
        SweepKeeps(g.sess, now, h);
      case _ =>
    }
  }

  lemma SweepKeeps(t: Table, now: u64, h: Handle)
    requires Sessions.Inv(t) && h in t.heap
    ensures h in Sessions.Expire(t, now).heap <==> Age(now, t.heap[h].lastActive) < t.idleTimeout
    ensures h in Sessions.Expire(t, now).heap ==> Sessions.Expire(t, now).heap[h] == t.heap[h]
  {
    hide Sessions.Inv, AliveIn, IdleIn, PortsOf, EraseAll;
    ExpireExact(t, now);
  }

  // ------------------------------------------------------------- kept alive

  /** Session `h` is live and had a packet no earlier than `t0`. */
  ghost predicate ActiveSince(g: Gw, h: Handle, t0: u64) {
    h in g.sess.heap && t0 <= g.sess.heap[h].lastActive <= g.clock
  }

  lemma StepKeepsActive(cfg: F.Config, g: Gw, s: Step, h: Handle, t0: u64)
    requires GwInv(cfg, g) && Enabled(cfg, g, s) && ActiveSince(g, h, t0)
    requires Apply(cfg, g, s).clock < t0 + g.sess.idleTimeout
    ensures ActiveSince(Apply(cfg, g, s), h, t0)
  {
    hide GwInv, Apply, Enabled, HandlesPacketOf;
    var r := Apply(cfg, g, s);
    StepKeeps(cfg, g, s);
    StepRemoves(cfg, g, s, h);
    StepClock(cfg, g, s);
    assert h in r.sess.heap;
    StepStamps(cfg, g, s, h);
    PacketIsHandled(cfg, g, s, h);
  }

  lemma StepClock(cfg: F.Config, g: Gw, s: Step)
    requires Enabled(cfg, g, s)
    ensures s.HandleNext? || s.ExpireSessions? ==> Apply(cfg, g, s).clock == s.now && g.clock <= s.now
  {
    hide HandleFrame, Flushed, Dispose, Sessions.Expire;
  }

  lemma {:induction false} RunKeepsActive(cfg: F.Config, g: Gw, steps: seq<Step>, h: Handle, t0: u64)
    requires GwInv(cfg, g) && IsRun(cfg, g, steps) && ActiveSince(g, h, t0)
    requires Run(cfg, g, steps).clock < t0 + g.sess.idleTimeout
    ensures ActiveSince(Run(cfg, g, steps), h, t0)
    decreases |steps|
  {
    if steps != [] {
      var next := Apply(cfg, g, steps[0]);
      hide GwInv, Apply, Enabled, ActiveSince;
      StepKeeps(cfg, g, steps[0]);
      StepTimeout(cfg, g, steps[0]);
      RunKeeps(cfg, next, steps[1..]);
      StepKeepsActive(cfg, g, steps[0], h, t0);
      RunKeepsActive(cfg, next, steps[1..], h, t0);
    }
  }

  /**
   Traffic keeps a session: if a packet of session `h`, in either direction and the opening one included, is
   handled at `t0`, then `h` is live, with the same translation, in every state reached before `t0` plus
   the idle timeout.
   */
  lemma TrafficKeepsSession(cfg: F.Config, g: Gw, t0: u64, alloc: Option<Mbuf>, steps: seq<Step>, h: Handle)
    requires GwInv(cfg, g) && Enabled(cfg, g, HandleNext(t0, alloc))
    requires HandlesPacketOf(cfg, g, HandleNext(t0, alloc), h)
    requires var g1 := Apply(cfg, g, HandleNext(t0, alloc));
             IsRun(cfg, g1, steps) && Run(cfg, g1, steps).clock < t0 + g.sess.idleTimeout
    ensures var g1 := Apply(cfg, g, HandleNext(t0, alloc));
            var r := Run(cfg, g1, steps);
            h in r.sess.heap && SameFlow(g1.sess.heap[h], r.sess.heap[h])
  {
    var s := HandleNext(t0, alloc);
    var g1 := Apply(cfg, g, s);
    StepKeeps(cfg, g, s);
    StepStamps(cfg, g, s, h);
    StepClock(cfg, g, s);
    StepTimeout(cfg, g, s);
    LiveIsNumbered(cfg, g1, h);
    hide GwInv, Apply, Enabled, HandlesPacketOf, IsRun, Run;
    assert ActiveSince(g1, h, t0);
    RunKeepsActive(cfg, g1, steps, h, t0);
    N.RunContinues(cfg, g1, steps);
  }

  lemma LiveIsNumbered(cfg: F.Config, g: Gw, h: Handle)
    requires GwInv(cfg, g) && h in g.sess.heap
    ensures h < g.sess.nextHandle
  {
    LiveSession(g.sess, h);
  }

  // -------------------------------------------------- the sweep, told by packets

  /** Step number `i` of the run handles a packet of session `h`. */
  ghost predicate PacketAt(cfg: F.Config, g: Gw, steps: seq<Step>, i: nat, h: Handle)
    requires IsRun(cfg, g, steps) && i < |steps|
    decreases |steps|
  {
    if i == 0 then HandlesPacketOf(cfg, g, steps[0], h)
    else PacketAt(cfg, Apply(cfg, g, steps[0]), steps[1..], i - 1, h)
  }

  /** The time of the last packet of `h` in the run. */
  ghost function LastPacket(cfg: F.Config, g: Gw, steps: seq<Step>, h: Handle): Option<u64>
    requires IsRun(cfg, g, steps)
    decreases |steps|
  {
    if steps == [] then None
    else
      var later := LastPacket(cfg, Apply(cfg, g, steps[0]), steps[1..], h);
      if later.Some? then later
      else if HandlesPacketOf(cfg, g, steps[0], h) then Some(steps[0].now)
      else None
  }

  /** A live session's stamp is the time of its last packet in the run, or the stamp it came with. */
  lemma {:induction false} StampIsLastPacket(cfg: F.Config, g: Gw, steps: seq<Step>, h: Handle)
    requires GwInv(cfg, g) && IsRun(cfg, g, steps) && h in Run(cfg, g, steps).sess.heap
    ensures var last, r := LastPacket(cfg, g, steps, h), Run(cfg, g, steps).sess;
            if last.Some? then r.heap[h].lastActive == last.value
            else h in g.sess.heap && r.heap[h].lastActive == g.sess.heap[h].lastActive
    decreases |steps|
  {
    if steps != [] {
      hide GwInv, Apply, Enabled, HandlesPacketOf;
      var next := Apply(cfg, g, steps[0]);
      StepKeeps(cfg, g, steps[0]);
      StampIsLastPacket(cfg, next, steps[1..], h);
      if LastPacket(cfg, next, steps[1..], h).None? {
        StepStamps(cfg, g, steps[0], h);
      }
    }
  }

  lemma PacketIsHandled(cfg: F.Config, g: Gw, s: Step, h: Handle)
    requires Enabled(cfg, g, s)
    ensures HandlesPacketOf(cfg, g, s, h) ==> s.HandleNext?
  {
  }

  /** It is the last: one packet of `h` in the run is at that time, and none is later. */
  lemma {:induction false} LastPacketFound(cfg: F.Config, g: Gw, steps: seq<Step>, h: Handle) returns (i: nat)
    requires GwInv(cfg, g) && IsRun(cfg, g, steps) && LastPacket(cfg, g, steps, h).Some?
    ensures i < |steps| && PacketAt(cfg, g, steps, i, h) && steps[i].HandleNext?
    ensures steps[i].now == LastPacket(cfg, g, steps, h).value <= Run(cfg, g, steps).clock
    decreases |steps|
  {
    hide GwInv, Apply, Enabled, HandlesPacketOf;
    var next := Apply(cfg, g, steps[0]);
    StepKeeps(cfg, g, steps[0]);
    if LastPacket(cfg, next, steps[1..], h).Some? {
      var k := LastPacketFound(cfg, next, steps[1..], h);
      i := k + 1;
    } else {
      i := 0;
      PacketIsHandled(cfg, g, steps[0], h);
      StepClock(cfg, g, steps[0]);
      RunKeeps(cfg, next, steps[1..]);
    }
  }

  lemma {:induction false} NoneLater(cfg: F.Config, g: Gw, steps: seq<Step>, i: nat, h: Handle)
    requires GwInv(cfg, g) && IsRun(cfg, g, steps) && i < |steps| && PacketAt(cfg, g, steps, i, h)
    ensures var last := LastPacket(cfg, g, steps, h);
            last.Some? && steps[i].HandleNext? && g.clock <= steps[i].now <= last.value
    decreases |steps|
  {
    hide GwInv, Apply, Enabled, HandlesPacketOf;
    var next := Apply(cfg, g, steps[0]);
    StepKeeps(cfg, g, steps[0]);
    if i == 0 {
      PacketIsHandled(cfg, g, steps[0], h);
      StepClock(cfg, g, steps[0]);
      if LastPacket(cfg, next, steps[1..], h).Some? {
        var k := LastPacketFound(cfg, next, steps[1..], h);
        NoneLater(cfg, next, steps[1..], k, h);
      }
    } else {
      NoneLater(cfg, next, steps[1..], i - 1, h);
    }
  }

  /**
   In a run from the start a sweep at `now` removes a live session if and only if every packet of that
   session in the run, its opening one included, was handled at least the idle timeout before.
   */
  lemma SweepRemovesIdle(cfg: F.Config, g0: Gw, steps: seq<Step>, now: u64, h: Handle)
    requires Initial(cfg, g0) && IsRun(cfg, g0, steps) && Run(cfg, g0, steps).clock <= now
    requires h in Run(cfg, g0, steps).sess.heap
    ensures var r := Run(cfg, g0, steps);
            && Enabled(cfg, r, ExpireSessions(now))
            && (h !in Apply(cfg, r, ExpireSessions(now)).sess.heap <==>
                  forall i :: 0 <= i < |steps| && PacketAt(cfg, g0, steps, i, h) ==>
                    steps[i].HandleNext? && steps[i].now + r.sess.idleTimeout <= now)
    ensures exists i :: 0 <= i < |steps| && PacketAt(cfg, g0, steps, i, h)
  {
    var r := Run(cfg, g0, steps);
    assert g0.sess.heap == map[] && Enabled(cfg, r, ExpireSessions(now));
    hide *;
    InitialInv(cfg, g0);
    RunKeeps(cfg, g0, steps);
    StampIsLastPacket(cfg, g0, steps, h);
    StepRemoves(cfg, r, ExpireSessions(now), h);
    var k := LastPacketFound(cfg, g0, steps, h);
    AgeSince(now, steps[k].now);
    forall i | 0 <= i < |steps| && PacketAt(cfg, g0, steps, i, h)
      ensures steps[i].HandleNext? && steps[i].now <= steps[k].now
    {
      NoneLater(cfg, g0, steps, i, h);
    }
  }

  lemma AgeSince(now: u64, since: u64)
    requires since <= now
    ensures Age(now, since) == now - since
  {
  }
}
