/**
 Runs from a freshly initialised gateway into the states that `Limits` and `PassiveLearning` describe: a
 packet that nobody takes, a transmit batch past its size, and packets left waiting for a
 neighbor that is known.
 */
module FailingRuns {
  import opened Base
  import opened Packet
  import opened PacketProofs
  import opened Sessions
  import opened SessionProofs
  import opened Upstreams
  import opened Neighbors
  import opened Arp
  import opened Worker
  import opened Ownership
  import opened HeldPackets
  import opened WorkerSteps
  import opened Gateway
  import opened GatewayProofs
  import opened NatTheorems
  import opened RunTheorems
  import opened Limits
  import opened PassiveLearning
  import F = Forward

  // ------------------------------------------------------------------ frames

  function Template(): Frame {
    [0, 0, 0, 0, 0, 0, 0, 0, 0, 0, 0, 0, 0x08, 0x00,
     0x45, 0, 0, 28, 0, 0, 0, 0, 64, 17, 0, 0, 0, 0, 0, 0, 0, 0, 0, 0,
     0, 0, 0, 0, 0, 8, 0, 0]
  }

  lemma TemplateParses()
    ensures ParseOk(Template()) && HeadersFit(Template()) && Parse(Template(), false) == Parsed(20, 0)
  {
    var f := Template();
    assert Plain(f) && f[38] == 0 && f[39] == 8;
    hide Template, Plain, Parse, HeadersFit;
    PlainParses(f);
  }

  /** `f` is an empty UDP datagram with these addresses and ports, checksums in order. */
  ghost predicate IsDatagram(f: Frame, key: FlowKey) {
    && Parse(f, false) == Parsed(20, 0) && Parse(f, true) == Parsed(20, 0)
    && HeadersFit(f) && F.KeyOf(f) == key
  }

  lemma Datagram(src: u32, dst: u32, sport: u16, dport: u16) returns (f: Frame)
    ensures IsDatagram(f, FlowKey(src, dst, sport, dport, PROTO_UDP))
  {
    hide *;
    TemplateParses();
    RewriteParses(Template(), src, dst, sport, dport, false, false);
    RewriteParses(Template(), src, dst, sport, dport, false, true);
    RewriteKey(Template(), src, dst, sport, dport, false);
    f := Rewrite(Template(), src, dst, sport, dport, false);
    DatagramIs(f, FlowKey(src, dst, sport, dport, PROTO_UDP));
  }

  lemma DatagramIs(f: Frame, key: FlowKey)
    requires Parse(f, false) == Parsed(20, 0) && Parse(f, true) == Parsed(20, 0) && HeadersFit(f) && F.KeyOf(f) == key
    ensures IsDatagram(f, key)
  {
  }

  lemma DatagramFacts(cfg: F.Config, f: Frame, key: FlowKey)
    requires IsDatagram(f, key)
    ensures Parse(f, cfg.verify).Parsed? && ParseOk(f) && HeadersFit(f) && F.KeyOf(f) == key
    ensures F.ForVip(cfg, f) <==> key.dstIp == cfg.vipIp && key.dstPort == cfg.vipPort
    ensures IpAt(f, SRC_AT) == key.srcIp
  {
    hide Parse;
  }

  // ---------------------------------------------------------------- arrivals

  /** Packet `i` of a burst is where it should be, with its bytes. */
  lemma {:induction false} ReceivedAt(io: Io, burst: seq<(Mbuf, Frame)>, i: nat)
    requires FreshBurst(io, burst) && i < |burst|
    ensures var r := Receive(io, burst);
            && |r.rx| == |io.rx| + |burst| && r.rx[|io.rx| + i] == burst[i].0
            && FrameOf(r, burst[i].0) == burst[i].1
  {
    var k := |burst| - 1;
    var before, r := Receive(io, burst[..k]), Receive(io, burst);
    assert r.rx == before.rx + [burst[k].0] && r.frames == before.frames[burst[k].0 := burst[k].1];
    hide Receive;
    assert FreshBurst(io, burst[..k]);
    ReceiveEffect(io, burst[..k]);
    if i < k {
      ReceivedAt(io, burst[..k], i);
      assert burst[..k][i] == burst[i] && burst[i].0 != burst[k].0;
    }
  }

  lemma {:induction false} ReceivedOnly(io: Io, burst: seq<(Mbuf, Frame)>, bound: nat)
    requires (forall m :: m in io.owner ==> m < bound) && forall i :: 0 <= i < |burst| ==> burst[i].0 < bound
    ensures forall m :: m in Receive(io, burst).owner ==> m < bound
  {
    if burst != [] {
      ReceivedOnly(io, burst[..|burst| - 1], bound);
    }
  }

  /** The state in which a fresh gateway knows one upstream. */
  ghost function WithUpstream(g: Gw, ep: Endpoint): Gw {
    g.(ups := g.ups.(policy := Mod, nodes := [ep]))
  }

  lemma OnlyChoice(g: Gw, ep: Endpoint, key: FlowKey)
    ensures Pick(WithUpstream(g, ep).ups, key).1 == Some(ep)
  {
    hide HashKey;
    assert HashKey(key) % 1 == 0;
  }

  lemma FreshFacts(cfg: F.Config, g: Gw, now: u64)
    requires Initial(cfg, g) && g.clock <= now
    ensures Sessions.Inv(g.sess) && HeldInv(g.io, now) && g.sess.gatewayIp == cfg.gatewayIp
    ensures g.sess.order == [] && g.sess.begin < g.sess.end && g.sess.forward == map[] && g.sess.heap == map[]
    ensures g.io.pending == map[] && g.io.owner == map[] && g.io.rx == [] && g.io.tx == [] && g.io.drop == []
    ensures Alloc(g.sess).1 == g.sess.begin
  {
    InitialInv(cfg, g);
    hide HeldInv;
    TimedLater(g.io, g.clock, now);
    AllocCases(g.sess);
    assert InRange(g.sess, g.sess.begin) && g.sess.begin !in g.sess.inUse;
  }

  // ------------------------------------------------------- a packet that is lost

  /**
   A fresh gateway with one upstream; a VIP packet from 0.0.0.0 and the upstream's reply to it arrive in
   one burst. The reply is in no list afterwards. (`NamesClient` excludes this burst from the runs.)
   */
  lemma LeakFromStart(cfg: F.Config, g0: Gw, ep: Endpoint, now: u64) returns (burst: seq<(Mbuf, Frame)>)
    requires Initial(cfg, g0) && g0.clock <= now && ep.ip != 0 && 0 !in g0.cache
    requires !(cfg.gatewayIp == cfg.vipIp && g0.sess.begin == cfg.vipPort)
    ensures |burst| == 2 && FreshBurst(g0.io, burst)
    ensures var g := WithUpstream(g0, ep).(io := Receive(g0.io, burst));
            && |g.io.rx| == 2
            && var g1 := HandleOne(cfg, g, now, None);
               && |g1.io.rx| == 1
               && var r := HandleOne(cfg, g1, now, None).io;
                  burst[1].0 in r.owner && r.owner[burst[1].0] == Lost && !Owned(r)
  {
    FreshFacts(cfg, g0, now);
    var f1 := Datagram(0, cfg.vipIp, 1, cfg.vipPort);
    var key2 := FlowKey(ep.ip, cfg.gatewayIp, ep.port, g0.sess.begin, PROTO_UDP);
    var f2 := Datagram(ep.ip, cfg.gatewayIp, ep.port, g0.sess.begin);
    burst := [(0, f1), (1, f2)];
    var g := WithUpstream(g0, ep).(io := Receive(g0.io, burst));
    Arrived(g0.io, f1, f2, now);
    hide Receive, HeldInv, Sessions.Inv, Initial, IsDatagram;
    FirstIsAnonymous(cfg, g, f1, ep) by {
      OnlyChoice(g0, ep, FlowKey(0, cfg.vipIp, 1, cfg.vipPort, PROTO_UDP));
    }
    AnonymousSession(cfg, g, now, None, ep);
    HandleOneRx(cfg, g, now, None);
    OthersWait(cfg, g, now, 1);
    var g1 := HandleOne(cfg, g, now, None);
    ZeroStaysUnknown(cfg, g, now);
    hide HandleOne, AnonymousNext, Alloc;
    ReplyIsNext(cfg, g1, f2, key2, g.sess.nextHandle);
    hide ReplyNext, Owned;
    ReplyToZeroLost(cfg, g1, now, None, g.sess.nextHandle);
  }

  lemma Arrived(io: Io, f1: Frame, f2: Frame, now: u64)
    requires HeldInv(io, now) && io.owner == map[] && io.rx == []
    ensures var burst := [(0, f1), (1, f2)];
            var r := Receive(io, burst);
            && FreshBurst(io, burst) && HeldInv(r, now)
            && |r.rx| == 2 && r.rx[0] == 0 && r.rx[1] == 1 && FrameOf(r, 0) == f1 && FrameOf(r, 1) == f2
  {
    var burst := [(0, f1), (1, f2)];
    ReceiveHeld(io, burst, now);
    hide HeldInv, Receive;
    ReceivedAt(io, burst, 0);
    ReceivedAt(io, burst, 1);
  }

  lemma FirstIsAnonymous(cfg: F.Config, g: Gw, f: Frame, ep: Endpoint)
    requires g.io.rx != [] && FrameOf(g.io, g.io.rx[0]) == f && g.sess.forward == map[] && ep.ip != 0
    requires IsDatagram(f, FlowKey(0, cfg.vipIp, 1, cfg.vipPort, PROTO_UDP))
    requires Pick(g.ups, FlowKey(0, cfg.vipIp, 1, cfg.vipPort, PROTO_UDP)).1 == Some(ep)
    ensures AnonymousNext(cfg, g, ep)
  {
    DatagramFacts(cfg, f, FlowKey(0, cfg.vipIp, 1, cfg.vipPort, PROTO_UDP));
    hide Parse, HeadersFit, F.KeyOf, F.ForVip, Pick, IsDatagram;
  }

  lemma ZeroStaysUnknown(cfg: F.Config, g: Gw, now: u64)
    requires g.io.rx != [] && 0 !in g.cache && Parse(FrameOf(g.io, g.io.rx[0]), cfg.verify).Parsed?
    ensures 0 !in HandleOne(cfg, g, now, None).cache
  {
    var f := FrameOf(g.io, g.io.rx[0]);
    ZeroNotLearned(g.cache, f, now);
    ParsedIsIpv4(f, cfg.verify);
    hide PassiveLearn, F.Handle, EtherType, Ipv4Src, Flushed, Dispose, Parse;
  }

  lemma ReplyIsNext(cfg: F.Config, g: Gw, f: Frame, key: FlowKey, h: Handle)
    requires g.io.rx != [] && FrameOf(g.io, g.io.rx[0]) == f && IsDatagram(f, key)
    requires !(key.dstIp == cfg.vipIp && key.dstPort == cfg.vipPort)
    requires h in g.sess.heap && g.sess.heap[h].reverseKey == key && g.sess.heap[h].clientIp == 0
    ensures ReplyNext(cfg, g, h, 0)
  {
    DatagramFacts(cfg, f, key);
    hide Parse, HeadersFit, F.KeyOf, F.ForVip, IsDatagram;
  }

  // -------------------------------------------------- packets held from the start

  ghost predicate Live(sess: Table, key: FlowKey, ip: u32) {
    exists h :: h in sess.heap && sess.heap[h].forwardKey == key && sess.heap[h].upstreamIp == ip
  }

  /** A packet of this flow is, or will be, forwarded to `ip`. */
  ghost predicate Goes(sess: Table, ups: Ups, key: FlowKey, ip: u32) {
    || Live(sess, key, ip)
    || (&& key !in sess.forward && |sess.order| < sess.end - sess.begin
        && Pick(ups, key).1.Some? && Pick(ups, key).1.value.ip == ip)
  }

  lemma IsLive(sess: Table, key: FlowKey, ip: u32, h: Handle)
    requires h in sess.heap && sess.heap[h].forwardKey == key && sess.heap[h].upstreamIp == ip
    ensures Live(sess, key, ip)
  {
  }

  lemma GoesOn(sess: Table, ups: Ups, key: FlowKey, now: u64, ip: u32)
    requires Sessions.Inv(sess) && ip != 0 && Goes(sess, ups, key, ip)
    ensures var (sess1, ups1, h) := F.SessionFor(sess, ups, key, now);
            h.Some? && h.value in sess1.heap && sess1.heap[h.value].upstreamIp == ip && Live(sess1, key, ip)
  {
    ForwardLookup(sess, key);
    hide Sessions.Inv, Pick;
    if Live(sess, key, ip) {
      var h :| h in sess.heap && sess.heap[h].forwardKey == key && sess.heap[h].upstreamIp == ip;
      IsLive(Touch(sess, h, now), key, ip, h);
    } else {
      var ep := Pick(ups, key).1.value;
      CreatedOnMiss(sess, ups, key, now, ep);
      CreateFailsWhenFull(sess, key, ep.ip, ep.port, now);
      hide Alloc;
      IsLive(F.SessionFor(sess, ups, key, now).0, key, ip, sess.nextHandle);
    }
  }

  /** A VIP packet of a client, other than the upstream `ip` and the gateway, that has to wait for `ip`. */
  ghost predicate Suits(cfg: F.Config, f: Frame, ip: u32) {
    && Parse(f, cfg.verify).Parsed? && HeadersFit(f) && F.ForVip(cfg, f) && ParseOk(f)
    && IpAt(f, SRC_AT) != 0 && IpAt(f, SRC_AT) != ip && ip != 0 && ip != cfg.gatewayIp
  }

  lemma WaitsForUpstream(cfg: F.Config, c: Cache, sess: Table, ups: Ups, f: Frame, now: u64, ip: u32)
    requires Suits(cfg, f, ip) && Sessions.Inv(sess) && ip !in c && Goes(sess, ups, F.KeyOf(f), ip)
    ensures var o := F.Handle(cfg, c, sess, ups, f, now);
            o.outcome == F.Outcome(F.PendingArp, ip, 0) && Live(o.sess, F.KeyOf(f), ip)
    ensures NewSource(cfg, sess, ups, f, now) == Some(cfg.gatewayIp)
  {
    GoesOn(sess, ups, F.KeyOf(f), now, ip);
    hide Sessions.Inv, Parse, HeadersFit, F.KeyOf, F.ForVip, F.SessionFor, F.ForwardNat, Goes, Live;
  }

  lemma OnlyClientLearned(cfg: F.Config, c: Cache, f: Frame, now: u64, ip: u32)
    requires Suits(cfg, f, ip) && ip !in c
    ensures ip !in PassiveLearn(c, f, now) && EtherType(f) == ETHER_TYPE_IPV4
  {
    ParsedIsIpv4(f, cfg.verify);
  }

  /** What `handle` makes of an IPv4 frame, in terms of the forwarder. */
  lemma Ipv4Verdict(cfg: F.Config, g: Gw, waiting: set<u32>, f: Frame, now: u64)
    requires EtherType(f) == ETHER_TYPE_IPV4
    ensures var o := F.Handle(cfg, PassiveLearn(g.cache, f, now), g.sess, g.ups, f, now);
            var v, src := HandleFrame(cfg, g, waiting, f, now), Ipv4Src(o.frame);
            && v.sess == o.sess && v.ups == o.ups && v.frame == o.frame && v.cache == PassiveLearn(g.cache, f, now)
            && v.outcome == if src != 0 && src in waiting then o.outcome.(learnedIp := src) else o.outcome
  {
    hide F.Handle, PassiveLearn, EtherType, Ipv4Src, Arp.Handle;
  }

  lemma HoldVerdict(cfg: F.Config, g: Gw, waiting: set<u32>, f: Frame, now: u64, ip: u32)
    requires Suits(cfg, f, ip) && Sessions.Inv(g.sess) && ip !in g.cache && Goes(g.sess, g.ups, F.KeyOf(f), ip)
    requires waiting <= {ip}
    ensures var v := HandleFrame(cfg, g, waiting, f, now);
            && v.outcome == F.Outcome(F.PendingArp, ip, 0) && ip !in v.cache
            && Live(v.sess, F.KeyOf(f), ip)
  {
    var c := PassiveLearn(g.cache, f, now);
    assert ip != cfg.gatewayIp;
    hide PassiveLearn, EtherType, Ipv4Src, F.Handle, NewSource, Goes, Live, F.KeyOf, HandleFrame, Sessions.Inv, Parse;
    OnlyClientLearned(cfg, g.cache, f, now, ip);
    WaitsForUpstream(cfg, c, g.sess, g.ups, f, now, ip);
    hide Suits;
    SourceAfter(cfg, c, g.sess, g.ups, f, now);
    Ipv4Verdict(cfg, g, waiting, f, now);
  }

  /** `k` packets held for `ip` since `now`, and the rest of the burst, all with the bytes `f`, to come. */
  ghost predicate Holding(cfg: F.Config, g: Gw, f: Frame, ip: u32, now: u64, k: nat) {
    && GwInv(cfg, g) && g.clock <= now && g.io.tx == [] && g.io.drop == []
    && (forall i :: 0 <= i < |g.io.rx| ==> FrameOf(g.io, g.io.rx[i]) == f)
    && (forall m :: m in g.io.owner ==> m < BURST)
    && QueueIs(g.io, ip, now, k)
    && ip !in g.cache && Suits(cfg, f, ip)
    && if k == 0 then Goes(g.sess, g.ups, F.KeyOf(f), ip) else Live(g.sess, F.KeyOf(f), ip)
  }

  ghost predicate QueueIs(io: Io, ip: u32, now: u64, k: nat) {
    io.pending.Keys <= {ip} && |QueueOf(io, ip)| == k
    && forall i :: 0 <= i < k ==> QueueOf(io, ip)[i].since == now
  }

  lemma EnqueuedIs(cfg: F.Config, io: Io, f: Frame, ip: u32, now: u64, k: nat)
    requires io.rx != [] && QueueIs(io, ip, now, k) && k < PENDING_MAX && ip != 0
    ensures var r := Dispose(cfg, io.(frames := io.frames[io.rx[0] := f]), F.Outcome(F.PendingArp, ip, 0), now, None);
            && QueueIs(r, ip, now, k + 1) && r.tx == io.tx && r.drop == io.drop
            && (forall m :: m in r.owner ==> m in io.owner || m == io.rx[0])
  {
  }

  lemma HoldStep(cfg: F.Config, g: Gw, f: Frame, ip: u32, now: u64, k: nat)
    requires Holding(cfg, g, f, ip, now, k) && g.io.rx != [] && k < PENDING_MAX && ip != 0
    ensures Enabled(cfg, g, HandleNext(now, None))
    ensures var r := HandleOne(cfg, g, now, None); Holding(cfg, r, f, ip, now, k + 1) && r.io.rx == g.io.rx[1..]
  {
    HoldingParts(cfg, g, f, ip, now, k);
    hide *;
    assert Verdict(cfg, g, now) == HandleFrame(cfg, g, g.io.pending.Keys, f, now) by { VerdictIs(cfg, g, now); }
    CanHandle(cfg, g, now);
    SessionsHold(cfg, g);
    AtMostOne(g.io, ip, now, k);
    GoesIfLive(g.sess, g.ups, F.KeyOf(f), ip);
    HoldVerdict(cfg, g, g.io.pending.Keys, f, now, ip);
    HandleOneKeeps(cfg, g, now, None);
    HandleOneRx(cfg, g, now, None);
    HoldFrames(cfg, g, f, now);
    HoldQueue(cfg, g, ip, now, k);
    HandledState(cfg, g, now);
    HoldingFrom(cfg, HandleOne(cfg, g, now, None), f, ip, now, k + 1);
  }

  lemma VerdictIs(cfg: F.Config, g: Gw, now: u64)
    requires g.io.rx != []
    ensures Verdict(cfg, g, now) == HandleFrame(cfg, g, g.io.pending.Keys, FrameOf(g.io, g.io.rx[0]), now)
  {
  }

  lemma HandledState(cfg: F.Config, g: Gw, now: u64)
    requires g.io.rx != []
    ensures var v, r := Verdict(cfg, g, now), HandleOne(cfg, g, now, None);
            r.sess == v.sess && r.ups == v.ups && r.cache == v.cache && r.clock == now
  {
    hide Verdict, Flushed, Dispose;
  }

  /** Handling is always possible without a buffer from the pool. */
  lemma CanHandle(cfg: F.Config, g: Gw, now: u64)
    requires g.io.rx != [] && g.clock <= now
    ensures Enabled(cfg, g, HandleNext(now, None))
    ensures Apply(cfg, g, HandleNext(now, None)) == HandleOne(cfg, g, now, None)
  {
    hide Verdict, Flushed, HandleOne;
  }

  lemma HoldingParts(cfg: F.Config, g: Gw, f: Frame, ip: u32, now: u64, k: nat)
    requires Holding(cfg, g, f, ip, now, k)
    ensures GwInv(cfg, g) && g.clock <= now && g.io.tx == [] && g.io.drop == [] && QueueIs(g.io, ip, now, k)
    ensures forall i :: 0 <= i < |g.io.rx| ==> FrameOf(g.io, g.io.rx[i]) == f
    ensures forall m :: m in g.io.owner ==> m < BURST
    ensures ip !in g.cache && Suits(cfg, f, ip) && HeadersFit(f)
    ensures Goes(g.sess, g.ups, F.KeyOf(f), ip) && (0 < k ==> Live(g.sess, F.KeyOf(f), ip))
  {
    assert HeadersFit(f);
    hide GwInv, QueueIs, FrameOf, Suits;
  }

  lemma HoldingFrom(cfg: F.Config, g: Gw, f: Frame, ip: u32, now: u64, k: nat)
    requires GwInv(cfg, g) && g.clock <= now && g.io.tx == [] && g.io.drop == [] && QueueIs(g.io, ip, now, k)
    requires forall i :: 0 <= i < |g.io.rx| ==> FrameOf(g.io, g.io.rx[i]) == f
    requires forall m :: m in g.io.owner ==> m < BURST
    requires ip !in g.cache && Suits(cfg, f, ip) && HeadersFit(f)
    requires if k == 0 then Goes(g.sess, g.ups, F.KeyOf(f), ip) else Live(g.sess, F.KeyOf(f), ip)
    ensures Holding(cfg, g, f, ip, now, k)
  {
    hide GwInv, QueueIs, FrameOf, Suits, Goes, Live;
  }

  lemma GoesIfLive(sess: Table, ups: Ups, key: FlowKey, ip: u32)
    ensures Live(sess, key, ip) ==> Goes(sess, ups, key, ip)
  {
  }

  lemma SessionsHold(cfg: F.Config, g: Gw)
    requires GwInv(cfg, g)
    ensures Sessions.Inv(g.sess)
  {
  }

  lemma AtMostOne(io: Io, ip: u32, now: u64, k: nat)
    requires QueueIs(io, ip, now, k)
    ensures io.pending.Keys <= {ip}
  {
  }

  lemma HoldFrames(cfg: F.Config, g: Gw, f: Frame, now: u64)
    requires GwInv(cfg, g) && g.clock <= now && g.io.rx != []
    requires forall i :: 0 <= i < |g.io.rx| ==> FrameOf(g.io, g.io.rx[i]) == f
    ensures var r := HandleOne(cfg, g, now, None).io; forall i :: 0 <= i < |r.rx| ==> FrameOf(r, r.rx[i]) == f
  {
    hide SessInv, HandleOne, FrameOf, HeldInv, NamesClient;
    TimedLater(g.io, g.clock, now);
    HandleOneRx(cfg, g, now, None);
    hide GwInv;
    var r := HandleOne(cfg, g, now, None).io;
    forall i | 0 <= i < |r.rx|
      ensures FrameOf(r, r.rx[i]) == f
    {
      OthersWait(cfg, g, now, i + 1);
    }
  }

  lemma HoldQueue(cfg: F.Config, g: Gw, ip: u32, now: u64, k: nat)
    requires GwInv(cfg, g) && g.clock <= now && g.io.rx != [] && QueueIs(g.io, ip, now, k) && k < PENDING_MAX && ip != 0
    requires Verdict(cfg, g, now).outcome == F.Outcome(F.PendingArp, ip, 0)
    requires forall m :: m in g.io.owner ==> m < BURST
    ensures var r := HandleOne(cfg, g, now, None).io;
            && QueueIs(r, ip, now, k + 1) && r.tx == g.io.tx && r.drop == g.io.drop
            && forall m :: m in r.owner ==> m < BURST
  {
    FirstOwned(g.io, g.clock);
    hide GwInv, Verdict, QueueIs, Dispose;
    EnqueuedIs(cfg, g.io, Verdict(cfg, g, now).frame, ip, now, k);
  }

  lemma {:induction false} HoldAll(cfg: F.Config, g: Gw, f: Frame, ip: u32, now: u64, k: nat) returns (steps: seq<Step>)
    requires Holding(cfg, g, f, ip, now, k) && k + |g.io.rx| <= PENDING_MAX && ip != 0
    ensures IsRun(cfg, g, steps)
    ensures var r := Run(cfg, g, steps); Holding(cfg, r, f, ip, now, k + |g.io.rx|) && r.io.rx == []
    decreases |g.io.rx|
  {
    hide *;
    if g.io.rx == [] {
      steps := [];
      RunNone(cfg, g);
    } else {
      HoldingParts(cfg, g, f, ip, now, k);
      HoldStep(cfg, g, f, ip, now, k);
      CanHandle(cfg, g, now);
      var rest := HoldAll(cfg, HandleOne(cfg, g, now, None), f, ip, now, k + 1);
      RunOne(cfg, g, HandleNext(now, None));
      RunConcat(cfg, g, [HandleNext(now, None)], rest);
      steps := [HandleNext(now, None)] + rest;
    }
  }

  /** `n` copies of `f`, in buffers 0 to n - 1. */
  function Copies(f: Frame, n: nat): (r: seq<(Mbuf, Frame)>)
    ensures |r| == n && forall i :: 0 <= i < n ==> r[i] == (i, f)
  {
    seq(n, i requires 0 <= i < n => (i, f))
  }

  lemma CopiesRecv(cfg: F.Config, g: Gw, f: Frame, n: nat)
    requires GwInv(cfg, g) && g.io.rx == [] && g.io.tx == [] && g.io.drop == [] && g.io.owner == map[]
    requires n <= BURST && NamesClient(cfg, f)
    ensures Enabled(cfg, g, Recv(Copies(f, n)))
    ensures var r := Apply(cfg, g, Recv(Copies(f, n)));
            && GwInv(cfg, r) && r == g.(io := r.io) && |r.io.rx| == n && r.io.tx == [] && r.io.drop == []
            && r.io.pending == g.io.pending && (forall m :: m in r.io.owner ==> m < BURST)
            && (forall i :: 0 <= i < |r.io.rx| ==> FrameOf(r.io, r.io.rx[i]) == f)
  {
    var burst := Copies(f, n);
    hide GwInv, NamesClient, FrameOf, Receive;
    assert FreshBurst(g.io, burst);
    assert Enabled(cfg, g, Recv(burst)) && Apply(cfg, g, Recv(burst)) == g.(io := Receive(g.io, burst));
    hide Apply;
    RecvKeeps(cfg, g, burst);
    ReceiveEffect(g.io, burst);
    ReceivedOnly(g.io, burst, BURST);
    hide Enabled;
    forall i | 0 <= i < n
      ensures var r := Receive(g.io, burst); |r.rx| == n && FrameOf(r, r.rx[i]) == f
    {
      ReceivedAt(g.io, burst, i);
    }
  }

  lemma UpstreamKeeps(cfg: F.Config, g0: Gw, ep: Endpoint, key: FlowKey, now: u64)
    requires Initial(cfg, g0) && g0.clock <= now
    ensures GwInv(cfg, WithUpstream(g0, ep)) && Goes(g0.sess, WithUpstream(g0, ep).ups, key, ep.ip)
    ensures Enabled(cfg, g0, ApplyControl(Mod, [ep])) && Apply(cfg, g0, ApplyControl(Mod, [ep])) == WithUpstream(g0, ep)
  {
    hide GwInv, Sessions.Inv, HeldInv, Alloc, Pick, RangeOk;
    assert Enabled(cfg, g0, ApplyControl(Mod, [ep])) && Apply(cfg, g0, ApplyControl(Mod, [ep])) == WithUpstream(g0, ep);
    FreshFacts(cfg, g0, now);
    InitialInv(cfg, g0);
    hide Initial, Enabled, Apply;
    StepKeeps(cfg, g0, ApplyControl(Mod, [ep]));
    OnlyChoice(g0, ep, key);
  }

  lemma SuitsFacts(cfg: F.Config, f: Frame, ip: u32)
    requires Suits(cfg, f, ip)
    ensures HeadersFit(f) && ip != 0
  {
  }

  lemma BurstFits()
    ensures 1 <= BURST == 32 <= PENDING_MAX
  {
  }

  lemma SuitsNames(cfg: F.Config, f: Frame, ip: u32)
    requires Suits(cfg, f, ip)
    ensures NamesClient(cfg, f)
  {
  }

  lemma CopiesArrive(cfg: F.Config, g0: Gw, ep: Endpoint, f: Frame, n: nat, now: u64)
    requires Initial(cfg, g0) && g0.clock <= now && n <= BURST && Suits(cfg, f, ep.ip) && ep.ip !in g0.cache
    ensures var g := WithUpstream(g0, ep);
            && Enabled(cfg, g, Recv(Copies(f, n)))
            && Holding(cfg, Apply(cfg, g, Recv(Copies(f, n))), f, ep.ip, now, 0)
            && |Apply(cfg, g, Recv(Copies(f, n))).io.rx| == n
  {
    hide Apply, Enabled, GwInv, Initial, NamesClient, Goes, Live, Suits, F.KeyOf, Sessions.Inv, HeldInv, FrameOf, Alloc, Holding, QueueIs, HeadersFit;
    SuitsFacts(cfg, f, ep.ip);
    FreshFacts(cfg, g0, now);
    SuitsNames(cfg, f, ep.ip);
    UpstreamKeeps(cfg, g0, ep, F.KeyOf(f), now);
    CopiesRecv(cfg, WithUpstream(g0, ep), f, n);
    NoneHeldYet(Apply(cfg, WithUpstream(g0, ep), Recv(Copies(f, n))).io, ep.ip, now);
    HoldingFrom(cfg, Apply(cfg, WithUpstream(g0, ep), Recv(Copies(f, n))), f, ep.ip, now, 0);
  }

  lemma NoneHeldYet(io: Io, ip: u32, now: u64)
    requires io.pending == map[]
    ensures QueueIs(io, ip, now, 0)
  {
  }

  /** From the start, `n` packets can come to be held for an upstream whose neighbor is not known. */
  lemma HeldFromStart(cfg: F.Config, g0: Gw, ep: Endpoint, f: Frame, n: nat, now: u64) returns (steps: seq<Step>)
    requires Initial(cfg, g0) && g0.clock <= now && n <= BURST && Suits(cfg, f, ep.ip) && ep.ip !in g0.cache
    ensures IsRun(cfg, g0, steps)
    ensures var r := Run(cfg, g0, steps); Holding(cfg, r, f, ep.ip, now, n) && r.io.rx == []
  {
    var s0, s1 := ApplyControl(Mod, [ep]), Recv(Copies(f, n));
    hide *;
    SuitsFacts(cfg, f, ep.ip);
    BurstFits();
    CopiesArrive(cfg, g0, ep, f, n, now);
    UpstreamKeeps(cfg, g0, ep, F.KeyOf(f), now);
    RunOne(cfg, g0, s0);
    RunOne(cfg, WithUpstream(g0, ep), s1);
    RunConcat(cfg, g0, [s0], [s1]);
    var g := Run(cfg, g0, [s0] + [s1]);
    var rest := HoldAll(cfg, g, f, ep.ip, now, 0);
    RunConcat(cfg, g0, [s0] + [s1], rest);
    steps := [s0] + [s1] + rest;
  }

  // ------------------------------------------------------ a batch of thirty-three

  lemma {:induction false} AllUnexpired(q: seq<HeldPacket>, now: u64)
    requires forall i :: 0 <= i < |q| ==> q[i].since == now
    ensures Unexpired(q, now) == q
  {
    if q != [] {
      AllUnexpired(q[1..], now);
    }
  }

  /** An ARP reply from `ip`, and an ARP request for the gateway. */
  lemma ArpFrames(cfg: F.Config, ip: u32) returns (reply: Frame, request: Frame)
    ensures ArpOk(reply) && U16(reply, OP_AT) == OP_REPLY && IpAt(reply, SIP_AT) == ip && !IsZeroMac(MacAt(reply, SHA_AT))
    ensures ArpOk(request) && U16(request, OP_AT) == OP_REQUEST && IpAt(request, TIP_AT) == cfg.gatewayIp
    ensures EtherType(reply) == ETHER_TYPE_ARP && EtherType(request) == ETHER_TYPE_ARP
  {
    var peer := ArpConfig(ip, ip, BROADCAST);
    RequestFields(peer, cfg.gatewayIp);
    request := MakeRequest(peer, cfg.gatewayIp);
    ReplyFields(peer, request, ip);
    reply := MakeReply(peer, request, ip);
    hide MakeRequest, MakeReply;
  }

  lemma ArpNamesClient(cfg: F.Config, f: Frame)
    requires EtherType(f) == ETHER_TYPE_ARP
    ensures NamesClient(cfg, f)
  {
    if ParseOk(f) {
      ParsedIsIpv4(f, false);
    }
  }

  lemma TwoArrive(cfg: F.Config, g: Gw, now: u64, a: Frame, b: Frame)
    requires GwInv(cfg, g) && g.clock <= now && g.io.rx == [] && g.io.tx == [] && g.io.drop == []
    requires (forall m :: m in g.io.owner ==> m < BURST) && NamesClient(cfg, a) && NamesClient(cfg, b)
    ensures var s := Recv([(BURST, a), (BURST + 1, b)]);
            && Enabled(cfg, g, s)
            && var r := Apply(cfg, g, s);
               && GwInv(cfg, r) && r.clock == g.clock && r.io.tx == [] && r.io.pending == g.io.pending
               && r.cache == g.cache && r.sess == g.sess && r.ups == g.ups
               && |r.io.rx| == 2 && FrameOf(r.io, r.io.rx[0]) == a && FrameOf(r.io, r.io.rx[1]) == b
  {
    var burst := [(BURST, a), (BURST + 1, b)];
    assert FreshBurst(g.io, burst);
    RecvKeeps(cfg, g, burst);
    ReceiveEffect(g.io, burst);
    hide GwInv, Receive, NamesClient;
    ReceivedAt(g.io, burst, 0);
    ReceivedAt(g.io, burst, 1);
  }

  /**
   From the start: 32 packets of one flow held for an upstream that is not known yet, then an ARP reply
   from it and an ARP request in one burst, and the batch holds 33 packets.
   */
  lemma ThirtyThreeFromStart(cfg: F.Config, g0: Gw, ep: Endpoint, client: u32, now: u64) returns (steps: seq<Step>)
    requires Initial(cfg, g0) && g0.clock <= now && ep.ip !in g0.cache && ep.ip != 0 && ep.ip != cfg.gatewayIp
    requires client != 0 && client != ep.ip
    ensures IsRun(cfg, g0, steps) && |Run(cfg, g0, steps).io.tx| == 33
  {
    hide *;
    BurstFits();
    var f := Datagram(client, cfg.vipIp, 1, cfg.vipPort);
    DatagramSuits(cfg, f, client, ep.ip);
    var first := HeldFromStart(cfg, g0, ep, f, BURST, now);
    var g := Run(cfg, g0, first);
    var reply, request := ArpFrames(cfg, ep.ip);
    ArpNamesClient(cfg, reply);
    ArpNamesClient(cfg, request);
    HeldMeans(cfg, g, f, ep.ip, now, BURST);
    TwoArrive(cfg, g, now, reply, request);
    var s := Recv([(BURST, reply), (BURST + 1, request)]);
    var g1 := Apply(cfg, g, s);
    RunOne(cfg, g, s);
    RunConcat(cfg, g0, first, [s]);
    FinishThirtyThree(cfg, g1, now, ep.ip, reply, request);
    var last := [HandleNext(now, None), HandleNext(now, None)];
    RunConcat(cfg, g0, first + [s], last);
    steps := first + [s] + last;
  }

  lemma DatagramSuits(cfg: F.Config, f: Frame, client: u32, ip: u32)
    requires IsDatagram(f, FlowKey(client, cfg.vipIp, 1, cfg.vipPort, PROTO_UDP))
    requires client != 0 && client != ip && ip != 0 && ip != cfg.gatewayIp
    ensures Suits(cfg, f, ip)
  {
    DatagramFacts(cfg, f, FlowKey(client, cfg.vipIp, 1, cfg.vipPort, PROTO_UDP));
    hide Parse, IsDatagram, F.KeyOf, F.ForVip, HeadersFit;
  }

  lemma HeldMeans(cfg: F.Config, g: Gw, f: Frame, ip: u32, now: u64, k: nat)
    requires Holding(cfg, g, f, ip, now, k) && 0 < k
    ensures GwInv(cfg, g) && g.clock <= now && g.io.tx == [] && g.io.drop == []
    ensures (forall m :: m in g.io.owner ==> m < BURST) && ip !in g.cache
    ensures ip in g.io.pending && |g.io.pending[ip]| == k && |Unexpired(g.io.pending[ip], now)| == k
    ensures HeadersFit(f) && Live(g.sess, F.KeyOf(f), ip)
  {
    assert HeadersFit(f);
    hide GwInv, Goes, Live, Suits;
    AllUnexpired(QueueOf(g.io, ip), now);
    hide Unexpired;
  }

  lemma FinishThirtyThree(cfg: F.Config, g: Gw, now: u64, ip: u32, reply: Frame, request: Frame)
    requires GwInv(cfg, g) && g.clock <= now && g.io.tx == [] && |g.io.rx| == 2 && ip != 0
    requires FrameOf(g.io, g.io.rx[0]) == reply && FrameOf(g.io, g.io.rx[1]) == request
    requires ArpOk(reply) && U16(reply, OP_AT) == OP_REPLY && IpAt(reply, SIP_AT) == ip && !IsZeroMac(MacAt(reply, SHA_AT))
    requires ArpOk(request) && U16(request, OP_AT) == OP_REQUEST && IpAt(request, TIP_AT) == cfg.gatewayIp
    requires ip in g.io.pending && |Unexpired(g.io.pending[ip], now)| == BURST
    ensures var last := [HandleNext(now, None), HandleNext(now, None)];
            IsRun(cfg, g, last) && |Run(cfg, g, last).io.tx| == BURST + 1
  {
    hide GwInv, FrameOf, IsRun, Run, Unexpired;
    ThirtyThree(cfg, g, now, ip);
  }

  // --------------------------------------------------------- left waiting

  /**
   From the start: a packet held for an upstream that is not known yet; then the upstream sends to the
   session's outside endpoint. Its MAC is learned, and the held packet stays where it is.
   */
  lemma LeftWaitingFromStart(cfg: F.Config, g0: Gw, ep: Endpoint, client: u32, now: u64) returns (steps: seq<Step>)
    requires Initial(cfg, g0) && g0.clock <= now && ep.ip !in g0.cache && cfg.vipIp != cfg.gatewayIp
    requires ep.ip != 0 && ep.ip % 0x100 < 224 && ep.ip != cfg.gatewayIp && ep.ip != cfg.vipIp
    requires client != 0 && client != ep.ip
    ensures IsRun(cfg, g0, steps)
    ensures var r := Run(cfg, g0, steps); ep.ip in r.cache && |QueueOf(r.io, ep.ip)| == 1
  {
    hide *;
    BurstFits();
    var f := Datagram(client, cfg.vipIp, 1, cfg.vipPort);
    DatagramSuits(cfg, f, client, ep.ip);
    var first := HeldFromStart(cfg, g0, ep, f, 1, now);
    var g := Run(cfg, g0, first);
    HeldMeans(cfg, g, f, ep.ip, now, 1);
    FlowOf(cfg, f, client);
    var h := LiveHandle(g.sess, F.KeyOf(f), ep.ip);
    ReverseKeyOf(cfg, g, h);
    var reply := ReplyTo(cfg, g, h);
    TwoArrive(cfg, g, now, reply, reply);
    var s, t := Recv([(BURST, reply), (BURST + 1, reply)]), HandleNext(now, None);
    var g1 := Apply(cfg, g, s);
    RunOne(cfg, g, s);
    RunConcat(cfg, g0, first, [s]);
    ReplyLeavesQueue(cfg, g1, now, ep.ip, h);
    QueueWhole(g1.io, ep.ip);
    RunOne(cfg, g1, t);
    RunConcat(cfg, g0, first + [s], [t]);
    steps := first + [s] + [t];
  }

  lemma FlowOf(cfg: F.Config, f: Frame, client: u32)
    requires IsDatagram(f, FlowKey(client, cfg.vipIp, 1, cfg.vipPort, PROTO_UDP))
    ensures HeadersFit(f) && F.KeyOf(f).srcIp == client && F.KeyOf(f).dstIp == cfg.vipIp && F.KeyOf(f).proto == PROTO_UDP
  {
    hide Parse;
  }

  lemma LiveHandle(sess: Table, key: FlowKey, ip: u32) returns (h: Handle)
    requires Live(sess, key, ip)
    ensures h in sess.heap && sess.heap[h].forwardKey == key && sess.heap[h].upstreamIp == ip
  {
    h :| h in sess.heap && sess.heap[h].forwardKey == key && sess.heap[h].upstreamIp == ip;
  }

  /** A packet from the upstream of `h` to its outside endpoint. */
  lemma ReplyTo(cfg: F.Config, g: Gw, h: Handle) returns (f: Frame)
    requires GwInv(cfg, g) && h in g.sess.heap && cfg.vipIp != cfg.gatewayIp
    requires g.sess.heap[h].forwardKey.proto == PROTO_UDP
    ensures Parse(f, cfg.verify).Parsed? && HeadersFit(f) && !F.ForVip(cfg, f)
    ensures F.KeyOf(f) == g.sess.heap[h].reverseKey && NamesClient(cfg, f)
    ensures IpAt(f, SRC_AT) == g.sess.heap[h].upstreamIp
  {
    var k := g.sess.heap[h].reverseKey;
    hide GwInv, IsDatagram, Parse, HeadersFit, F.KeyOf;
    ReverseKeyOf(cfg, g, h);
    f := Datagram(k.srcIp, k.dstIp, k.srcPort, k.dstPort);
    assert k == FlowKey(k.srcIp, k.dstIp, k.srcPort, k.dstPort, PROTO_UDP);
    DatagramFacts(cfg, f, k);
  }

  lemma ReverseKeyOf(cfg: F.Config, g: Gw, h: Handle)
    requires GwInv(cfg, g) && h in g.sess.heap
    ensures var s := g.sess.heap[h];
            && s.reverseKey.srcIp == s.upstreamIp && s.reverseKey.dstIp == cfg.gatewayIp
            && s.clientIp == s.forwardKey.srcIp && s.vipIp == s.forwardKey.dstIp
            && (s.forwardKey.proto == PROTO_UDP ==> s.reverseKey.proto == PROTO_UDP)
  {
    LiveSession(g.sess, h);
  }

  /** A packet from the upstream of a live session: its address is known afterwards, its queue as before. */
  lemma ReplyLeavesQueue(cfg: F.Config, g: Gw, now: u64, ip: u32, h: Handle)
    requires GwInv(cfg, g) && g.clock <= now && g.io.rx != [] && ip in g.io.pending
    requires var f := FrameOf(g.io, g.io.rx[0]);
             && Parse(f, cfg.verify).Parsed? && HeadersFit(f) && !F.ForVip(cfg, f)
             && h in g.sess.heap && g.sess.heap[h].reverseKey == F.KeyOf(f) && IpAt(f, SRC_AT) == ip
    requires ip != 0 && ip % 0x100 < 224 && g.sess.heap[h].vipIp != ip && g.sess.heap[h].clientIp != ip
    ensures Enabled(cfg, g, HandleNext(now, None))
    ensures var r := Apply(cfg, g, HandleNext(now, None)); ip in r.cache && QueueOf(r.io, ip) == g.io.pending[ip]
  {
    var f := FrameOf(g.io, g.io.rx[0]);
    SessInvOf(cfg, g);
    VerdictIs(cfg, g, now);
    hide GwInv, SessInv, HandleFrame, Verdict, NewSource, LearnsWaiting, F.KeyOf, Parse, HeadersFit, F.ForVip, HandleOne, Enabled, Apply;
    ReplyLearns(cfg, g, f, ip);
    ReplyOutcome(cfg, g, f, now, h);
    LearnedIsFlushed(cfg, g, g.io.pending.Keys, f, now, ip);
    LeftAlone(cfg, g, now, None, ip);
    CanHandle(cfg, g, now);
  }

  lemma SessInvOf(cfg: F.Config, g: Gw)
    requires GwInv(cfg, g)
    ensures SessInv(cfg, g.sess)
  {
  }

  lemma ReplyLearns(cfg: F.Config, g: Gw, f: Frame, ip: u32)
    requires Parse(f, cfg.verify).Parsed? && HeadersFit(f) && IpAt(f, SRC_AT) == ip
    requires ip != 0 && ip % 0x100 < 224 && ip in g.io.pending
    ensures LearnsWaiting(g.io.pending.Keys, f, ip)
  {
    ParsedIsIpv4(f, cfg.verify);
  }

  /** A reply's source becomes the VIP, and the only address it can wait for is the client's. */
  lemma ReplyOutcome(cfg: F.Config, g: Gw, f: Frame, now: u64, h: Handle)
    requires SessInv(cfg, g.sess) && Parse(f, cfg.verify).Parsed? && HeadersFit(f) && !F.ForVip(cfg, f)
    requires h in g.sess.heap && g.sess.heap[h].reverseKey == F.KeyOf(f)
    ensures NewSource(cfg, g.sess, g.ups, f, now) == Some(g.sess.heap[h].vipIp)
    ensures var o := HandleFrame(cfg, g, g.io.pending.Keys, f, now).outcome;
            o.result == F.PendingArp ==> o.waitIp == g.sess.heap[h].clientIp
  {
    ReverseTranslates(cfg, PassiveLearn(g.cache, f, now), g.sess, g.ups, f, now, h);
    ParsedIsIpv4(f, cfg.verify);
    WaitKept(cfg, g, g.io.pending.Keys, f, now);
    hide HandleFrame, F.Handle, PassiveLearn, EtherType;
    ReverseLookup(g.sess, F.KeyOf(f));
    LiveSession(g.sess, h);
    hide SessInv, Sessions.Inv, Parse, HeadersFit, F.ForVip;
    assert IpAt(f, DST_AT) == cfg.gatewayIp;
  }
}
