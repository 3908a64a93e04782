/**
 Address translation over whole runs: a flow keeps its translation for as long as its session
 lives, replies find their way back to the client that asked, and everything that comes out of
 the translator verifies at the receiver.
 */
module NatTheorems {
  import opened Base
  import opened Packet
  import opened PacketProofs
  import opened Sessions
  import opened SessionProofs
  import opened Upstreams
  import opened Neighbors
  import opened HeldPackets
  import opened Gateway
  import opened GatewayProofs
  import F = Forward

  // -------------------------------------------------------- sessions over runs

  lemma ContinuesTransitive(a: Table, b: Table, c: Table)
    requires Continues(a, b) && Continues(b, c)
    ensures Continues(a, c)
  {
  }

  lemma {:induction false} RunContinues(cfg: F.Config, g: Gw, steps: seq<Step>)
    requires GwInv(cfg, g) && IsRun(cfg, g, steps)
    ensures Continues(g.sess, Run(cfg, g, steps).sess)
    decreases |steps|
  {
    if steps != [] {
      hide GwInv, Enabled;
      StepKeeps(cfg, g, steps[0]);
      var next := Apply(cfg, g, steps[0]);
      hide Continues, Apply;
      RunContinues(cfg, next, steps[1..]);
      ContinuesTransitive(g.sess, next.sess, Run(cfg, g, steps).sess);
    }
  }

  /**
   Each port of the range is in use, free or never issued, and only one of these; the never-issued
   ones are those from the cursor up, or there are none left.
   */
  ghost predicate PortsSplit(t: Table) {
    && (forall p: u16 :: InRange(t, p) <==> p in t.inUse || p in t.free || NeverIssued(t, p))
    && (forall p: u16 :: !(p in t.inUse && p in t.free)) && NoDup(t.free)
    && (|| (forall p: u16 :: NeverIssued(t, p) <==> t.next <= p < t.end)
        || (t.next == t.begin && forall p: u16 :: !NeverIssued(t, p)))
  }

  /** List, in-use ports and both maps name exactly the live sessions, one to one. */
  ghost predicate SessionsAgree(t: Table) {
    && NoDup(t.order) && (forall h :: h in t.order <==> h in t.heap)
    && (forall p: u16 :: p in t.inUse <==> PortTaken(t, p))
    && (forall a, b :: a in t.heap && b in t.heap && t.heap[a].snatPort == t.heap[b].snatPort ==> a == b)
    && (forall k: FlowKey, h :: k in t.forward && t.forward[k] == h <==> h in t.heap && t.heap[h].forwardKey == k)
    && (forall k: FlowKey, h :: k in t.reverse && t.reverse[k] == h <==> h in t.heap && t.heap[h].reverseKey == k)
  }

  ghost predicate Consistent(t: Table) {
    PortsSplit(t) && SessionsAgree(t) && |t.inUse| == |t.order| <= t.end - t.begin
  }

  lemma InvConsistent(t: Table)
    requires Sessions.Inv(t)
    ensures Consistent(t)
  {
    hide PortsInv, MapsInv, PortsSplit, SessionsAgree;
    LiveCount(t);
    FullCount(t);
    PortsConsistent(t);
    MapsConsistent(t);
  }

  lemma PortsConsistent(t: Table)
    requires PortsInv(t)
    ensures PortsSplit(t)
  {
  }

  lemma MapsConsistent(t: Table)
    requires Sessions.Inv(t)
    ensures SessionsAgree(t)
  {
    hide PortsInv;
    PortsTaken(t);
    KeysLead(t);
    assert ListInv(t) && OnePortEach(t);
    hide HeapInv, KeysInv, PortTaken;
  }

  lemma PortsTaken(t: Table)
    requires HeapInv(t) && OnePortEach(t)
    ensures forall p: u16 :: p in t.inUse <==> PortTaken(t, p)
  {
    forall p: u16 | PortTaken(t, p)
      ensures p in t.inUse
    {
      var h :| h in t.heap && t.heap[h].snatPort == p;
      assert SessionOk(t, h, t.heap[h]);
    }
  }

  lemma KeysLead(t: Table)
    requires HeapInv(t) && KeysInv(t)
    ensures forall k: FlowKey, h :: k in t.forward && t.forward[k] == h <==> h in t.heap && t.heap[h].forwardKey == k
    ensures forall k: FlowKey, h :: k in t.reverse && t.reverse[k] == h <==> h in t.heap && t.heap[h].reverseKey == k
  {
    forall h | h in t.heap
      ensures t.heap[h].forwardKey in t.forward && t.forward[t.heap[h].forwardKey] == h
      ensures t.heap[h].reverseKey in t.reverse && t.reverse[t.heap[h].reverseKey] == h
    {
      assert SessionOk(t, h, t.heap[h]);
    }
    hide HeapInv;
  }

  /** The session table is consistent in every reachable state. */
  lemma ReachableSessions(cfg: F.Config, g: Gw, steps: seq<Step>)
    requires Initial(cfg, g) && IsRun(cfg, g, steps)
    ensures Consistent(Run(cfg, g, steps).sess)
  {
    InitialInv(cfg, g);
    RunKeeps(cfg, g, steps);
    hide Run, IsRun, Sessions.Inv, HeldInv, Consistent;
    InvConsistent(Run(cfg, g, steps).sess);
  }

  // ------------------------------------------------------------- translation

  function Swap(k: FlowKey): FlowKey {
    FlowKey(k.dstIp, k.srcIp, k.dstPort, k.srcPort, k.proto)
  }

  /** The tuple a session's packets carry on the upstream side. */
  function OutsideKey(s: Session): FlowKey {
    Swap(s.reverseKey)
  }

  lemma RewriteKey(f: Frame, src: u32, dst: u32, sport: u16, dport: u16, recompute: bool)
    requires HeadersFit(f)
    ensures var r := Rewrite(f, src, dst, sport, dport, recompute);
            HeadersFit(r) && F.KeyOf(r) == FlowKey(src, dst, sport, dport, PROTO_UDP)
  {
    RewriteEffect(f, src, dst, sport, dport, recompute);
    hide Rewrite;
  }

  lemma EmitKey(cfg: F.Config, c: Cache, f: Frame, nextHop: u32, sent: F.Result)
    requires HeadersFit(f)
    ensures var r := F.Emit(cfg, c, f, nextHop, sent).0; HeadersFit(r) && F.KeyOf(r) == F.KeyOf(f)
  {
    var r := F.Emit(cfg, c, f, nextHop, sent).0;
    assert forall i :: 12 <= i < |f| ==> r[i] == f[i];
  }

  /** Sent at once exactly if the next hop is known, or else to wait for it. */
  ghost predicate Sent(c: Cache, o: F.Outcome, how: F.Result, nextHop: u32) {
    o == if nextHop in c then F.Outcome(how, 0, 0) else F.Outcome(F.PendingArp, nextHop, 0)
  }

  lemma ForwardOut(cfg: F.Config, c: Cache, f: Frame, s: Session)
    requires HeadersFit(f)
    ensures var (r, o) := F.Emit(cfg, c, F.ForwardNat(cfg, f, s), s.upstreamIp, F.TxForward);
            && HeadersFit(r) && Sent(c, o, F.TxForward, s.upstreamIp)
            && F.KeyOf(r) == FlowKey(cfg.gatewayIp, s.upstreamIp, s.snatPort, s.upstreamPort, PROTO_UDP)
  {
    RewriteKey(f, cfg.gatewayIp, s.upstreamIp, s.snatPort, s.upstreamPort, cfg.recompute);
    hide Rewrite, SetL2, HeadersFit, F.KeyOf;
    EmitKey(cfg, c, F.ForwardNat(cfg, f, s), s.upstreamIp, F.TxForward);
  }

  lemma ReverseOut(cfg: F.Config, c: Cache, f: Frame, s: Session)
    requires HeadersFit(f)
    ensures var (r, o) := F.Emit(cfg, c, F.ReverseNat(cfg, f, s), s.clientIp, F.TxReverse);
            && HeadersFit(r) && Sent(c, o, F.TxReverse, s.clientIp)
            && F.KeyOf(r) == FlowKey(s.vipIp, s.clientIp, s.vipPort, s.clientPort, PROTO_UDP)
  {
    RewriteKey(f, s.vipIp, s.clientIp, s.vipPort, s.clientPort, cfg.recompute);
    hide Rewrite, SetL2, HeadersFit, F.KeyOf;
    EmitKey(cfg, c, F.ReverseNat(cfg, f, s), s.clientIp, F.TxReverse);
  }

  /** A packet of a live flow leaves with the session's own outside tuple, toward its upstream. */
  lemma ForwardTranslates(cfg: F.Config, c: Cache, sess: Table, ups: Ups, f: Frame, now: u64, h: Handle)
    requires SessInv(cfg, sess) && Parse(f, cfg.verify).Parsed? && HeadersFit(f) && F.ForVip(cfg, f)
    requires h in sess.heap && sess.heap[h].forwardKey == F.KeyOf(f)
    ensures var o := F.Handle(cfg, c, sess, ups, f, now);
            && HeadersFit(o.frame) && F.KeyOf(o.frame) == OutsideKey(sess.heap[h])
            && Sent(c, o.outcome, F.TxForward, sess.heap[h].upstreamIp)
            && o.sess == Touch(sess, h, now) && o.ups == ups
  {
    ForwardLookup(sess, F.KeyOf(f));
    LiveSession(sess, h);
    assert F.KeyOf(f).proto == PROTO_UDP;
    var s := Touch(sess, h, now).heap[h];
    ForwardOut(cfg, c, f, s);
    assert F.SessionFor(sess, ups, F.KeyOf(f), now) == (Touch(sess, h, now), ups, Some(h));
    hide SessInv, HeadersFit, F.Emit, F.ForwardNat, F.KeyOf, F.SessionFor, Parse, SessionOk;
  }

  /** A reply to a live session's outside tuple leaves as the exact swap of the client's own tuple. */
  lemma ReverseTranslates(cfg: F.Config, c: Cache, sess: Table, ups: Ups, f: Frame, now: u64, h: Handle)
    requires SessInv(cfg, sess) && Parse(f, cfg.verify).Parsed? && HeadersFit(f) && !F.ForVip(cfg, f)
    requires h in sess.heap && sess.heap[h].reverseKey == F.KeyOf(f)
    ensures var o := F.Handle(cfg, c, sess, ups, f, now);
            && HeadersFit(o.frame) && F.KeyOf(o.frame) == Swap(sess.heap[h].forwardKey)
            && Sent(c, o.outcome, F.TxReverse, sess.heap[h].clientIp)
            && o.sess == Touch(sess, h, now)
  {
    ReverseAddressed(cfg, sess, f, h);
    hide *;
    ReverseHandled(cfg, c, sess, ups, f, now, h);
    ReverseOut(cfg, c, f, Touch(sess, h, now).heap[h]);
  }

  lemma ReverseAddressed(cfg: F.Config, sess: Table, f: Frame, h: Handle)
    requires SessInv(cfg, sess) && HeadersFit(f) && h in sess.heap && sess.heap[h].reverseKey == F.KeyOf(f)
    ensures LookupReverse(sess, F.KeyOf(f)) == Some(h) && IpAt(f, DST_AT) == cfg.gatewayIp
    ensures forall now: u64 :: h in Touch(sess, h, now).heap
              && var s := Touch(sess, h, now).heap[h];
                 s.clientIp == sess.heap[h].clientIp
                 && FlowKey(s.vipIp, s.clientIp, s.vipPort, s.clientPort, PROTO_UDP) == Swap(sess.heap[h].forwardKey)
  {
    ReverseLookup(sess, F.KeyOf(f));
    LiveSession(sess, h);
    assert F.KeyOf(f).proto == PROTO_UDP;
    hide Sessions.Inv, HeadersFit, LookupReverse;
  }

  lemma ReverseHandled(cfg: F.Config, c: Cache, sess: Table, ups: Ups, f: Frame, now: u64, h: Handle)
    requires Parse(f, cfg.verify).Parsed? && HeadersFit(f) && !F.ForVip(cfg, f)
    requires LookupReverse(sess, F.KeyOf(f)) == Some(h) && IpAt(f, DST_AT) == cfg.gatewayIp && h in Touch(sess, h, now).heap
    ensures var o, s := F.Handle(cfg, c, sess, ups, f, now), Touch(sess, h, now).heap[h];
            && (o.frame, o.outcome) == F.Emit(cfg, c, F.ReverseNat(cfg, f, s), s.clientIp, F.TxReverse)
            && o.sess == Touch(sess, h, now)
  {
    hide Parse, HeadersFit, F.ReverseNat, F.Emit, F.KeyOf, F.ForVip, LookupReverse, Touch;
  }

  /**
   Round trip and stickiness. While a session lives, whatever else happens (other packets,
   expiries, new upstream lists or policies), each packet of its flow leaves with the tuple the
   first one had, and a reply to that tuple goes back as the swap of the client's own tuple.
   Premise: the VIP is not one of the gateway's own translated endpoints.
   */
  lemma RoundTrip(cfg: F.Config, g: Gw, steps: seq<Step>, h: Handle, c: Cache, f: Frame, reply: Frame, now: u64)
    requires GwInv(cfg, g) && IsRun(cfg, g, steps)
    requires h in g.sess.heap && h in Run(cfg, g, steps).sess.heap
    requires Parse(f, cfg.verify).Parsed? && HeadersFit(f) && F.ForVip(cfg, f)
    requires F.KeyOf(f) == g.sess.heap[h].forwardKey
    requires Parse(reply, cfg.verify).Parsed? && HeadersFit(reply)
    requires F.KeyOf(reply) == Swap(OutsideKey(g.sess.heap[h]))
    requires !(cfg.gatewayIp == cfg.vipIp && g.sess.heap[h].snatPort == cfg.vipPort)
    ensures var r := Run(cfg, g, steps);
            var there := F.Handle(cfg, c, r.sess, r.ups, f, now);
            var back := F.Handle(cfg, c, r.sess, r.ups, reply, now);
            && HeadersFit(there.frame) && F.KeyOf(there.frame) == OutsideKey(g.sess.heap[h])
            && HeadersFit(back.frame) && F.KeyOf(back.frame) == Swap(F.KeyOf(f))
            && Sent(c, there.outcome, F.TxForward, g.sess.heap[h].upstreamIp)
            && Sent(c, back.outcome, F.TxReverse, F.KeyOf(f).srcIp)
  {
    var r := Run(cfg, g, steps);
    RunKeeps(cfg, g, steps);
    RunContinues(cfg, g, steps);
    SameSession(cfg, g.sess, r.sess, h);
    ReplyIsNotForVip(cfg, g.sess.heap[h], g.sess, h, reply);
    hide Parse, HeadersFit, GwInv, IsRun, Run, Continues, F.KeyOf, F.Handle;
    ForwardTranslates(cfg, c, r.sess, r.ups, f, now, h);
    ReverseTranslates(cfg, c, r.sess, r.ups, reply, now, h);
  }

  lemma SameSession(cfg: F.Config, t: Table, r: Table, h: Handle)
    requires SessInv(cfg, t) && SessInv(cfg, r) && Continues(t, r) && h in t.heap && h in r.heap
    ensures r.heap[h].forwardKey == t.heap[h].forwardKey && r.heap[h].reverseKey == t.heap[h].reverseKey
    ensures r.heap[h].upstreamIp == t.heap[h].upstreamIp && r.heap[h].snatPort == t.heap[h].snatPort
    ensures r.heap[h].clientIp == t.heap[h].forwardKey.srcIp
  {
    LiveSession(t, h);
    LiveSession(r, h);
    hide Sessions.Inv;
  }

  lemma ReplyIsNotForVip(cfg: F.Config, s: Session, t: Table, h: Handle, reply: Frame)
    requires SessInv(cfg, t) && h in t.heap && t.heap[h] == s && HeadersFit(reply)
    requires F.KeyOf(reply) == Swap(OutsideKey(s))
    requires !(cfg.gatewayIp == cfg.vipIp && s.snatPort == cfg.vipPort)
    ensures F.KeyOf(reply) == s.reverseKey && !F.ForVip(cfg, reply)
  {
    LiveSession(t, h);
    hide Sessions.Inv;
  }

  /**
   The premise of the round trip is exact. With the client's neighbor known, a reply to a live
   session is sent to the client if and only if the session's outside endpoint is not the VIP: the
   VIP test comes first, so otherwise the reply is taken for a client packet.
   */
  lemma ReplySentIff(cfg: F.Config, c: Cache, sess: Table, ups: Ups, reply: Frame, now: u64, h: Handle)
    requires SessInv(cfg, sess) && Parse(reply, cfg.verify).Parsed? && HeadersFit(reply)
    requires h in sess.heap && F.KeyOf(reply) == sess.heap[h].reverseKey && sess.heap[h].clientIp in c
    ensures F.Handle(cfg, c, sess, ups, reply, now).outcome.result == F.TxReverse
            <==> !(cfg.gatewayIp == cfg.vipIp && sess.heap[h].snatPort == cfg.vipPort)
  {
    ReverseAddressed(cfg, sess, reply, h);
    VipDecides(cfg, sess, reply, h);
    hide *;
    if F.ForVip(cfg, reply) {
      ForwardNotReverse(cfg, c, sess, ups, reply, now);
    } else {
      ReverseHandled(cfg, c, sess, ups, reply, now, h);
      EmitsKnown(cfg, c, F.ReverseNat(cfg, reply, Touch(sess, h, now).heap[h]), sess.heap[h].clientIp, F.TxReverse);
    }
  }

  lemma VipDecides(cfg: F.Config, sess: Table, f: Frame, h: Handle)
    requires SessInv(cfg, sess) && HeadersFit(f) && h in sess.heap && F.KeyOf(f) == sess.heap[h].reverseKey
    ensures F.ForVip(cfg, f) <==> cfg.gatewayIp == cfg.vipIp && sess.heap[h].snatPort == cfg.vipPort
    ensures ETH_LEN <= |f|
  {
    LiveSession(sess, h);
    hide Sessions.Inv;
  }

  lemma ForwardNotReverse(cfg: F.Config, c: Cache, sess: Table, ups: Ups, f: Frame, now: u64)
    requires Parse(f, cfg.verify).Parsed? && HeadersFit(f) && F.ForVip(cfg, f)
    ensures F.Handle(cfg, c, sess, ups, f, now).outcome.result != F.TxReverse
  {
    hide Parse, HeadersFit, F.SessionFor, F.ForwardNat, F.KeyOf, SetL2;
  }

  lemma EmitsKnown(cfg: F.Config, c: Cache, f: Frame, nextHop: u32, sent: F.Result)
    requires ETH_LEN <= |f| && nextHop in c
    ensures F.Emit(cfg, c, f, nextHop, sent).1.result == sent
  {
    hide SetL2;
  }

  /** Whatever a reverse packet is turned into goes to the client of the one session it belongs to. */
  lemma ReverseReachesOnlyItsClient(cfg: F.Config, c: Cache, sess: Table, ups: Ups, f: Frame, now: u64)
    requires SessInv(cfg, sess) && Parse(f, cfg.verify).Parsed? && HeadersFit(f) && !F.ForVip(cfg, f)
    requires F.Handle(cfg, c, sess, ups, f, now).outcome.result != F.Drop
    ensures exists h :: h in sess.heap && sess.heap[h].reverseKey == F.KeyOf(f)
              && (forall g :: g in sess.heap && sess.heap[g].reverseKey == F.KeyOf(f) ==> g == h)
              && var r := F.Handle(cfg, c, sess, ups, f, now).frame;
                 HeadersFit(r) && F.KeyOf(r) == Swap(sess.heap[h].forwardKey)
  {
    ReverseLookup(sess, F.KeyOf(f));
    var h := LookupReverse(sess, F.KeyOf(f)).value;
    ReverseTranslates(cfg, c, sess, ups, f, now, h);
  }

  // ----------------------------------------------------- what leaves verifies

  /**
   `r` parses with verification on and has the layout of `f`; its header sums to all ones; with
   recomputation on, its pseudo header and datagram do so exactly if the IPv4 total length lets the
   checksum field count; and beyond the MACs it differs from `f` in addresses, ports and the two
   checksums only.
   */
  ghost predicate Verifies(f: Frame, r: Frame, recompute: bool) {
    && ParseOk(f) && |r| == |f| && Parse(r, true) == Parse(f, false)
    && HeadersFit(r) && Carry(WordSum(r[ETH_LEN..UdpAt(r)])) == 0xffff
    && L4Len(r) == L4Len(f)
    && (recompute && 0 <= L4Len(r) ==>
          (Carry(UdpSum(r)) == 0xffff <==> FieldCounts(L4Len(r), Carry(OpenSum(r)))))
    && forall i :: ETHER_TYPE_AT <= i < |f| && !NatField(f, i) ==> r[i] == f[i]
  }

  /** Every frame that the forwarder sends or has held verifies at its receiver. */
  lemma OutputVerifies(cfg: F.Config, c: Cache, sess: Table, ups: Ups, f: Frame, now: u64)
    requires F.Handle(cfg, c, sess, ups, f, now).outcome.result != F.Drop
    ensures Verifies(f, F.Handle(cfg, c, sess, ups, f, now).frame, cfg.recompute)
  {
    ParseWeaker(f, cfg.verify);
    hide Verifies, Rewrite, F.Emit, F.SessionFor;
    if F.ForVip(cfg, f) {
      var (sess1, ups1, h) := F.SessionFor(sess, ups, F.KeyOf(f), now);
      var s := sess1.heap[h.value];
      EmittedVerifies(cfg, c, f, cfg.gatewayIp, s.upstreamIp, s.snatPort, s.upstreamPort, F.TxForward);
    } else {
      var h := LookupReverse(sess, F.KeyOf(f)).value;
      var s := Touch(sess, h, now).heap[h];
      EmittedVerifies(cfg, c, f, s.vipIp, s.clientIp, s.vipPort, s.clientPort, F.TxReverse);
    }
  }

  lemma EmitSameBody(cfg: F.Config, c: Cache, w: Frame, nextHop: u32, sent: F.Result)
    requires ETH_LEN <= |w|
    ensures SameBody(w, F.Emit(cfg, c, w, nextHop, sent).0)
  {
  }

  lemma EmittedVerifies(cfg: F.Config, c: Cache, f: Frame, src: u32, dst: u32, sport: u16, dport: u16, sent: F.Result)
    requires ParseOk(f)
    ensures Verifies(f, F.Emit(cfg, c, Rewrite(f, src, dst, sport, dport, cfg.recompute), dst, sent).0, cfg.recompute)
  {
    var w := Rewrite(f, src, dst, sport, dport, cfg.recompute);
    RewriteVerifies(f, src, dst, sport, dport, cfg.recompute);
    EmitSameBody(cfg, c, w, dst, sent);
    hide Verifies, Rewrite, F.Emit;
    VerifiesIgnoresMacs(f, w, F.Emit(cfg, c, w, dst, sent).0, cfg.recompute);
  }

  lemma RewriteVerifies(f: Frame, src: u32, dst: u32, sport: u16, dport: u16, recompute: bool)
    requires ParseOk(f)
    ensures Verifies(f, Rewrite(f, src, dst, sport, dport, recompute), recompute)
  {
    RewriteEffect(f, src, dst, sport, dport, recompute);
    RewriteParses(f, src, dst, sport, dport, recompute, true);
    RewriteHeaderSums(f, src, dst, sport, dport, recompute);
    assert f[PROTO_AT] == PROTO_UDP;
    RewriteDatagramSums(f, src, dst, sport, dport, recompute);
    hide Rewrite, Parse, WordSum, Carry, NatField, HeadersFit, UdpSum, OpenSum, FieldCounts, L4Len;
  }

  lemma VerifiesIgnoresMacs(f: Frame, w: Frame, r: Frame, recompute: bool)
    requires Verifies(f, w, recompute) && SameBody(w, r)
    ensures Verifies(f, r, recompute)
  {
    HeaderSumIgnoresMacs(w, r);
    BodyVerifies(w, r);
    hide Parse, WordSum, Carry, NatField, HeadersFit, UdpSum, OpenSum, FieldCounts, L4Len;
  }

  lemma HeaderSumIgnoresMacs(w: Frame, r: Frame)
    requires HeadersFit(w) && SameBody(w, r)
    ensures HeadersFit(r) && WordSum(r[ETH_LEN..UdpAt(r)]) == WordSum(w[ETH_LEN..UdpAt(w)])
    ensures L4Len(r) == L4Len(w)
    ensures 0 <= L4Len(w) ==> UdpSum(r) == UdpSum(w) && OpenSum(r) == OpenSum(w)
  {
    assert r[ETH_LEN..UdpAt(r)] == w[ETH_LEN..UdpAt(w)];
    assert UdpAt(r) == UdpAt(w);
    if 0 <= L4Len(w) {
      assert L4Bytes(r) == L4Bytes(w);
      assert SameSummed(w, r);
      OpenSumSame(w, r);
    }
    hide WordSum, OpenSum;
  }

  lemma RewriteDatagramSums(f: Frame, src: u32, dst: u32, sport: u16, dport: u16, recompute: bool)
    requires HeadersFit(f) && f[PROTO_AT] == PROTO_UDP
    ensures var w := Rewrite(f, src, dst, sport, dport, recompute);
            && HeadersFit(w) && L4Len(w) == L4Len(f)
            && (recompute && 0 <= L4Len(f) ==>
                  (Carry(UdpSum(w)) == 0xffff <==> FieldCounts(L4Len(w), Carry(OpenSum(w)))))
  {
    var t := Retarget(f, src, dst, sport, dport);
    RetargetEffect(f, src, dst, sport, dport);
    FinishL4Effect(t, recompute);
    hide Retarget, UdpSum, OpenSum, FieldCounts, Carry, FinishL4;
    assert t[PROTO_AT] == PROTO_UDP && L4Len(t) == L4Len(f) && L4Len(FinishL4(t, recompute)) == L4Len(t);
    if recompute && 0 <= L4Len(f) {
      FinishedDatagramSums(t);
    }
  }

  lemma RewriteHeaderSums(f: Frame, src: u32, dst: u32, sport: u16, dport: u16, recompute: bool)
    requires HeadersFit(f)
    ensures var w := Rewrite(f, src, dst, sport, dport, recompute);
            HeadersFit(w) && Carry(WordSum(w[ETH_LEN..UdpAt(w)])) == 0xffff
  {
    hide Retarget, FinishL4, Carry, WordSum;
    FinishedHeaderSums(Retarget(f, src, dst, sport, dport), recompute);
  }

  lemma ChecksumsIgnoreMacs(a: Frame, b: Frame)
    requires HeadersFit(a) && SameBody(a, b)
    ensures HeadersFit(b) && IpChecksum(a) == IpChecksum(b) && UdpChecksum(a) == UdpChecksum(b)
  {
    assert a[ETH_LEN..UdpAt(a)] == b[ETH_LEN..UdpAt(b)];
    assert L4Len(a) == L4Len(b);
    if 0 <= L4Len(a) {
      assert L4Bytes(a) == L4Bytes(b);
    }
  }

  lemma ZeroedSame(w: Frame, r: Frame, o: nat)
    requires HeadersFit(w) && SameBody(w, r) && ETH_LEN < o && o + 2 <= |w|
    ensures HeadersFit(PutU16(w, o, 0)) && SameBody(PutU16(w, o, 0), PutU16(r, o, 0))
    ensures U16(w, o) == U16(r, o)
  {
  }

  lemma ChecksumTestsIgnoreMacs(w: Frame, r: Frame)
    requires HeadersFit(w) && SameBody(w, r)
    ensures HeadersFit(r) && UdpChecksumOk(r) == UdpChecksumOk(w) && U16(r, IP_SUM_AT) == U16(w, IP_SUM_AT)
    ensures IpChecksum(PutU16(r, IP_SUM_AT, 0)) == IpChecksum(PutU16(w, IP_SUM_AT, 0))
  {
    hide IpChecksum, UdpChecksum, PutU16;
    assert UdpAt(w) == UdpAt(r);
    ZeroedSame(w, r, IP_SUM_AT);
    ZeroedSame(w, r, UdpSumAt(w));
    hide SameBody;
    ChecksumsIgnoreMacs(PutU16(w, IP_SUM_AT, 0), PutU16(r, IP_SUM_AT, 0));
    ChecksumsIgnoreMacs(PutU16(w, UdpSumAt(w), 0), PutU16(r, UdpSumAt(w), 0));
  }

  /** Verification is parsing followed by the two checksum tests. */
  lemma ParseSplit(f: Frame)
    ensures Parse(f, true).Parsed? <==>
              && ParseOk(f) && UdpChecksumOk(f)
              && U16(f, IP_SUM_AT) == IpChecksum(PutU16(f, IP_SUM_AT, 0))
    ensures Parse(f, true).Parsed? ==> Parse(f, true) == Parse(f, false)
  {
    hide IpChecksum, UdpChecksumOk, PutU16;
  }

  /** Verification does not look at the MAC addresses. */
  lemma BodyVerifies(w: Frame, r: Frame)
    requires SameBody(w, r) && Parse(w, true).Parsed?
    ensures Parse(r, true) == Parse(w, true)
  {
    ParseSplit(w);
    ParseSplit(r);
    ParseIgnoresMacs(w, r);
    ChecksumTestsIgnoreMacs(w, r);
    hide Parse, IpChecksum, UdpChecksumOk, PutU16, SameBody;
  }
}
