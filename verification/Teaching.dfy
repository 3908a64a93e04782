/**
 What the gateway knows about its neighbors, told by the bytes of the frames it handled: which frame teaches
 which address, that an entry is what the last such frame said, and that replies leave with it.
 Offsets are written out: Ethernet, section 3.1 of RFC 791, and RFC 826.
 */
module Teaching {
  import opened Base
  import opened Packet
  import opened PacketProofs
  import opened Sessions
  import opened Upstreams
  import opened Neighbors
  import opened Worker
  import opened HeldPackets
  import opened WorkerSteps
  import opened Gateway
  import opened GatewayProofs
  import opened NatTheorems
  import opened RunTheorems
  import Arp
  import F = Forward

  /** An address and the MAC to reach it. */
  datatype Lesson = Lesson(ip: u32, mac: Mac)

  /** The four octets of an address as the word a little-endian host loads. */
  function Word(a: u8, b: u8, c: u8, d: u8): u32 {
    a + 0x100 * b as int + 0x1_0000 * c as int + 0x100_0000 * d as int
  }

  /** An IPv4 frame teaches its sender's address, unless that is zero or multicast. */
  function Ipv4Lesson(f: Frame): Option<Lesson>
    requires 34 <= |f|
  {
    var ip := Word(f[26], f[27], f[28], f[29]);
    if ip != 0 && f[26] < 224 then Some(Lesson(ip, f[6..12])) else None
  }

  /** An ARP reply over Ethernet teaches what it says of its sender, unless address or MAC is zero. */
  function ArpLesson(f: Frame): Option<Lesson>
    requires 42 <= |f|
  {
    var ip, mac := Word(f[28], f[29], f[30], f[31]), f[22..28];
    if f[14..22] == [0, 1, 0x08, 0, 6, 4, 0, 2] && ip != 0 && mac != [0, 0, 0, 0, 0, 0] then Some(Lesson(ip, mac)) else None
  }

  function LessonOf(f: Frame): Option<Lesson> {
    if 34 <= |f| && f[12..14] == [0x08, 0x00] then Ipv4Lesson(f)
    else if 42 <= |f| && f[12..14] == [0x08, 0x06] then ArpLesson(f)
    else None
  }

  ghost predicate IsStatic(c: Cache, ip: u32) {
    ip in c && c[ip].isStatic
  }

  /** The cache after a lesson at time `now`: static entries stay, any other is replaced. */
  function Taught(c: Cache, lesson: Option<Lesson>, now: u64): Cache {
    match lesson
    case None => c
    case Some(l) => if l.ip in c && c[l.ip].isStatic then c else c[l.ip := Entry(l.mac, now, false)]
  }

  // ------------------------------------------------------------- one frame

  lemma Ipv4Learned(c: Cache, f: Frame, now: u64)
    requires EtherType(f) == ETHER_TYPE_IPV4
    ensures PassiveLearn(c, f, now) == Taught(c, LessonOf(f), now)
  {
    assert f[12..14] == [f[12], f[13]];
    if 34 <= |f| {
      assert Ipv4Src(f) == Word(f[26], f[27], f[28], f[29]);
      assert Word(f[26], f[27], f[28], f[29]) % 0x100 == f[26];
    }
  }

  lemma ArpLearned(cfg: Arp.ArpConfig, c: Cache, f: Frame, now: u64)
    requires EtherType(f) == ETHER_TYPE_ARP
    ensures Arp.Handle(cfg, c, f, now).cache == Taught(c, LessonOf(f), now)
  {
    ArpReplyBytes(f);
    hide EtherType, Arp.ArpOk;
    ArpCache(cfg, c, f, now);
    hide Arp.Handle, U16;
    if 42 <= |f| && f[14..22] == [0, 1, 0x08, 0, 6, 4, 0, 2] {
      ReplyCache(c, f, now);
      hide Arp.HandleReply, Taught;
    } else {
      NothingTaught(c, now);
    }
  }

  lemma ArpCache(cfg: Arp.ArpConfig, c: Cache, f: Frame, now: u64)
    ensures Arp.ArpOk(f) && U16(f, Arp.OP_AT) == Arp.OP_REPLY ==>
              Arp.Handle(cfg, c, f, now).cache == Arp.HandleReply(c, f, now).cache
    ensures !(Arp.ArpOk(f) && U16(f, Arp.OP_AT) == Arp.OP_REPLY) ==> Arp.Handle(cfg, c, f, now).cache == c
  {
    hide Arp.HandleReply, Arp.MakeReply, U16;
  }

  lemma ReplyCache(c: Cache, f: Frame, now: u64)
    requires 42 <= |f| && f[14..22] == [0, 1, 0x08, 0, 6, 4, 0, 2]
    ensures Arp.HandleReply(c, f, now).cache == Taught(c, ArpLesson(f), now)
  {
    assert IpAt(f, 28) == Word(f[28], f[29], f[30], f[31]);
    assert MacAt(f, 22) == f[22..28];
    hide IpAt, MacAt, Word;
  }

  /** An ARP reply over Ethernet and IPv4, by its fixed fields and byte for byte. */
  lemma ArpReplyBytes(f: Frame)
    requires EtherType(f) == ETHER_TYPE_ARP
    ensures 14 <= |f| && f[12..14] == [0x08, 0x06]
    ensures 42 <= |f| ==>
              (Arp.ArpOk(f) && U16(f, Arp.OP_AT) == Arp.OP_REPLY <==> f[14..22] == [0, 1, 0x08, 0, 6, 4, 0, 2])
    ensures |f| < 42 ==> !Arp.ArpOk(f)
  {
    assert f[12..14] == [f[12], f[13]];
    if 42 <= |f| {
      assert f[14..22] == [f[14], f[15], f[16], f[17], f[18], f[19], f[20], f[21]];
    }
  }

  lemma OtherTeachesNothing(f: Frame)
    requires EtherType(f) != ETHER_TYPE_IPV4 && EtherType(f) != ETHER_TYPE_ARP
    ensures LessonOf(f) == None
  {
    if 14 <= |f| {
      assert f[12..14] == [f[12], f[13]];
    }
  }

  /** A handled frame changes the cache by its lesson and by nothing else. */
  lemma FrameTeaches(cfg: F.Config, g: Gw, waiting: set<u32>, f: Frame, now: u64)
    ensures HandleFrame(cfg, g, waiting, f, now).cache == Taught(g.cache, LessonOf(f), now)
  {
    hide F.Handle, Arp.Handle, PassiveLearn, EtherType, LessonOf, Taught, Ipv4Src;
    if EtherType(f) == ETHER_TYPE_ARP {
      ArpLearned(ArpCfg(cfg), g.cache, f, now);
    } else if EtherType(f) == ETHER_TYPE_IPV4 {
      Ipv4Learned(g.cache, f, now);
    } else {
      OtherTeachesNothing(f);
      NothingTaught(g.cache, now);
    }
  }

  lemma NothingTaught(c: Cache, now: u64)
    ensures Taught(c, None, now) == c
  {
  }

  lemma HandleTeaches(cfg: F.Config, g: Gw, now: u64, alloc: Option<Mbuf>)
    requires g.io.rx != []
    ensures HandleOne(cfg, g, now, alloc).cache == Taught(g.cache, LessonOf(FrameOf(g.io, g.io.rx[0])), now)
  {
    hide HandleFrame, Flushed, Dispose, LessonOf, Taught;
    FrameTeaches(cfg, g, g.io.pending.Keys, FrameOf(g.io, g.io.rx[0]), now);
  }

  /**
   In bytes: an IPv4 frame from a learnable source with no static entry maps that source to the Ethernet
   source of the frame, stamped `now`; with a static entry the cache stays as it is.
   */
  lemma SenderLearned(cfg: F.Config, g: Gw, now: u64, alloc: Option<Mbuf>, src: u32)
    requires g.io.rx != []
    requires var f := FrameOf(g.io, g.io.rx[0]);
             && 34 <= |f| && f[12] == 0x08 && f[13] == 0x00
             && src == Word(f[26], f[27], f[28], f[29]) && src != 0 && f[26] < 224
    ensures var f, r := FrameOf(g.io, g.io.rx[0]), HandleOne(cfg, g, now, alloc).cache;
            r == if IsStatic(g.cache, src) then g.cache else g.cache[src := Entry(f[6..12], now, false)]
  {
    var f := FrameOf(g.io, g.io.rx[0]);
    assert f[12..14] == [0x08, 0x00];
    assert LessonOf(f) == Some(Lesson(src, f[6..12]));
    hide HandleOne, LessonOf;
    HandleTeaches(cfg, g, now, alloc);
  }

  // ------------------------------------------------------------- over runs

  datatype Seen = Seen(mac: Mac, at: u64)

  /** What the step teaches about `ip`. */
  ghost function TaughtAt(cfg: F.Config, g: Gw, s: Step, ip: u32): Option<Seen>
    requires Enabled(cfg, g, s)
  {
    if !s.HandleNext? then None
    else
      match LessonOf(FrameOf(g.io, g.io.rx[0]))
      case Some(l) => if l.ip == ip then Some(Seen(l.mac, s.now)) else None
      case None => None
  }

  /** What the run taught last about `ip`. */
  ghost function LastTaught(cfg: F.Config, g: Gw, steps: seq<Step>, ip: u32): Option<Seen>
    requires IsRun(cfg, g, steps)
    decreases |steps|
  {
    if steps == [] then None
    else
      var later := LastTaught(cfg, Apply(cfg, g, steps[0]), steps[1..], ip);
      if later.Some? then later else TaughtAt(cfg, g, steps[0], ip)
  }

  lemma StepTeaches(cfg: F.Config, g: Gw, s: Step, ip: u32)
    requires Enabled(cfg, g, s)
    ensures var r, seen := Apply(cfg, g, s).cache, TaughtAt(cfg, g, s, ip);
            && (IsStatic(g.cache, ip) ==> ip in r && r[ip] == g.cache[ip])
            && (!IsStatic(g.cache, ip) ==> !IsStatic(r, ip))
            && (!IsStatic(g.cache, ip) && ip in r ==>
                  if seen.Some? then r[ip] == Entry(seen.value.mac, seen.value.at, false)
                  else ip in g.cache && r[ip] == g.cache[ip])
  {
    if s.HandleNext? {
      HandleTeaches(cfg, g, s.now, s.alloc);
      hide HandleOne, LessonOf, FrameOf;
    }
  }

  /** A static entry is never replaced and never expires. */
  lemma {:induction false} StaticStays(cfg: F.Config, g: Gw, steps: seq<Step>, ip: u32)
    requires IsRun(cfg, g, steps) && IsStatic(g.cache, ip)
    ensures ip in Run(cfg, g, steps).cache && Run(cfg, g, steps).cache[ip] == g.cache[ip]
    decreases |steps|
  {
    if steps != [] {
      hide Apply, Enabled, TaughtAt;
      StepTeaches(cfg, g, steps[0], ip);
      StaticStays(cfg, Apply(cfg, g, steps[0]), steps[1..], ip);
    }
  }

  /** A learned entry is what the last frame said that taught its address. */
  lemma {:induction false} EntryIsLastTaught(cfg: F.Config, g: Gw, steps: seq<Step>, ip: u32)
    requires IsRun(cfg, g, steps) && !IsStatic(g.cache, ip) && ip in Run(cfg, g, steps).cache
    ensures var r, seen := Run(cfg, g, steps).cache, LastTaught(cfg, g, steps, ip);
            && !IsStatic(r, ip)
            && if seen.Some? then r[ip] == Entry(seen.value.mac, seen.value.at, false)
               else ip in g.cache && r[ip] == g.cache[ip]
    decreases |steps|
  {
    if steps != [] {
      hide Apply, Enabled, TaughtAt;
      StepTeaches(cfg, g, steps[0], ip);
      EntryIsLastTaught(cfg, Apply(cfg, g, steps[0]), steps[1..], ip);
    }
  }

  /** The neighbor sweep removes exactly the learned entries last seen 300000 ms before or earlier. */
  lemma NeighborSweep(cfg: F.Config, g: Gw, now: u64, ip: u32)
    requires GwInv(cfg, g) && g.clock <= now && ip in g.cache
    ensures Enabled(cfg, g, ExpireNeighbors(now))
    ensures var r := Apply(cfg, g, ExpireNeighbors(now)).cache;
            && (ip in r <==> g.cache[ip].isStatic || now < g.cache[ip].lastSeen + 300_000)
            && (ip in r ==> r[ip] == g.cache[ip])
  {
    assert g.cache[ip].lastSeen <= g.clock;
    hide SessInv, HeldInv, NamesClient;
  }

  // -------------------------------------------------------- where replies go

  /** The MAC at which `ip` is reached after the run and the frame `f` that follows it. */
  ghost function ReachedAt(cfg: F.Config, g: Gw, steps: seq<Step>, ip: u32, f: Frame): Option<Mac>
    requires IsRun(cfg, g, steps)
  {
    if IsStatic(g.cache, ip) then Some(g.cache[ip].mac)
    else
      match LessonOf(f)
      case Some(l) => if l.ip == ip then Some(l.mac) else LastMac(cfg, g, steps, ip)
      case None => LastMac(cfg, g, steps, ip)
  }

  ghost function LastMac(cfg: F.Config, g: Gw, steps: seq<Step>, ip: u32): Option<Mac>
    requires IsRun(cfg, g, steps)
  {
    match LastTaught(cfg, g, steps, ip)
    case Some(seen) => Some(seen.mac)
    case None => None
  }

  lemma TaughtMac(cfg: F.Config, g: Gw, steps: seq<Step>, ip: u32, f: Frame, now: u64)
    requires IsRun(cfg, g, steps) && ip in Run(cfg, g, steps).cache
    requires IsStatic(g.cache, ip) || LastTaught(cfg, g, steps, ip).Some?
    ensures var c := Taught(Run(cfg, g, steps).cache, LessonOf(f), now);
            ip in c && Some(c[ip].mac) == ReachedAt(cfg, g, steps, ip, f)
  {
    if IsStatic(g.cache, ip) {
      StaticStays(cfg, g, steps, ip);
    } else {
      EntryIsLastTaught(cfg, g, steps, ip);
    }
    hide Run, IsRun, LastTaught, LessonOf;
  }

  /** The first step of a run taught `ip`, so the run did. */
  lemma TaughtFirst(cfg: F.Config, g: Gw, s: Step, steps: seq<Step>, ip: u32)
    requires Enabled(cfg, g, s) && IsRun(cfg, Apply(cfg, g, s), steps) && TaughtAt(cfg, g, s, ip).Some?
    ensures IsRun(cfg, g, [s] + steps) && Run(cfg, g, [s] + steps) == Run(cfg, Apply(cfg, g, s), steps)
    ensures LastTaught(cfg, g, [s] + steps, ip).Some?
  {
    hide Apply, Enabled, TaughtAt;
    var all := [s] + steps;
    assert all[0] == s && all[1..] == steps;
  }

  /** A packet at hand that is sent directly has its frame, as the forwarder made it, in the batch. */
  lemma SentFrame(cfg: F.Config, g: Gw, now: u64, alloc: Option<Mbuf>)
    requires GwInv(cfg, g) && g.io.rx != [] && g.clock <= now && Verdict(cfg, g, now).outcome.result == F.TxReverse
    ensures var end, m := HandleOne(cfg, g, now, alloc).io, g.io.rx[0];
            SentDirectly(cfg, g, now, alloc) && FrameOf(end, m) == Verdict(cfg, g, now).frame
  {
    hide SessInv, HeldInv, NamesClient, Verdict, Flushed;
    TimedLater(g.io, g.clock, now);
    FlushedKeeps(cfg, g.io, Verdict(cfg, g, now), now);
    hide GwInv;
    SentToTx(cfg, g, now, alloc);
    hide SentDirectly;
  }

  /** A reply that goes out carries the cached MAC of the client and the gateway's own. */
  lemma ReplyBytes(cfg: F.Config, c: Cache, sess: Table, ups: Ups, f: Frame, now: u64, h: Handle, client: u32)
    requires SessInv(cfg, sess) && Parse(f, cfg.verify).Parsed? && HeadersFit(f) && !F.ForVip(cfg, f)
    requires h in sess.heap && sess.heap[h].reverseKey == F.KeyOf(f) && sess.heap[h].clientIp == client && client in c
    ensures var o := F.Handle(cfg, c, sess, ups, f, now);
            && o.outcome == F.Outcome(F.TxReverse, 0, 0)
            && 14 <= |o.frame| && o.frame[0..6] == c[client].mac && o.frame[6..12] == cfg.gatewayMac
  {
    ReverseAddressed(cfg, sess, f, h);
    assert 14 <= |f|;
    hide *;
    ReverseHandled(cfg, c, sess, ups, f, now, h);
    EmittedBytes(cfg, c, F.ReverseNat(cfg, f, Touch(sess, h, now).heap[h]), client, F.TxReverse);
  }

  lemma EmittedBytes(cfg: F.Config, c: Cache, f: Frame, nextHop: u32, sent: F.Result)
    requires 14 <= |f|
    ensures var (r, o) := F.Emit(cfg, c, f, nextHop, sent);
            && |r| == |f|
            && o == (if nextHop in c then F.Outcome(sent, 0, 0) else F.Outcome(F.PendingArp, nextHop, 0))
            && (nextHop in c ==> r[0..6] == c[nextHop].mac && r[6..12] == cfg.gatewayMac)
  {
    if nextHop in c {
      SetL2Bytes(f, cfg.gatewayMac, c[nextHop].mac);
      hide SetL2;
      var r := c[nextHop].mac + cfg.gatewayMac + f[12..];
      assert r[0..6] == c[nextHop].mac && r[6..12] == cfg.gatewayMac;
    }
  }

  /**
   A reply for a live session, handled less than 300000 ms after a VIP packet from its client, goes straight to
   the transmit batch; it is addressed to the MAC in the last frame or ARP reply that taught the client's
   address (or the static one), and comes from the gateway's.
   */
  lemma ReplyAddressed(cfg: F.Config, g: Gw, t0: u64, alloc0: Option<Mbuf>, steps: seq<Step>,
                       now: u64, alloc: Option<Mbuf>, h: Handle, client: u32)
    requires GwInv(cfg, g) && Enabled(cfg, g, HandleNext(t0, alloc0)) && VipPacketNext(cfg, g, client)
    requires IsRun(cfg, Apply(cfg, g, HandleNext(t0, alloc0)), steps)
    requires var r := Run(cfg, Apply(cfg, g, HandleNext(t0, alloc0)), steps);
             && Enabled(cfg, r, HandleNext(now, alloc)) && now < t0 + 300_000
             && ReplyNext(cfg, r, h, client)
    ensures var s := HandleNext(t0, alloc0);
            var r := Run(cfg, Apply(cfg, g, s), steps);
            var end, m := HandleOne(cfg, r, now, alloc).io, r.io.rx[0];
            && SentDirectly(cfg, r, now, alloc)
            && 14 <= |FrameOf(end, m)| && FrameOf(end, m)[6..12] == cfg.gatewayMac
            && IsRun(cfg, g, [s] + steps)
            && Some(FrameOf(end, m)[0..6]) == ReachedAt(cfg, g, [s] + steps, client, FrameOf(r.io, m))
  {
    var s := HandleNext(t0, alloc0);
    var g1 := Apply(cfg, g, s);
    StepKeeps(cfg, g, s);
    VipTeaches(cfg, g, s, client);
    VipPacketKnows(cfg, g, t0, alloc0, client);
    RunKeeps(cfg, g1, steps);
    var r := Run(cfg, g1, steps);
    assert r.io.rx != [] && r.clock <= now && g1 == HandleOne(cfg, g, t0, alloc0);
    hide GwInv, Run, IsRun, HandleOne, Apply, Enabled, VipPacketNext, ReplyNext, KnownSince, SentDirectly, TaughtAt;
    RunKnown(cfg, g1, steps, client, t0);
    TaughtFirst(cfg, g, s, steps, client);
    ReplyTaught(cfg, r, now, alloc, h, client, t0);
    KnownIsCached(r.cache, client, t0);
    TaughtMac(cfg, g, [s] + steps, client, FrameOf(r.io, r.io.rx[0]), now);
  }

  lemma KnownIsCached(c: Cache, ip: u32, since: u64)
    requires KnownSince(c, ip, since)
    ensures ip in c
  {
  }

  /** A VIP packet from a unicast client teaches its address. */
  lemma VipTeaches(cfg: F.Config, g: Gw, s: Step, client: u32)
    requires Enabled(cfg, g, s) && s.HandleNext? && g.io.rx != [] && VipPacketNext(cfg, g, client)
    ensures TaughtAt(cfg, g, s, client).Some?
  {
    var f := FrameOf(g.io, g.io.rx[0]);
    ParsedIsIpv4(f, cfg.verify);
    UnicastLesson(f, client);
    hide Parse, Enabled, FrameOf, LessonOf, HeadersFit, F.ForVip;
  }

  lemma UnicastLesson(f: Frame, src: u32)
    requires HeadersFit(f) && EtherType(f) == ETHER_TYPE_IPV4 && IpAt(f, SRC_AT) == src && src != 0 && src % 0x100 < 224
    ensures LessonOf(f) == Some(Lesson(src, f[6..12]))
  {
    assert f[12..14] == [f[12], f[13]];
    assert IpAt(f, 26) == Word(f[26], f[27], f[28], f[29]);
    assert Word(f[26], f[27], f[28], f[29]) % 0x100 == f[26];
  }

  /** A reply to a live session whose client is cached, with the cache as the reply's own lesson leaves it. */
  lemma ReplyTaught(cfg: F.Config, g: Gw, now: u64, alloc: Option<Mbuf>, h: Handle, client: u32, since: u64)
    requires GwInv(cfg, g) && g.io.rx != [] && g.clock <= now && ReplyNext(cfg, g, h, client)
    requires KnownSince(g.cache, client, since)
    ensures var f, m, end := FrameOf(g.io, g.io.rx[0]), g.io.rx[0], HandleOne(cfg, g, now, alloc).io;
            var c := Taught(g.cache, LessonOf(f), now);
            && SentDirectly(cfg, g, now, alloc) && 14 <= |FrameOf(end, m)|
            && client in c && FrameOf(end, m)[0..6] == c[client].mac && FrameOf(end, m)[6..12] == cfg.gatewayMac
  {
    var f := FrameOf(g.io, g.io.rx[0]);
    ReplyVerdictBytes(cfg, g, now, h, client);
    hide *;
    SentFrame(cfg, g, now, alloc);
  }

  lemma ReplyVerdictBytes(cfg: F.Config, g: Gw, now: u64, h: Handle, client: u32)
    requires GwInv(cfg, g) && ReplyNext(cfg, g, h, client) && client in g.cache
    ensures var f, v := FrameOf(g.io, g.io.rx[0]), Verdict(cfg, g, now);
            var c := Taught(g.cache, LessonOf(f), now);
            && v.outcome.result == F.TxReverse && 14 <= |v.frame|
            && client in c && v.frame[0..6] == c[client].mac && v.frame[6..12] == cfg.gatewayMac
  {
    var f := FrameOf(g.io, g.io.rx[0]);
    hide SessInv, HeldInv, NamesClient, Parse, HeadersFit, F.KeyOf, F.ForVip, HandleFrame, LessonOf, FrameOf;
    ParsedIsIpv4(f, cfg.verify);
    Ipv4Learned(g.cache, f, now);
    StillCached(g.cache, LessonOf(f), now, client);
    hide EtherType, PassiveLearn, Taught;
    ReplyBytes(cfg, PassiveLearn(g.cache, f, now), g.sess, g.ups, f, now, h, client);
    Ipv4Outcome(cfg, g, g.io.pending.Keys, f, now);
  }

  lemma StillCached(c: Cache, lesson: Option<Lesson>, now: u64, ip: u32)
    requires ip in c
    ensures ip in Taught(c, lesson, now)
  {
  }

  lemma Ipv4Outcome(cfg: F.Config, g: Gw, waiting: set<u32>, f: Frame, now: u64)
    requires EtherType(f) == ETHER_TYPE_IPV4
    ensures var o := F.Handle(cfg, PassiveLearn(g.cache, f, now), g.sess, g.ups, f, now);
            var v := HandleFrame(cfg, g, waiting, f, now);
            v.outcome.result == o.outcome.result && v.frame == o.frame
  {
    hide F.Handle, PassiveLearn, EtherType, Ipv4Src;
  }
}
