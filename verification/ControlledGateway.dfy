/**
 The gateway together with the shared control block: writer and poll interleave word by word as in
 `ShmProtocol`, and a poll that succeeds puts what it read into the gateway's upstream table. The worker
 does nothing else while it polls. `exact` records whether the last successful poll read no word
 after the next publication had changed it.
 */
module ControlledGateway {
  import opened Base
  import opened Packet
  import opened Sessions
  import opened SessionProofs
  import opened Upstreams
  import opened Neighbors
  import opened CpShm
  import Arp
  import opened Worker
  import opened GatewayProofs
  import G = Gateway
  import S = ShmProtocol
  import F = Forward

  datatype Joined = Joined(shm: S.Shm, g: G.Gw, exact: bool)

  datatype Step = Control(c: S.Step) | Work(w: G.Step)

  predicate Succeeds(shm: S.Shm, c: S.Step)
    requires S.Enabled(shm, c)
  {
    c.Check? && shm.version == shm.reader.ver
  }

  /** Fewer than 2^32 - 1 publications fall within a poll. */
  ghost predicate Enabled(cfg: F.Config, j: Joined, step: Step) {
    match step
    case Control(c) =>
      S.Enabled(j.shm, c) && (Succeeds(j.shm, c) ==> j.shm.done - j.shm.reader.start < S.PERIOD)
    case Work(w) => j.shm.reader.Waiting? && !w.ApplyControl? && G.Enabled(cfg, j.g, w)
  }

  ghost function Apply(cfg: F.Config, j: Joined, step: Step): Joined
    requires Enabled(cfg, j, step)
  {
    match step
    case Control(c) =>
      var shm := S.Apply(j.shm, c);
      if Succeeds(j.shm, c) then
        var p := shm.table.value;
        Joined(shm, G.Apply(cfg, j.g, G.ApplyControl(p.policy, p.endpoints)), S.NoneNewer(j.shm))
      else j.(shm := shm)
    case Work(w) => j.(g := G.Apply(cfg, j.g, w))
  }

  ghost predicate IsRun(cfg: F.Config, j: Joined, steps: seq<Step>)
    decreases |steps|
  {
    steps == [] || (Enabled(cfg, j, steps[0]) && IsRun(cfg, Apply(cfg, j, steps[0]), steps[1..]))
  }

  ghost function Run(cfg: F.Config, j: Joined, steps: seq<Step>): Joined
    requires IsRun(cfg, j, steps)
    decreases |steps|
  {
    if steps == [] then j else Run(cfg, Apply(cfg, j, steps[0]), steps[1..])
  }

  // ------------------------------------------------------------- what is kept

  /** The gateway uses what was applied last, and that is a publication if it was read exactly. */
  ghost predicate TableOk(j: Joined) {
    j.shm.table.Some? ==>
      && j.g.ups.policy == j.shm.table.value.policy && j.g.ups.nodes == j.shm.table.value.endpoints
      && 1 <= j.shm.lastIndex <= |j.shm.pubs|
      && (j.exact ==> j.shm.table.value == Effective(j.shm.pubs[j.shm.lastIndex - 1]))
  }

  ghost predicate JoinedInv(cfg: F.Config, j: Joined) {
    S.Inv(j.shm) && GwInv(cfg, j.g) && TableOk(j)
  }

  lemma ControlKeeps(cfg: F.Config, j: Joined, c: S.Step)
    requires JoinedInv(cfg, j) && Enabled(cfg, j, Control(c))
    ensures JoinedInv(cfg, Apply(cfg, j, Control(c)))
  {
    hide S.Inv, GwInv, S.NoneNewer, Effective, S.Assemble, Encode, G.Initial;
    S.StepKeeps(j.shm, c);
    if Succeeds(j.shm, c) {
      S.PollApplies(j.shm);
      var p := S.Apply(j.shm, c).table.value;
      StepKeeps(cfg, j.g, G.ApplyControl(p.policy, p.endpoints));
    }
  }

  /** No step of the worker's own changes the list or the policy. */
  lemma WorkKeepsUpstreams(cfg: F.Config, g: G.Gw, w: G.Step)
    requires G.Enabled(cfg, g, w) && !w.ApplyControl?
    ensures G.Apply(cfg, g, w).ups.policy == g.ups.policy && G.Apply(cfg, g, w).ups.nodes == g.ups.nodes
  {
    if w.HandleNext? {
      HandleKeepsUpstreams(cfg, g, g.io.pending.Keys, FrameOf(g.io, g.io.rx[0]), w.now);
      hide G.HandleFrame, G.Flushed, G.Dispose;
    }
  }

  lemma HandleKeepsUpstreams(cfg: F.Config, g: G.Gw, waiting: set<u32>, f: Frame, now: u64)
    ensures var ups := G.HandleFrame(cfg, g, waiting, f, now).ups; ups.policy == g.ups.policy && ups.nodes == g.ups.nodes
  {
    hide Parse, HeadersFit, F.Emit, F.ForwardNat, F.ReverseNat, F.KeyOf, F.ForVip, Create, Arp.Handle, G.Ipv4Src, HashKey;
  }

  lemma WorkKeepsJoined(cfg: F.Config, j: Joined, w: G.Step)
    requires JoinedInv(cfg, j) && Enabled(cfg, j, Work(w))
    ensures JoinedInv(cfg, Apply(cfg, j, Work(w)))
  {
    hide S.Inv, GwInv, G.Apply, G.Enabled, Effective;
    StepKeeps(cfg, j.g, w);
    WorkKeepsUpstreams(cfg, j.g, w);
  }

  lemma {:induction false} RunKeepsJoined(cfg: F.Config, j: Joined, steps: seq<Step>)
    requires JoinedInv(cfg, j) && IsRun(cfg, j, steps)
    ensures JoinedInv(cfg, Run(cfg, j, steps))
    decreases |steps|
  {
    hide JoinedInv, Apply, Enabled;
    if steps != [] {
      match steps[0] {
        case Control(c) => ControlKeeps(cfg, j, c);
        case Work(w) => WorkKeepsJoined(cfg, j, w);
      }
      RunKeepsJoined(cfg, Apply(cfg, j, steps[0]), steps[1..]);
    }
  }

  ghost predicate Initial(cfg: F.Config, j: Joined) {
    j.shm == S.FRESH && G.Initial(cfg, j.g)
  }

  // ------------------------------------------------------- where sessions go

  lemma PickIsListed(u: Ups, key: FlowKey)
    ensures Pick(u, key).1.Some? ==> Pick(u, key).1.value in u.nodes
  {
    hide HashKey;
  }

  lemma CreatedFor(t: Table, key: FlowKey, ip: u32, port: u16, now: u64, h: Handle)
    requires h in Create(t, key, ip, port, now).0.heap && h !in t.heap
    ensures var s := Create(t, key, ip, port, now).0.heap[h]; s.upstreamIp == ip && s.upstreamPort == port
  {
    AllocKeepsRest(t);
    hide Alloc;
  }

  lemma SessionListed(sess: Table, ups: Ups, key: FlowKey, now: u64, h: Handle)
    requires h in F.SessionFor(sess, ups, key, now).0.heap && h !in sess.heap
    ensures var s := F.SessionFor(sess, ups, key, now).0.heap[h]; Endpoint(s.upstreamIp, s.upstreamPort) in ups.nodes
  {
    PickIsListed(ups, key);
    hide Create, Pick;
    if LookupForward(sess, key).None? && Pick(ups, key).1.Some? && Pick(ups, key).1.value.ip != 0 {
      CreatedFor(sess, key, Pick(ups, key).1.value.ip, Pick(ups, key).1.value.port, now, h);
    }
  }

  /** A session that a packet opens goes to an endpoint of the list in use. */
  lemma NewSessionListed(cfg: F.Config, g: G.Gw, now: u64, alloc: Option<Mbuf>, h: Handle)
    requires g.io.rx != []
    requires h in G.HandleOne(cfg, g, now, alloc).sess.heap && h !in g.sess.heap
    ensures var s := G.HandleOne(cfg, g, now, alloc).sess.heap[h];
            Endpoint(s.upstreamIp, s.upstreamPort) in g.ups.nodes
  {
    hide G.HandleFrame, G.Flushed, G.Dispose;
    FrameSessionListed(cfg, g, g.io.pending.Keys, FrameOf(g.io, g.io.rx[0]), now, h);
  }

  lemma FrameSessionListed(cfg: F.Config, g: G.Gw, waiting: set<u32>, f: Frame, now: u64, h: Handle)
    requires h in G.HandleFrame(cfg, g, waiting, f, now).sess.heap && h !in g.sess.heap
    ensures var s := G.HandleFrame(cfg, g, waiting, f, now).sess.heap[h]; Endpoint(s.upstreamIp, s.upstreamPort) in g.ups.nodes
  {
    hide Parse, Arp.Handle, G.Ipv4Src, EtherType, G.PassiveLearn, F.Handle;
    ForwardSessionListed(cfg, G.PassiveLearn(g.cache, f, now), g.sess, g.ups, f, now, h);
  }

  lemma ForwardSessionListed(cfg: F.Config, c: Cache, sess: Table, ups: Ups, f: Frame, now: u64, h: Handle)
    requires h !in sess.heap
    ensures var r := F.Handle(cfg, c, sess, ups, f, now).sess;
            h in r.heap ==> Endpoint(r.heap[h].upstreamIp, r.heap[h].upstreamPort) in ups.nodes
  {
    if Parse(f, cfg.verify).Parsed? {
      ParseWeaker(f, cfg.verify);
    }
    hide Parse, F.Emit, F.ForwardNat, F.ReverseNat, F.SessionFor, F.KeyOf, HeadersFit;
    if Parse(f, cfg.verify).Parsed? && F.ForVip(cfg, f) && h in F.SessionFor(sess, ups, F.KeyOf(f), now).0.heap {
      SessionListed(sess, ups, F.KeyOf(f), now, h);
    }
  }

  /**
   In every run of the joined system: once a poll has succeeded, a session that is opened goes to an
   endpoint of publication number `lastIndex`, and the policy is that publication's, unless the poll
   that brought it had read a word after the next publication changed it.
   */
  lemma SessionsFollowPublication(cfg: F.Config, j: Joined, steps: seq<Step>, now: u64, alloc: Option<Mbuf>, h: Handle)
    requires Initial(cfg, j) && IsRun(cfg, j, steps)
    requires var r := Run(cfg, j, steps);
             && Enabled(cfg, r, Work(G.HandleNext(now, alloc))) && r.shm.table.Some? && r.exact
             && h in G.HandleOne(cfg, r.g, now, alloc).sess.heap && h !in r.g.sess.heap
    ensures var r := Run(cfg, j, steps);
            && 1 <= r.shm.lastIndex <= |r.shm.pubs|
            && var p := Effective(r.shm.pubs[r.shm.lastIndex - 1]);
               var s := G.HandleOne(cfg, r.g, now, alloc).sess.heap[h];
               r.g.ups.policy == p.policy && Endpoint(s.upstreamIp, s.upstreamPort) in p.endpoints
  {
    hide Run, IsRun, S.Inv, GwInv, G.HandleOne, G.Initial, Effective, G.Allocatable, G.Verdict, G.Flushed;
    InitialInv(cfg, j.g);
    S.FreshInv();
    RunKeepsJoined(cfg, j, steps);
    NewSessionListed(cfg, Run(cfg, j, steps).g, now, alloc, h);
  }
}
