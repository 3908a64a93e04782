/**
 One turn of the worker loop as a piece of a run (src/vgw.cpp): the housekeeping that is due, the burst,
 each packet of it once, and the batches. What becomes of the packets of a turn is told by its log.
 */
module Turns {
  import opened Base
  import opened Packet
  import opened CpShm
  import opened Gateway
  import F = Forward

  /** What the NIC takes of `n` packets in successive calls, until a call takes none. */
  function TakenByNic(accepts: seq<nat>, n: nat): nat {
    if n == 0 || accepts == [] || accepts[0] == 0 then 0
    else
      var m := Min(accepts[0], n);
      m + TakenByNic(accepts[1..], n - m)
  }

  /** The due housekeeping of a turn, in its order. */
  function House(now: u64, sessionsDue: bool, arpDue: bool, ips: seq<u32>, control: Option<Publication>): seq<Step> {
    (if sessionsDue then [ExpireSessions(now)] else [])
    + (if arpDue then [ExpireNeighbors(now), ExpireHeld(now, ips)] else [])
    + match control case Some(p) => [ApplyControl(p.policy, p.endpoints)] case None => []
  }

  /** One packet after the other. */
  function Handles(now: u64, allocs: seq<Option<Mbuf>>): seq<Step> {
    seq(|allocs|, i requires 0 <= i < |allocs| => HandleNext(now, allocs[i]))
  }

  /** What a turn did beyond its inputs: the buffers the NIC and the pool gave, and how many packets the NIC took. */
  datatype Turn = Turn(ips: seq<u32>, burst: seq<(Mbuf, Frame)>, allocs: seq<Option<Mbuf>>, sent: nat)

  /** The steps of a turn up to the point where the batches go. */
  function UpToFinish(house: seq<Step>, now: u64, t: Turn): seq<Step> {
    house + [Recv(t.burst)] + Handles(now, t.allocs)
  }

  /**
   The run from `g` is a turn: housekeeping, and if frames arrived, these in order in one burst, each handled
   once, then the batches, of which the NIC takes what it accepts until it accepts nothing.
   */
  ghost predicate IsTurn(cfg: F.Config, g: Gw, steps: seq<Step>, house: seq<Step>, now: u64,
                         arrivals: seq<Frame>, pool: seq<bool>, accepts: seq<nat>, t: Turn)
  {
    if arrivals == [] then steps == house
    else
      && |t.burst| == |arrivals| && (forall i :: 0 <= i < |arrivals| ==> t.burst[i].1 == arrivals[i])
      && |t.allocs| == |arrivals| == |pool| && (forall i :: 0 <= i < |pool| ==> (t.allocs[i].Some? <==> pool[i]))
      && steps == UpToFinish(house, now, t) + [Finish(t.sent)]
      && IsRun(cfg, g, UpToFinish(house, now, t))
      && t.sent == TakenByNic(accepts, |Run(cfg, g, UpToFinish(house, now, t)).io.tx|)
  }

  /** Without arrivals, housekeeping is the whole turn. */
  lemma QuietTurn(cfg: F.Config, g: Gw, house: seq<Step>, now: u64, pool: seq<bool>, accepts: seq<nat>, t: Turn)
    ensures IsTurn(cfg, g, house, house, now, [], pool, accepts, t)
  {
  }

  lemma BurstTurn(cfg: F.Config, g: Gw, house: seq<Step>, now: u64, arrivals: seq<Frame>, pool: seq<bool>,
                  accepts: seq<nat>, t: Turn)
    requires arrivals != [] && |t.burst| == |arrivals| == |t.allocs| == |pool|
    requires forall i :: 0 <= i < |arrivals| ==> t.burst[i].1 == arrivals[i]
    requires forall i :: 0 <= i < |pool| ==> (t.allocs[i].Some? <==> pool[i])
    requires var upTo := house + [Recv(t.burst)] + Handles(now, t.allocs);
             IsRun(cfg, g, upTo) && t.sent == TakenByNic(accepts, |Run(cfg, g, upTo).io.tx|)
    ensures IsTurn(cfg, g, house + [Recv(t.burst)] + Handles(now, t.allocs) + [Finish(t.sent)], house, now,
                   arrivals, pool, accepts, t)
  {
    hide IsRun, Run, TakenByNic, Handles;
  }

  lemma HandlesNone(steps: seq<Step>, now: u64)
    ensures steps + Handles(now, []) == steps
  {
  }

  lemma HandlesOne(steps: seq<Step>, now: u64, allocs: seq<Option<Mbuf>>, alloc: Option<Mbuf>)
    ensures steps + Handles(now, allocs) + [HandleNext(now, alloc)] == steps + Handles(now, allocs + [alloc])
  {
    assert Handles(now, allocs) + [HandleNext(now, alloc)] == Handles(now, allocs + [alloc]);
  }
}

/** What a turn does with the packets that arrive. */
module TurnTheorems {
  import opened Base
  import opened Packet
  import opened Worker
  import opened Ownership
  import opened HeldPackets
  import opened WorkerSteps
  import opened Gateway
  import opened GatewayProofs
  import opened RunTheorems
  import opened HoldOrder
  import opened Turns
  import CpShm
  import P = PipelinedGateway
  import F = Forward

  // ----------------------------------------------------------------- the log

  function Sends(ms: seq<Mbuf>): seq<Event> {
    seq(|ms|, i requires 0 <= i < |ms| => Send(ms[i]))
  }

  function Frees(ms: seq<Mbuf>): seq<Event> {
    seq(|ms|, i requires 0 <= i < |ms| => Free(ms[i]))
  }

  function Acquires(burst: seq<(Mbuf, Frame)>): seq<Event> {
    seq(|burst|, i requires 0 <= i < |burst| => Acquire(burst[i].0))
  }

  function Buffers(burst: seq<(Mbuf, Frame)>): seq<Mbuf> {
    seq(|burst|, i requires 0 <= i < |burst| => burst[i].0)
  }

  /** A front part of the batch is sent and the rest is freed, in order. */
  function BatchLog(tx: seq<Mbuf>, sent: nat): seq<Event> {
    var k := Min(sent, |tx|);
    Sends(tx[..k]) + Frees(tx[k..])
  }

  lemma BatchLogFirst(tx: seq<Mbuf>, sent: nat)
    requires tx != []
    ensures BatchLog(tx, sent) ==
              [if sent > 0 then Send(tx[0]) else Free(tx[0])] + BatchLog(tx[1..], if sent > 0 then sent - 1 else 0)
  {
  }

  lemma FreesFirst(ms: seq<Mbuf>)
    requires ms != []
    ensures Frees(ms) == [Free(ms[0])] + Frees(ms[1..])
  {
  }

  /** The end of a turn, exactly: the batch and then the drop batch, all in order. */
  lemma {:induction false} DrainExact(io: Io, sent: nat)
    ensures Drain(io, sent).log == io.log + BatchLog(io.tx, sent) + Frees(io.drop)
    decreases |io.tx| + |io.drop|
  {
    if io.tx != [] {
      var next, left := Release(io.(tx := io.tx[1..]), io.tx[0], sent > 0), if sent > 0 then sent - 1 else 0;
      var e := if sent > 0 then Send(io.tx[0]) else Free(io.tx[0]);
      assert Drain(io, sent) == Drain(next, left);
      assert next.log == io.log + [e] && next.tx == io.tx[1..] && next.drop == io.drop;
      BatchLogFirst(io.tx, sent);
      DrainExact(next, left);
      hide *;
      Regroup(io.log, [e], BatchLog(next.tx, left), Frees(io.drop));
    } else if io.drop != [] {
      var next, e := Release(io.(drop := io.drop[1..]), io.drop[0], false), Free(io.drop[0]);
      assert Drain(io, sent) == Drain(next, 0);
      assert next.log == io.log + [e] && next.tx == io.tx && next.drop == io.drop[1..];
      FreesFirst(io.drop);
      EmptyBatch(sent);
      DrainExact(next, 0);
      hide *;
      Assoc(io.log, [e], Frees(next.drop));
      assert io.log + [] == io.log && next.log + [] == next.log;
    } else {
      EmptyBatch(sent);
    }
  }

  lemma EmptyBatch(sent: nat)
    ensures BatchLog([], sent) == []
  {
  }

  lemma Regroup(a: seq<Event>, b: seq<Event>, c: seq<Event>, d: seq<Event>)
    ensures a + (b + c) + d == (a + b) + c + d
  {
  }

  /** The start of a burst, exactly. */
  lemma {:induction false} ReceiveExact(io: Io, burst: seq<(Mbuf, Frame)>)
    ensures var r := Receive(io, burst); r.log == io.log + Acquires(burst) && r.rx == io.rx + Buffers(burst)
  {
    if burst != [] {
      ReceiveExact(io, burst[..|burst| - 1]);
    }
  }

  lemma {:induction false} ReceivedFrame(io: Io, burst: seq<(Mbuf, Frame)>, i: nat)
    requires FreshBurst(io, burst) && i < |burst|
    ensures FrameOf(Receive(io, burst), burst[i].0) == burst[i].1
  {
    var k := |burst| - 1;
    if i < k {
      ReceivedFrame(io, burst[..k], i);
      hide Receive;
      assert burst[i].0 != burst[k].0;
    }
  }

  /** No step takes anything back from the log. */
  lemma StepLog(cfg: F.Config, g: Gw, s: Step)
    requires GwInv(cfg, g) && Enabled(cfg, g, s)
    ensures g.io.log <= Apply(cfg, g, s).io.log
  {
    match s {
      case Recv(burst) =>
        ReceiveExact(g.io, burst);
        hide GwInv, Receive;
      case Finish(sent) =>
        DrainExact(g.io, sent);
        hide GwInv, Drain;
      case _ =>
        P.WorkQuiet(cfg, g, s);
        hide GwInv, Apply, Enabled;
    }
  }

  lemma {:induction false} RunLog(cfg: F.Config, g: Gw, steps: seq<Step>)
    requires GwInv(cfg, g) && IsRun(cfg, g, steps)
    ensures g.io.log <= Run(cfg, g, steps).io.log
    decreases |steps|
  {
    hide GwInv, Apply, Enabled;
    if steps != [] {
      StepKeeps(cfg, g, steps[0]);
      StepLog(cfg, g, steps[0]);
      RunLog(cfg, Apply(cfg, g, steps[0]), steps[1..]);
    }
  }

  /** A buffer that is held at one time and not at a later one has been given up in between. */
  lemma {:induction false} GivenUpBetween(a: seq<Event>, b: seq<Event>, m: Mbuf)
    requires a <= b && Replay(a).Some? && Replay(b).Some? && m in Replay(a).value && m !in Replay(b).value
    ensures exists j :: |a| <= j < |b| && GivenUp(b[j], m)
    decreases |b|
  {
    assert |a| == |b| ==> a == b;
    if |a| < |b| {
      var k := |b| - 1;
      if !GivenUp(b[k], m) {
        GivenUpBetween(a, b[..k], m);
        var j :| |a| <= j < k && GivenUp(b[..k][j], m);
        assert GivenUp(b[j], m);
      }
    }
  }

  // ----------------------------------------------------------------- the burst

  /** Handling one packet of a burst leaves the bytes of those still to come alone. */
  lemma HandleOneLeavesRest(cfg: F.Config, g: Gw, now: u64, alloc: Option<Mbuf>, i: nat)
    requires GwInv(cfg, g) && Enabled(cfg, g, HandleNext(now, alloc)) && 0 < i < |g.io.rx|
    ensures FrameOf(HandleOne(cfg, g, now, alloc).io, g.io.rx[i]) == FrameOf(g.io, g.io.rx[i])
  {
    var h, m := Verdict(cfg, g, now), g.io.rx[i];
    ListedIsOwned(g.io, InRx, i);
    assert PlaceOwned(g.io, InRx);
    assert m != g.io.rx[0];
    TimedLater(g.io, g.clock, now);
    FlushedRx(cfg, g.io, h, now);
    FlushedLeavesRx(cfg, g.io, h, now, m);
    hide GwInv, Verdict, Flushed, Dispose, HeldInv, FrameOf, Allocatable;
    DisposeOther(cfg, Flushed(cfg, g.io, h, now), h.outcome, now, alloc, m);
  }

  lemma FlushedLeavesRx(cfg: F.Config, io: Io, h: Handled, now: u64, m: Mbuf)
    requires HeldInv(io, now) && io.rx != [] && m in io.owner && io.owner[m] == InRx && m != io.rx[0]
    ensures var r := Flushed(cfg, io, h, now); m in r.owner && FrameOf(r, m) == FrameOf(io, m)
  {
    FirstOwned(io, now);
    RelabelRxHeld(io, io.rx[0], h.frame, now);
    FlushFates(cfg, h.cache, io.(frames := io.frames[io.rx[0] := h.frame]), h.outcome.learnedIp, now);
    hide HeldInv, Flush;
  }

  /** The part of a turn before packet number `i` of its burst. */
  function UpToPacket(house: seq<Step>, now: u64, t: Turn, i: nat): seq<Step>
    requires i <= |t.allocs|
  {
    UpToFinish(house, now, t.(allocs := t.allocs[..i]))
  }

  lemma UpToNext(house: seq<Step>, now: u64, t: Turn, i: nat)
    requires i < |t.allocs|
    ensures UpToPacket(house, now, t, i + 1) == UpToPacket(house, now, t, i) + [HandleNext(now, t.allocs[i])]
  {
    assert t.allocs[..i + 1] == t.allocs[..i] + [t.allocs[i]];
    HandlesOne(house + [Recv(t.burst)], now, t.allocs[..i], t.allocs[i]);
  }

  lemma UpToIsPrefix(house: seq<Step>, now: u64, t: Turn, i: nat)
    requires i <= |t.allocs|
    ensures UpToPacket(house, now, t, i) <= UpToFinish(house, now, t)
  {
    assert Handles(now, t.allocs[..i]) <= Handles(now, t.allocs);
  }

  lemma PrefixRuns(cfg: F.Config, g: Gw, a: seq<Step>, b: seq<Step>)
    requires IsRun(cfg, g, b) && a <= b
    ensures IsRun(cfg, g, a) && IsRun(cfg, Run(cfg, g, a), b[|a|..]) && Run(cfg, g, b) == Run(cfg, Run(cfg, g, a), b[|a|..])
  {
    hide IsRun, Run;
    assert a + b[|a|..] == b;
    RunSplit(cfg, g, a, b[|a|..]);
  }

  lemma LastStep(cfg: F.Config, g: Gw, a: seq<Step>, s: Step)
    requires IsRun(cfg, g, a + [s])
    ensures IsRun(cfg, g, a) && Enabled(cfg, Run(cfg, g, a), s)
    ensures Run(cfg, g, a + [s]) == Apply(cfg, Run(cfg, g, a), s)
  {
    hide Enabled, Apply;
    RunSplit(cfg, g, a, [s]);
    var r := Run(cfg, g, a);
    assert [s][0] == s && [s][1..] == [];
    assert Enabled(cfg, r, s);
    RunOne(cfg, r, s);
  }

  /** Before packet number `i` is handled, it and those behind it are as they arrived. */
  ghost predicate Waiting(io: Io, burst: seq<(Mbuf, Frame)>, i: nat) {
    && i <= |burst| && io.rx == Buffers(burst)[i..]
    && forall j :: i <= j < |burst| ==> FrameOf(io, burst[j].0) == burst[j].1
  }

  lemma ReceivedWaits(cfg: F.Config, g: Gw, burst: seq<(Mbuf, Frame)>)
    requires GwInv(cfg, g) && Enabled(cfg, g, Recv(burst))
    ensures Waiting(Apply(cfg, g, Recv(burst)).io, burst, 0)
  {
    hide GwInv, NamesClient;
    ReceiveExact(g.io, burst);
    forall j | 0 <= j < |burst|
      ensures FrameOf(Receive(g.io, burst), burst[j].0) == burst[j].1
    {
      ReceivedFrame(g.io, burst, j);
    }
  }

  lemma HandledWaits(cfg: F.Config, g: Gw, burst: seq<(Mbuf, Frame)>, i: nat, now: u64, alloc: Option<Mbuf>)
    requires GwInv(cfg, g) && Enabled(cfg, g, HandleNext(now, alloc)) && i < |burst| && Waiting(g.io, burst, i)
    ensures Waiting(Apply(cfg, g, HandleNext(now, alloc)).io, burst, i + 1)
  {
    hide GwInv, Verdict, Flushed, Allocatable, HandleOne, FrameOf;
    var r := HandleOne(cfg, g, now, alloc);
    HandleOneRx(cfg, g, now, alloc);
    assert Buffers(burst)[i..][1..] == Buffers(burst)[i + 1..];
    forall j | i + 1 <= j < |burst|
      ensures FrameOf(r.io, burst[j].0) == burst[j].1
    {
      assert g.io.rx[j - i] == burst[j].0;
      HandleOneLeavesRest(cfg, g, now, alloc, j - i);
    }
  }

  lemma {:induction false} BurstWaits(cfg: F.Config, g: Gw, house: seq<Step>, now: u64, t: Turn, i: nat)
    requires GwInv(cfg, g) && |t.burst| == |t.allocs| && i <= |t.burst| && IsRun(cfg, g, UpToFinish(house, now, t))
    ensures var before := UpToPacket(house, now, t, i);
            IsRun(cfg, g, before) && GwInv(cfg, Run(cfg, g, before)) && Waiting(Run(cfg, g, before).io, t.burst, i)
  {
    hide GwInv, IsRun, Run, Enabled, Apply, Waiting, UpToFinish;
    var before := UpToPacket(house, now, t, i);
    UpToIsPrefix(house, now, t, i);
    PrefixRuns(cfg, g, before, UpToFinish(house, now, t));
    RunKeeps(cfg, g, before);
    if i == 0 {
      UpToStart(house, now, t);
      LastStep(cfg, g, house, Recv(t.burst));
      RunKeeps(cfg, g, house);
      ReceivedWaits(cfg, Run(cfg, g, house), t.burst);
    } else {
      var step := HandleNext(now, t.allocs[i - 1]);
      BurstWaits(cfg, g, house, now, t, i - 1);
      UpToNext(house, now, t, i - 1);
      LastStep(cfg, g, UpToPacket(house, now, t, i - 1), step);
      HandledWaits(cfg, Run(cfg, g, UpToPacket(house, now, t, i - 1)), t.burst, i - 1, now, t.allocs[i - 1]);
    }
  }

  lemma UpToStart(house: seq<Step>, now: u64, t: Turn)
    ensures UpToPacket(house, now, t, 0) == house + [Recv(t.burst)]
  {
    HandlesNone(house + [Recv(t.burst)], now);
  }

  // ------------------------------------------------------------- the theorems

  /** The packets that arrive in a turn are handled one by one, in order, each as it arrived. */
  lemma HandledInOrder(cfg: F.Config, g: Gw, steps: seq<Step>, house: seq<Step>, now: u64,
                       arrivals: seq<Frame>, pool: seq<bool>, accepts: seq<nat>, t: Turn, i: nat)
    requires GwInv(cfg, g) && IsTurn(cfg, g, steps, house, now, arrivals, pool, accepts, t) && i < |arrivals|
    ensures var before := UpToPacket(house, now, t, i);
            && before + [HandleNext(now, t.allocs[i])] == UpToPacket(house, now, t, i + 1) <= steps
            && IsRun(cfg, g, before)
            && var io := Run(cfg, g, before).io; io.rx != [] && FrameOf(io, io.rx[0]) == arrivals[i]
  {
    BurstWaits(cfg, g, house, now, t, i);
    UpToNext(house, now, t, i);
    UpToIsPrefix(house, now, t, i + 1);
    hide GwInv, IsRun, Run, UpToFinish, UpToPacket, FrameOf;
    var io := Run(cfg, g, UpToPacket(house, now, t, i)).io;
    assert io.rx[0] == t.burst[i].0;
  }

  /** At the end of a turn the NIC gets a front part of the batch; what it refused and the dropped packets are freed. */
  lemma BatchesGo(cfg: F.Config, g: Gw, steps: seq<Step>, house: seq<Step>, now: u64,
                  arrivals: seq<Frame>, pool: seq<bool>, accepts: seq<nat>, t: Turn)
    requires GwInv(cfg, g) && IsTurn(cfg, g, steps, house, now, arrivals, pool, accepts, t) && arrivals != []
    requires IsRun(cfg, g, steps)
    ensures var io, r := Run(cfg, g, UpToFinish(house, now, t)).io, Run(cfg, g, steps).io;
            && r.log == io.log + BatchLog(io.tx, TakenByNic(accepts, |io.tx|)) + Frees(io.drop)
            && r.rx == [] && r.tx == [] && r.drop == [] && r.pending == io.pending
  {
    hide GwInv, IsRun, Run, UpToFinish;
    var full := UpToFinish(house, now, t);
    LastStep(cfg, g, full, Finish(t.sent));
    var io := Run(cfg, g, full).io;
    DrainExact(io, t.sent);
    DrainEmpties(io, t.sent);
    hide Drain;
  }

  function Total(ns: seq<nat>): nat {
    if ns == [] then 0 else ns[0] + Total(ns[1..])
  }

  /** The NIC has taken all it offered to take before the first call that took nothing, or the whole batch. */
  lemma {:induction false} TakenExact(accepts: seq<nat>, n: nat, k: nat)
    requires k <= |accepts| && (forall i :: 0 <= i < k ==> accepts[i] > 0) && (k < |accepts| ==> accepts[k] == 0)
    ensures TakenByNic(accepts, n) == Min(Total(accepts[..k]), n)
  {
    if n > 0 && k > 0 {
      var m := Min(accepts[0], n);
      TakenExact(accepts[1..], n - m, k - 1);
      assert accepts[1..][..k - 1] == accepts[..k][1..];
    }
  }

  /** Housekeeping is part of a turn exactly if it is due. */
  lemma HousekeepingIffDue(cfg: F.Config, g: Gw, steps: seq<Step>, now: u64, sessionsDue: bool, arpDue: bool,
                           control: Option<CpShm.Publication>, arrivals: seq<Frame>, pool: seq<bool>,
                           accepts: seq<nat>, t: Turn)
    requires IsTurn(cfg, g, steps, House(now, sessionsDue, arpDue, t.ips, control), now, arrivals, pool, accepts, t)
    ensures forall at :: ExpireSessions(at) in steps <==> sessionsDue && at == now
    ensures forall at :: ExpireNeighbors(at) in steps <==> arpDue && at == now
    ensures forall at, ips :: ExpireHeld(at, ips) in steps <==> arpDue && at == now && ips == t.ips
    ensures forall policy, nodes :: ApplyControl(policy, nodes) in steps
                                    <==> control.Some? && control.value.policy == policy && control.value.endpoints == nodes
  {
    hide IsRun, Run;
    var house := House(now, sessionsDue, arpDue, t.ips, control);
    HouseMembers(now, sessionsDue, arpDue, t.ips, control);
    hide House;
    forall s: Step | !s.Recv? && !s.HandleNext? && !s.Finish?
      ensures s in steps <==> s in house
    {
      if s in steps {
        var i :| 0 <= i < |steps| && steps[i] == s;
        assert i < |house|;
      }
    }
  }

  lemma HouseMembers(now: u64, sessionsDue: bool, arpDue: bool, ips: seq<u32>, control: Option<CpShm.Publication>)
    ensures var house := House(now, sessionsDue, arpDue, ips, control);
            forall s :: s in house <==>
              || (sessionsDue && s == ExpireSessions(now))
              || (arpDue && (s == ExpireNeighbors(now) || s == ExpireHeld(now, ips)))
              || (control.Some? && s == ApplyControl(control.value.policy, control.value.endpoints))
  {
  }

  /** Taken on at some point since `n`; then sent, freed, or held for an address. */
  ghost predicate Accounted(io: Io, n: nat, m: Mbuf) {
    exists k :: n <= k < |io.log| && io.log[k] == Acquire(m)
                && ((exists j :: k < j < |io.log| && (io.log[j] == Send(m) || io.log[j] == Free(m)))
                    || (m in io.owner && io.owner[m].Held?))
  }

  /** Every packet that arrives is taken on, and by the end of the turn it is sent, freed or held. */
  lemma ArrivalsAccounted(cfg: F.Config, g: Gw, steps: seq<Step>, house: seq<Step>, now: u64,
                          arrivals: seq<Frame>, pool: seq<bool>, accepts: seq<nat>, t: Turn, i: nat)
    requires GwInv(cfg, g) && IsTurn(cfg, g, steps, house, now, arrivals, pool, accepts, t) && i < |arrivals|
    requires IsRun(cfg, g, steps)
    ensures Accounted(Run(cfg, g, steps).io, |g.io.log|, t.burst[i].0)
  {
    hide GwInv, IsRun, Run, Enabled, Apply;
    var start := house + [Recv(t.burst)];
    var full := UpToFinish(house, now, t);
    assert start <= steps;
    hide UpToFinish;
    PrefixRuns(cfg, g, start, steps);
    LastStep(cfg, g, house, Recv(t.burst));
    LastStep(cfg, g, full, Finish(t.sent));
    var h, p, r := Run(cfg, g, house), Run(cfg, g, start), Run(cfg, g, steps);
    RunKeeps(cfg, g, house);
    RunKeeps(cfg, g, start);
    RunKeeps(cfg, g, full);
    RunKeeps(cfg, g, steps);
    RunLog(cfg, g, house);
    RunLog(cfg, p, steps[|start|..]);
    TakenOn(cfg, h, t.burst, i);
    EndsIdle(cfg, Run(cfg, g, full), t.sent);
    hide IsTurn;
    Settles(cfg, p, r, |g.io.log|, |h.io.log| + i, t.burst[i].0);
  }

  lemma TakenOn(cfg: F.Config, g: Gw, burst: seq<(Mbuf, Frame)>, i: nat)
    requires GwInv(cfg, g) && Enabled(cfg, g, Recv(burst)) && i < |burst|
    ensures var r, k := Apply(cfg, g, Recv(burst)).io, |g.io.log| + i;
            k < |r.log| && r.log[k] == Acquire(burst[i].0) && burst[i].0 in r.owner
  {
    ReceivedOwned(cfg, g, burst, i);
    hide GwInv, NamesClient;
    ReceiveExact(g.io, burst);
  }

  lemma ReceivedOwned(cfg: F.Config, g: Gw, burst: seq<(Mbuf, Frame)>, i: nat)
    requires GwInv(cfg, g) && Enabled(cfg, g, Recv(burst)) && i < |burst|
    ensures burst[i].0 in Receive(g.io, burst).owner
  {
    ReceiveOwned(g.io, burst);
    ReceiveExact(g.io, burst);
    hide NamesClient, Receive;
    var r := Receive(g.io, burst);
    assert PlaceOwned(r, InRx);
    assert r.rx[|g.io.rx| + i] == burst[i].0;
  }

  lemma EndsIdle(cfg: F.Config, g: Gw, sent: nat)
    requires Enabled(cfg, g, Finish(sent))
    ensures var r := Apply(cfg, g, Finish(sent)).io; r.rx == [] && r.tx == [] && r.drop == []
  {
    DrainEmpties(g.io, sent);
  }

  /** When the batches are empty, whoever was taken on has been given up or is held. */
  lemma Settles(cfg: F.Config, p: Gw, r: Gw, n: nat, k: nat, m: Mbuf)
    requires GwInv(cfg, p) && GwInv(cfg, r) && p.io.log <= r.io.log && r.io.rx == [] && r.io.tx == [] && r.io.drop == []
    requires m in p.io.owner && n <= k < |p.io.log| && p.io.log[k] == Acquire(m)
    ensures Accounted(r.io, n, m)
  {
    assert r.io.log[k] == Acquire(m);
    if m in r.io.owner {
      IdleHolds(cfg, r, m);
    } else {
      P.LedgerOf(cfg, p);
      P.LedgerOf(cfg, r);
      hide GwInv, Replay;
      GivenUpBetween(p.io.log, r.io.log, m);
    }
  }

  lemma IdleHolds(cfg: F.Config, g: Gw, m: Mbuf)
    requires GwInv(cfg, g) && g.io.rx == [] && g.io.tx == [] && g.io.drop == [] && m in g.io.owner
    ensures g.io.owner[m].Held?
  {
    assert PlaceOwned(g.io, g.io.owner[m]);
  }
}
