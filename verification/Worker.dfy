/**
 What the worker does with packet buffers: the receive burst, the transmit and drop batches,
 the per-address queues of packets held for ARP, and the probes (src/vgw.cpp).

 A buffer is an `Mbuf` identifier. `frames` holds the bytes of every buffer the worker has,
 `owner` says which list has it, and `log` records each buffer taken on (received, or
 allocated for a probe) and each one given up (sent to the NIC, or freed).
 */
module Worker {
  import opened Base
  import opened Packet
  import opened Neighbors
  import opened Arp
  import F = Forward

  const BURST := 32
  const PENDING_TIMEOUT: u64 := 5_000
  const PENDING_MAX := 64
  const PROBE_INTERVAL: u64 := 1_000

  datatype Place = InRx | InTx | InDrop | Held(ip: u32) | Lost
  datatype Event = Acquire(m: Mbuf) | Send(m: Mbuf) | Free(m: Mbuf)
  datatype HeldPacket = HeldPacket(m: Mbuf, since: u64)
  datatype ProbeRecord = ProbeRecord(ip: u32, at: u64)

  datatype Io = Io(
    frames: map<Mbuf, Frame>,
    owner: map<Mbuf, Place>,
    rx: seq<Mbuf>,
    tx: seq<Mbuf>,
    drop: seq<Mbuf>,
    pending: map<u32, seq<HeldPacket>>,
    probed: map<u32, u64>,
    log: seq<Event>,
    probes: seq<ProbeRecord>)

  const IDLE_IO := Io(map[], map[], [], [], [], map[], map[], [], [])

  function FrameOf(io: Io, m: Mbuf): Frame {
    if m in io.frames then io.frames[m] else []
  }

  /** Gives a buffer up, to the NIC or to the pool. */
  function Release(io: Io, m: Mbuf, sent: bool): Io {
    io.(frames := io.frames - {m}, owner := io.owner - {m},
        log := io.log + [if sent then Send(m) else Free(m)])
  }

  // --------------------------------------------------------- receive and send

  /** `recv_burst`: the buffers are now the worker's, in order. */
  function Receive(io: Io, burst: seq<(Mbuf, Frame)>): Io {
    if burst == [] then io
    else
      var k := |burst| - 1;
      var before := Receive(io, burst[..k]);
      var (m, f) := burst[k];
      before.(frames := before.frames[m := f], owner := before.owner[m := InRx],
              rx := before.rx + [m], log := before.log + [Acquire(m)])
  }

  /**
   End of an iteration: the first `sent` buffers of the transmit batch go to the NIC, the
   rest of it and the drop batch are freed.
   */
  function Drain(io: Io, sent: nat): Io
    decreases |io.tx| + |io.drop|
  {
    if io.tx != [] then
      Drain(Release(io.(tx := io.tx[1..]), io.tx[0], sent > 0), if sent > 0 then sent - 1 else 0)
    else if io.drop != [] then
      Drain(Release(io.(drop := io.drop[1..]), io.drop[0], false), 0)
    else io
  }

  // ------------------------------------------------------------- held packets

  function FreeHeld(io: Io, ip: u32, k: nat): Io
    requires ip in io.pending && k < |io.pending[ip]|
  {
    Release(io.(pending := io.pending[ip := Without(io.pending[ip], k)]), io.pending[ip][k].m, false)
  }

  function SendHeld(io: Io, ip: u32, k: nat, f: Frame): Io
    requires ip in io.pending && k < |io.pending[ip]|
  {
    var m := io.pending[ip][k].m;
    io.(pending := io.pending[ip := Without(io.pending[ip], k)],
        tx := io.tx + [m], owner := io.owner[m := InTx], frames := io.frames[m := f])
  }

  function DropIfEmpty(io: Io, ip: u32): Io {
    if ip in io.pending && io.pending[ip] == [] then io.(pending := io.pending - {ip}) else io
  }

  predicate Expired(e: HeldPacket, now: u64) {
    Age(now, e.since) >= PENDING_TIMEOUT
  }

  /** The flush loop from position `k` of the queue of `ip`. */
  function FlushFrom(cfg: F.Config, c: Cache, io: Io, ip: u32, k: nat, now: u64): Io
    requires ip in io.pending
    decreases |io.pending[ip]| - k
  {
    var q := io.pending[ip];
    if k >= |q| then io
    else if Expired(q[k], now) then FlushFrom(cfg, c, FreeHeld(io, ip, k), ip, k, now)
    else
      match F.FinishL2(cfg, c, FrameOf(io, q[k].m), ip)
      case None => FlushFrom(cfg, c, io, ip, k + 1, now)
      case Some(f) =>
        if |io.tx| >= BURST then
          FlushFrom(cfg, c, io.(frames := io.frames[q[k].m := f]), ip, k + 1, now)
        else FlushFrom(cfg, c, SendHeld(io, ip, k, f), ip, k, now)
  }

  /** `flush_pending`. */
  function Flush(cfg: F.Config, c: Cache, io: Io, ip: u32, now: u64): Io {
    if ip == 0 || ip !in io.pending || io.pending[ip] == [] then io
    else DropIfEmpty(FlushFrom(cfg, c, io, ip, 0, now), ip)
  }

  /** The expiry loop from position `k` of the queue of `ip`. */
  function ExpireFrom(io: Io, ip: u32, k: nat, now: u64): Io
    requires ip in io.pending
    decreases |io.pending[ip]| - k
  {
    var q := io.pending[ip];
    if k >= |q| then io
    else if Expired(q[k], now) then ExpireFrom(FreeHeld(io, ip, k), ip, k, now)
    else ExpireFrom(io, ip, k + 1, now)
  }

  function ExpireQueue(io: Io, ip: u32, now: u64): Io {
    if ip in io.pending then DropIfEmpty(ExpireFrom(io, ip, 0, now), ip) else io
  }

  /** `expire_pending`, visiting the queues in the order `ips`. */
  function ExpirePending(io: Io, ips: seq<u32>, now: u64): Io {
    if ips == [] then io
    else ExpireQueue(ExpirePending(io, ips[..|ips| - 1], now), ips[|ips| - 1], now)
  }

  // ------------------------------------------------- disposing of one packet

  /** `enqueue_pending` of the packet at hand. With address 0 the packet is not taken by anyone. */
  function Enqueue(io: Io, ip: u32, now: u64): Io
    requires io.rx != []
  {
    var m := io.rx[0];
    var io1 := io.(rx := io.rx[1..]);
    if ip == 0 then io1.(owner := io.owner[m := Lost])
    else
      var q := if ip in io.pending then io.pending[ip] else [];
      if |q| >= PENDING_MAX then Release(io1, m, false)
      else io1.(pending := io.pending[ip := q + [HeldPacket(m, now)]], owner := io.owner[m := Held(ip)])
  }

  /** `maybe_probe_arp`; `alloc` is the buffer the pool yields, if any. */
  function Probe(cfg: ArpConfig, io: Io, ip: u32, now: u64, alloc: Option<Mbuf>): Io {
    if ip == 0 then io
    else if ip in io.probed && Age(now, io.probed[ip]) < PROBE_INTERVAL then io
    else if alloc.None? then io
    else
      var p := alloc.value;
      if |io.tx| >= BURST then io.(log := io.log + [Acquire(p), Free(p)])
      else io.(frames := io.frames[p := MakeRequest(cfg, ip)], owner := io.owner[p := InTx],
               tx := io.tx + [p], log := io.log + [Acquire(p)],
               probed := io.probed[ip := now], probes := io.probes + [ProbeRecord(ip, now)])
  }

  function ToDrop(io: Io): Io
    requires io.rx != []
  {
    io.(rx := io.rx[1..], drop := io.drop + [io.rx[0]], owner := io.owner[io.rx[0] := InDrop])
  }

  function ToTx(io: Io): Io
    requires io.rx != []
  {
    io.(rx := io.rx[1..], tx := io.tx + [io.rx[0]], owner := io.owner[io.rx[0] := InTx])
  }
}
