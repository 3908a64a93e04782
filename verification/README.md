# VioletGW: a verified model

VioletGW is a user-space UDP/IPv4 NAT load balancer. A client packet sent to the virtual address
(VIP) is rewritten to `gateway:snat -> upstream`, and the reply is rewritten back to
`vip -> client`. The project models the parts where state and packets have to stay in step, and proves
what they keep over every run:

- `Session.dfy`, `SessionProofs.dfy`: the session table with its SNAT port allocator.
- `Packet.dfy`, `PacketProofs.dfy`: frames, parsing, the Internet checksum, the header rewrite.
- `Neighbor.dfy`, `Arp.dfy`, `Upstream.dfy`, `Forward.dfy`: neighbor cache, ARP exchange, upstream
  picker and the forwarder on top of the session table.
- `Hash.dfy`: the hash behind the default balancing policy, and its inverse.
- `WireFormat.dfy`: accepted frames, tuples, checksums and ARP answers, byte by byte.
- `Worker.dfy`, `Ownership.dfy`, `HeldPackets.dfy`, `WorkerSteps.dfy`: packet buffers in the worker,
  the queues of packets held for ARP, and the probes.
- `Gateway.dfy`, `GatewayProofs.dfy`: the gateway as one state machine, with the invariant of all runs.
- `NatTheorems.dfy`, `RunTheorems.dfy`: the results about whole runs.
- `Lifetime.dfy`: how long sessions live, told by their packets.
- `Teaching.dfy`, `Probing.dfy`: what the gateway learns from which frame, where replies go, what a probe asks
  and what its answer sets off, told by bytes.
- `Verdicts.dfy`: exactly which packets are served, where a flow starts, and what becomes of each verdict.
- `Turns.dfy`: one turn of the worker loop as a piece of a run, and what it does with the packets that arrive.
- `VioletGw.dfy`: the gateway object; one turn of its loop is proved to be such a turn of the machine.
- `CpShm.dfy`, `ShmProtocol.dfy`: the shared control block, its C++ and Go writers, and writer and
  reader interleaved word by word.
- `Pipeline.dfy`: three threads joined by two bounded rings, and the burst loops on a ring object.
- `PipelinedGateway.dfy`: the gateway's worker running between those threads, from NIC to NIC.
- `ControlledGateway.dfy`: the gateway joined to the shared block, polls and publications interleaved.
- `PassiveLearning.dfy`: when a passively learned address flushes its queue.
- `HoldOrder.dfy`: packets held for one address leave in the order in which they came.
- `Limits.dfy`, `FailingRuns.dfy`: inputs at which the program stops short of what one might expect of it, and
  runs from the start that lead there.

Where the program changes objects in place there is a class whose methods are proved against a
function on values (`SessionTables.SessionTable.Expire` against `Sessions.Expire`, and so on); the
lemmas then speak about those functions. Numbers have the widths of the source (`u16`, `u32`, `u64`),
ages are unsigned 64-bit differences, and packet buffers are identifiers with their bytes in a map.

## Premises

These are what the code relies on; each is a visible precondition or part of a step's guard.

- The clock never goes backwards (the guards `clock <= now` of the gateway's steps).
- The SNAT range is usable: `1 <= begin < end` after the 16-bit fix-up of the constructor, which
  holds exactly when `1 <= begin < 65535`.
- `create` is called on a forward-lookup miss only. It does not check; `SessionProofs.CreateKeepsInv`
  says exactly what happens otherwise, and the forwarder is proved to comply.
- The VIP endpoint is not a `gateway:snat` endpoint, since the VIP test comes first.
  `NatTheorems.ReplySentIff` shows that this is exactly the condition under which a reply is delivered.
- VIP packets have a non-zero source address. `enqueue_pending` does not take a packet when the
  address to wait for is 0, and nobody frees it; `Ownership.EnqueueOwned` shows that this is the
  only case in which a packet is lost, and `Limits.AnonymousSession` with `Limits.ReplyToZeroLost` how it
  comes about (`FailingRuns.LeakFromStart` composes them).
- Buffers delivered by the NIC or the pool are not held when they are delivered. A buffer freed a moment
  ago may come back, even as the probe for the very packet that was freed
  (`GatewayProofs.FreedBufferReused`). In pipeline mode the premise is on the NIC and the pool alone:
  that the worker's bursts are fresh is proved (`PipelinedGateway.PoppedIsFresh`).
- The length test for the UDP payload is done on 16 bits; `PacketProofs.PayloadInBounds` says when
  the payload is inside the frame, and `Limits.PayloadPastEnd` gives an accepted frame where it is not.
- The transmit batch is modelled as a growable sequence, because the direct append has no capacity
  test (the program's array has 32 slots). `RunTheorems.TxOverflow` says exactly when it would pass 32,
  `Limits.ThirtyThree` gives two packets that take it there, and
  `FailingRuns.ThirtyThreeFromStart` a run from the start.
- The IPv4 total length, on which the UDP checksum is computed, is not checked by the parser.
  `PacketProofs.FinishedDatagramSums` says exactly when the sum still comes out, in terms of the frame before
  its checksum is written, and `Limits.DatagramDoesNotSum` gives a frame for which it does not.
- Publications number fewer than 2^32 - 1 between two looks at the version word, and memory is
  sequentially consistent.

Two remarks on the code. `handle` reads the IPv4 source again after the forwarder may have rewritten it, so a
passively learned address does not always flush its queue: `PassiveLearning.LearnedIsFlushed` gives the exact
condition, `PassiveLearning.RepliesLeftWaiting` a failing step and `FailingRuns.LeftWaitingFromStart` a run that
reaches one. The control-plane design note
(docs/superpowers/specs/2026-07-24-shm-control-plane-design.md:48) accepts brief torn reads that the next
poll corrects: `ShmProtocol.TornRead` and `ShmProtocol.Converges` prove both halves.

## Model

| member | source | states |
|---|---|---|
| SessionTables.SessionTable.constructor | src/session.cpp:8-21 | the new table is the empty one, and is a valid table exactly for `1 <= begin < 65535` |
| SessionTables.SessionTable.AllocSnatPort | src/session.cpp:39-60 | stack, bitmap and cursor loop compute the allocator function on the table's value |
| SessionTables.SessionTable.FreeSnatPort | src/session.cpp:62-70 | a port in use goes back on the stack; port 0 and free ports change nothing |
| SessionTables.SessionTable.Create | src/session.cpp:72-102 | list, both maps, heap and allocator change together, or nothing but the cursor does |
| SessionTables.SessionTable.Touch | src/session.cpp:33-37 | the activity stamp of that session becomes `now` and nothing else changes; `Lifetime.TrafficKeepsSession` says what this is for |
| SessionTables.SessionTable.RemoveFromList | src/session.cpp:111-114 | the find-and-erase loop removes the first occurrence only |
| SessionTables.SessionTable.EraseSession | src/session.cpp:104-116 | both map entries, the list entry and the session go, and the port is returned |
| SessionTables.SessionTable.Expire | src/session.cpp:118-131 | the erase-in-place loop removes the idle sessions front to back, returns how many, and keeps the invariant |
| SessionProofs.AllocCases | src/session.cpp:39-60 | free stack last in first out, else the first probe of the cursor succeeds, else every port is in use, no port is given and the cursor is back where it began |
| SessionProofs.LiveCount | src/session.cpp:72-116 | as many ports are in use as sessions are live |
| SessionProofs.CreateFailsWhenFull | src/session.cpp:76-79 | `create` fails if and only if the live sessions number `end - begin`, and then changes nothing |
| SessionProofs.CreateKeepsInv | src/session.cpp:72-102 | the table stays consistent if and only if the flow has no live session or the pool is exhausted |
| SessionProofs.TouchKeepsInv | src/session.cpp:33-37 | touching keeps list, maps and ports in step |
| Sessions.EraseAllEffect | src/session.cpp:104-116 | erasing distinct sessions removes exactly those and stacks each port once, in order |
| Sessions.ExpireExact | src/session.cpp:118-131 | exactly the sessions idle for less than the timeout remain, unchanged and in order; each removed port is stacked once |
| NatTheorems.ReachableSessions | src/session.cpp:39-131 | in every reachable state in-use, free and never-issued ports split the range, never-issued ones are those from the cursor up, the list has each live session once and nothing else, a port is in use exactly if a live session has it, no two have the same, and both maps lead to exactly the live sessions |
| NatTheorems.RunContinues | src/session.cpp:72-131 | no run changes what a live session translates, and handles are not reused |
| Lifetime.HandleStamps | src/session.cpp:33-37 | the forwarder stamps exactly the session the packet belongs to, an opened one included, and removes none |
| Lifetime.TrafficKeepsSession | src/session.cpp:118-131 | a session of which a packet, in either direction or the opening one, was handled at `t0` is live with the same translation in every state reached before `t0` plus the idle timeout |
| Lifetime.StampIsLastPacket | src/session.cpp:33-37 | over every run a live session's stamp is the time of its last packet |
| Lifetime.LastPacketFound | src/session.cpp:33-37 | that time is the time of one of the session's packets in the run |
| Lifetime.NoneLater | src/session.cpp:33-37 | and no packet of the session in the run is later |
| Lifetime.StepRemoves | src/session.cpp:118-131 | a step removes a session if and only if it is a sweep and the session has been idle for the timeout |
| Lifetime.SweepRemovesIdle | src/session.cpp:118-131 | over every run from the start a sweep at `now` removes a session if and only if every packet that opened it or belonged to it was handled at least the idle timeout before |
| GatewayProofs.ForwardLookup | src/session.cpp:23-26 | on a valid table a forward lookup finds exactly the live session with that key |
| GatewayProofs.ReverseLookup | src/session.cpp:28-31 | on a valid table a reverse lookup finds exactly the live session with that key |
| PacketProofs.CarryCongruent | src/packet.cpp:175-186 | end-around carry preserves the sum modulo 65535, and gives zero only for zero (RFC 1071) |
| PacketProofs.ComplementSumsToOnes | src/packet.cpp:175-186 | adding the complement of a sum to that sum gives all ones |
| PacketProofs.WordSumPut | src/packet.cpp:175-186 | writing one aligned word changes the word sum by exactly the difference |
| PacketProofs.RewriteEffect | src/forward.cpp:101-122 | addresses and ports are the given ones, and no byte outside addresses, ports and the two checksums changes |
| PacketProofs.FinishedVerifies | src/forward.cpp:92-99 | both checksums verify in both modes, and the UDP field is zero exactly when recomputation is off |
| PacketProofs.RewriteParses | src/packet.cpp:108-173 | a rewritten frame parses again, verification on or off, with the same layout |
| PacketProofs.FinishedHeaderSums | src/packet.cpp:175-178 | the finished IPv4 header sums to all ones (section 3.1 of RFC 791) |
| PacketProofs.FinishedDatagramSums | src/packet.cpp:180-186 | with recomputation on, pseudo header and datagram sum to all ones (RFC 768, the 0/0xffff case included) if and only if the IPv4 total length takes in the checksum field or the part it leaves out does not matter; both are decided by the length and the sum before the checksum is written |
| PacketProofs.PayloadInBounds | src/packet.cpp:16-18 | the payload of an accepted frame lies inside it if and only if headers and UDP length fit 16 bits |
| PacketProofs.SetL2Effect | src/forward.cpp:82-90 | only the two MACs change and the frame still parses the same |
| WireFormat.ParseExact | src/packet.cpp:108-173 | without verification a frame is parsed if and only if its bytes are those of an unfragmented IPv4/UDP frame with a sane length, and header and payload lengths are the ones in it |
| WireFormat.KeyExact | src/forward.cpp:72-80 | the tuple of an accepted frame, by the bytes it is taken from |
| WireFormat.UdpSumExact | src/packet.cpp:180-186 | the UDP checksum runs over the 12-byte pseudo header of RFC 768 and the datagram |
| WireFormat.VerifyExact | src/packet.cpp:154-166 | with verification an accepted frame passes if and only if its header sums to all ones, with a checksum field that is not all ones, and its UDP field is zero or completes the sum |
| WireFormat.OpenSumExact | src/packet.cpp:20-36 | for a whole UDP header, completing the sum means that pseudo header and datagram as they stand sum to all ones |
| NatTheorems.OutputVerifies | src/forward.cpp:165-345 | every frame sent or held parses with verification on, its header sums to all ones, with recomputation its datagram does under the exact condition above, and only MACs, addresses, ports and checksums differ from the input |
| NatTheorems.ForwardTranslates | src/forward.cpp:165-254 | a packet of a live flow leaves with its session's outside tuple, toward its upstream, at once if that upstream's MAC is known and else to wait for it |
| NatTheorems.ReverseTranslates | src/forward.cpp:256-301 | a reply leaves as the exact swap of the client's tuple, at once if the client's MAC is known and else to wait for it |
| NatTheorems.RoundTrip | src/forward.cpp:165-345 | while a session lives, through any run of packets, expiries and publications, its packets keep their outside tuple and the swapped reply comes back as the swap of the client's own tuple |
| NatTheorems.ReplySentIff | src/forward.cpp:331-336 | with the client's neighbor known, a reply is sent to it if and only if the outside endpoint is not the VIP |
| NatTheorems.ReverseReachesOnlyItsClient | src/forward.cpp:256-301 | whatever a reverse packet becomes is addressed to the client of the one session with that key |
| Verdicts.ServedIff | src/forward.cpp:165-345 | a frame is sent or held if and only if it is a valid datagram to the VIP whose flow is live or can be opened (an upstream with an address, a port left) or a valid datagram that answers a live session; otherwise it is dropped as it came and no session changes |
| Verdicts.OpensToPick | src/forward.cpp:185-254 | the first packet of a flow opens one session, with a port of the range that was not in use, toward the picked endpoint, and leaves with that tuple and the MACs of that hop |
| Verdicts.NotDroppedIff | src/vgw.cpp:175-212 | of all frames only ARP requests for the gateway or the VIP and served datagrams are not dropped |
| Verdicts.VerdictCarriedOut | src/vgw.cpp:413-426 | the packet at hand is last in the drop batch, last in the queue of its next hop with the time (freed if 64 wait there), or last in the transmit batch, with the bytes of its verdict; no queue but that of a learned address changes beside that |
| Forwarders.Forwarder.SessionFor | src/forward.cpp:185-227 | lookup, touch, pick and create on the shared tables, as one function of their old values |
| Forwarders.Forwarder.HandleForward | src/forward.cpp:165-254 | tables, frame and outcome are those of the function on values |
| Forwarders.Forwarder.HandleReverse | src/forward.cpp:256-301 | tables, frame and outcome are those of the function on values |
| Forwarders.Forwarder.Handle | src/forward.cpp:303-345 | parse, VIP test and gateway test in that order, each with its effect on the tables |
| Forwarders.Forwarder.FinishL2 | src/forward.cpp:133-145 | fails if the frame does not parse or the hop is unknown, else only the MACs are set |
| NeighborTables.NeighborTable.Learn | src/neighbor.cpp:30-43 | static entries win; otherwise the entry is replaced (over runs: `Teaching.StaticStays`, `Teaching.EntryIsLastTaught`) |
| NeighborTables.NeighborTable.Expire | src/neighbor.cpp:45-57 | whatever the visiting order, exactly the stale learned entries go |
| Teaching.FrameTeaches | src/packet.cpp:79-106 | a handled frame changes the cache by its lesson and nothing else: an IPv4 frame maps a learnable source to its Ethernet source, an ARP reply its sender address to its sender MAC, in bytes |
| Teaching.SenderLearned | src/packet.cpp:79-106 | at the step, an IPv4 frame from a learnable source maps it to bytes 6 to 11, stamped `now`, unless there is a static entry, when the cache is unchanged |
| Teaching.StaticStays | src/neighbor.cpp:33-36 | over every run a static entry is neither replaced nor expired |
| Teaching.EntryIsLastTaught | src/neighbor.cpp:30-43 | over every run an entry that is not static is what the last frame said that taught its address, with the time of that frame |
| Teaching.NeighborSweep | src/neighbor.cpp:45-57 | the sweep removes an entry if and only if it is learned and was last seen 300000 ms ago or earlier |
| Teaching.ReplyAddressed | src/forward.cpp:256-301 | a reply within 300000 ms of its client's VIP packet is sent at once, addressed to the MAC in the last frame or ARP reply that taught the client's address, from the gateway's MAC |
| Arp.RequestFields | src/arp.cpp:128-162 | the probe is a well-formed request for the target from the gateway's address and MAC |
| Arp.ReplyFields | src/arp.cpp:58-75 | the reply answers for the asked address and is addressed to the asker |
| WireFormat.AnsweredIff | src/arp.cpp:54-89 | a frame is answered if and only if it is an ARP request for the gateway's address or the VIP, and the answer is these 42 bytes |
| Probing.RequestBytes | src/arp.cpp:128-162 | the probe, byte by byte: broadcast from the gateway's MAC, sender address and MAC the gateway's, target the address asked for |
| Probing.ProbeAsks | src/vgw.cpp:233-260 | at the step that makes a packet wait for an address a probe goes out if and only if the pool yields a buffer, the last probe for it is at least 1000 ms old and the batch has room; it is then last in the batch and asks for that address |
| Probing.ProbeAnswered | src/arp.cpp:58-89 | the owner of the address answers that very frame with its own MAC |
| Probing.AnswerFlushes | src/vgw.cpp:262-314 | the answer teaches the address and flushes its queue: expired packets freed, the others sent as far as there is room, in order |
| Probing.ProbeResolves | src/arp.cpp:58-126 | the two together, from the probe's bytes to the flushed queue |
| Arp.Resolution | src/arp.cpp:58-126 | a request handled by its proxy yields a reply from which the asker learns exactly that address with the proxy's MAC |
| ArpHandlers.ArpHandler.AllZero | src/arp.cpp:25-32 | the byte loop decides whether the MAC is all zero |
| ArpHandlers.ArpHandler.Handle | src/arp.cpp:108-126 | replies go out for proxied addresses only, and replies with zero address or MAC teach nothing |
| Upstreams.OneRound | src/upstream.cpp:34-37 | any n consecutive counter values hit every position of n exactly once |
| Upstreams.FairHits | src/upstream.cpp:34-37 | k consecutive counter values hit each position floor(k/n) or ceil(k/n) times |
| Upstreams.RrPicks | src/upstream.cpp:18-46 | the j-th pick in a row takes position (counter + j) mod n, and the counter ends k further |
| Upstreams.RrFair | src/upstream.cpp:18-46 | over any k picks from a list of n, repeated endpoints or not, each position is picked floor(k/n) or ceil(k/n) times |
| Upstreams.ModDependsOnSource | src/upstream.cpp:38-41 | under the default policy the pick is the hash of source address and port modulo the list's length, whatever the rest of the tuple, and leaves the counter alone |
| Hashing.UnhashHash | src/upstream.cpp:54-61 | the hash of an address and a port is undone by the inverse written on its own |
| Hashing.HashUnhash | src/upstream.cpp:54-61 | and every word is the hash of what the inverse gives |
| Hashing.HashInjective | src/upstream.cpp:54-61 | for one source port different addresses hash differently |
| Upstreams.ModBalanced | src/upstream.cpp:38-41 | for any source port, of all 2^32 addresses each of n positions gets floor or ceil of 2^32/n |
| UpstreamTables.UpstreamTable.Pick | src/upstream.cpp:18-46 | the pick is the one of the function on values, described by `Upstreams.RrPicks` and `Upstreams.ModDependsOnSource`; only the round-robin policy moves the counter, and an empty list gives nothing |
| Ownership.EnqueueOwned | src/vgw.cpp:214-231 | holding a packet keeps every buffer accounted for if and only if the wait address is not 0 |
| Ownership.FreedIsGone | src/vgw.cpp:281-286 | over an operation that only frees, a buffer is gone exactly if its free is logged |
| Ownership.FlushOwned | src/vgw.cpp:262-314 | a flush loses, duplicates or double-frees nothing |
| Ownership.DrainOwned | src/vgw.cpp:428-445 | sending a prefix of the batch and freeing the rest and the drop batch keeps every buffer accounted for |
| Ownership.DrainEmpties | src/vgw.cpp:428-445 | after that both batches are empty and the burst and the queues untouched |
| Ownership.ProbeOwned | src/vgw.cpp:233-260 | a probe is in the transmit batch or freed on the spot |
| HeldPackets.FlushSplits | src/vgw.cpp:262-314 | the queue is cut in order into the expired prefix (freed), as many as there is room for (sent), and the rest (kept); nothing is sent if the neighbor is unknown |
| HeldPackets.FlushFates | src/vgw.cpp:281-297 | a flushed packet is freed, kept with its bytes beyond the MACs, or sent with the neighbor's MAC; everything outside its queue stays |
| HeldPackets.FlushHeld | src/vgw.cpp:262-314 | a flush keeps ownership, queue order and size, and that every held frame parses and is going to its queue's address |
| HeldPackets.FlushKeepsUnlessFreed | src/vgw.cpp:262-314 | a flush only frees, and the worker still has a buffer after it exactly if it was not freed |
| WorkerSteps.ExpirePendingExact | src/vgw.cpp:316-340 | whatever the visiting order, every queue keeps exactly its unexpired packets, and empty queues go |
| WorkerSteps.ExpireHeldKept | src/vgw.cpp:316-340 | expiry keeps everything that is kept about held packets |
| WorkerSteps.ExpiryLeavesYoung | src/vgw.cpp:316-340 | after the sweep no packet still held has reached the 5000 ms timeout |
| WorkerSteps.EnqueueHeld | src/vgw.cpp:214-231 | a frame going to the wait address may join its queue: order, cap and ownership are kept |
| WorkerSteps.ProbeSpaced | src/vgw.cpp:233-260 | a probe keeps all probes to one address at least 1000 ms apart |
| WorkerSteps.ProbeRate | src/vgw.cpp:241-245 | spaced probes number at most T/1000 + 1 per address in any window of T ms |
| GatewayProofs.StepKeeps | src/vgw.cpp:387-446 | every step keeps the invariant of the whole gateway and continues its sessions |
| GatewayProofs.RunKeeps | src/vgw.cpp:387-446 | so does every run |
| GatewayProofs.InitialInv | src/vgw.cpp:72-136 | the freshly initialised gateway satisfies the invariant |
| GatewayProofs.FreedBufferReused | src/vgw.cpp:219-246 | when the queue is full, the probe may be given the very buffer that was just freed |
| GatewayProofs.HandleOneNoneOverdue | src/vgw.cpp:413-426 | handling a packet makes no held packet older: it takes packets out and adds at most the one at hand |
| RunTheorems.PacketOwnership | src/vgw.cpp:411-445 | at every point of every run each buffer is in exactly one list once, none is sent or freed unless held, and between iterations only queues hold buffers |
| RunTheorems.ReachableQueues | src/vgw.cpp:214-340 | in every reachable state each queue is non-empty, time-ordered and at most 64 long |
| RunTheorems.ReachableProbes | src/vgw.cpp:233-260 | over every run probes to one address are 1000 ms apart and bounded in rate |
| RunTheorems.StepFate | src/vgw.cpp:262-340 | over any step a held packet is freed (its buffer gone, or taken on again as a probe), keeps its bytes beyond the MACs, or is sent with its neighbor's MAC |
| RunTheorems.DirectFrame | src/forward.cpp:235-241 | the frame that is held, with the MACs set, is the frame that would have been sent had the neighbor been known |
| RunTheorems.HoldingRefinesSending | src/forward.cpp:133-145 | a packet held through any run and then sent, not freed, leaves byte for byte as the forwarder would have sent it on arrival with that MAC |
| HoldOrder.HeldFirstSentFirst | src/vgw.cpp:262-340 | over every run, of two packets held for one address, if the later one is sent then the earlier one was sent or freed before that |
| RunTheorems.ReplySentAtOnce | src/vgw.cpp:195-208 | a reply within 300000 ms of its client's last VIP packet goes straight to the transmit batch, whatever came in between |
| RunTheorems.TxOverflow | src/vgw.cpp:413-426 | one packet takes the batch past 32 if and only if it is sent directly while the batch is full, or sets off a flush with enough unexpired packets waiting to fill it |
| RunTheorems.TxExact | src/vgw.cpp:413-426 | the batch grows by exactly the unexpired packets that the flush has room for, and by one more for a direct packet; a probe is added only below 32 |
| RunTheorems.BurstBound | src/vgw.cpp:411-426 | after i packets of a burst the batch holds at most 32 + i, and at most i if no flush moved a held packet |
| VioletGws.FirstUpstreams | src/vgw.cpp:92-95 | the first list is the block's if there is one to apply, else the seed |
| VioletGws.VioletGw.constructor | src/vgw.cpp:72-136 | the object starts in an initial state of the machine: idle timeout 60000 ms, ports 10000 to 59999, one static neighbor, all timers at `now`, and the upstream list of the block or the seed |
| VioletGws.VioletGw.FlushEntry | src/vgw.cpp:281-297 | one queue entry: expired, not finishable, no room, or sent |
| VioletGws.VioletGw.FlushPending | src/vgw.cpp:262-314 | the loop with its list of remaining entries is the flush of the machine |
| VioletGws.VioletGw.ExpireOne | src/vgw.cpp:321-338 | erasing in place is the expiry of one queue |
| VioletGws.VioletGw.ExpirePending | src/vgw.cpp:316-340 | every queue is visited once |
| VioletGws.VioletGw.EnqueuePending | src/vgw.cpp:214-231 | the packet joins the queue, is freed if the queue is full, or is left alone for address 0 |
| VioletGws.VioletGw.MaybeProbeArp | src/vgw.cpp:233-260 | rate limit, failed allocation, full batch and sent probe, with the probe time recorded only when sent; what it sends is said by `Probing.ProbeAsks` |
| VioletGws.VioletGw.DisposeOf | src/vgw.cpp:418-425 | drop, hold and probe, or send, the probe's buffer being chosen after the packet was held or freed, if and only if the pool has one |
| VioletGws.VioletGw.Handle | src/vgw.cpp:175-212 | ARP, IPv4 and other frames, passive learning first and the source read again after the rewrite; what is learned is said by `Teaching.FrameTeaches`, what is sent by `Verdicts.NotDroppedIff` |
| PassiveLearning.SourceAfter | src/vgw.cpp:204-207 | the source read after the forwarder is the gateway's for a translated VIP packet, the VIP's for a translated reply, and else the one that came |
| PassiveLearning.LearnedIsFlushed | src/vgw.cpp:195-208 | for a learnable source with packets waiting: that source is the address flushed if and only if the forwarder writes no source, or the same one |
| PassiveLearning.PassiveFlush | src/vgw.cpp:195-208 | at the step: under that condition the queue is cut as a flush cuts it, otherwise it is left whole, expired packets included |
| PassiveLearning.RepliesLeftWaiting | src/vgw.cpp:195-208 | a VIP packet of a live session teaches its client's address and leaves the packets waiting for that client in their queue |
| VioletGws.VioletGw.HandleNextPacket | src/vgw.cpp:413-426 | handle, flush and dispose are one enabled step of the machine, a probe's buffer being any that is free when it is allocated |
| VioletGws.VioletGw.SendAndFree | src/vgw.cpp:428-445 | of the transmit batch the NIC gets what it accepts until it accepts nothing, the rest and the drop batch are freed |
| VioletGws.VioletGw.SendLoop | src/vgw.cpp:429-436 | the loop hands over what successive calls accept, until all is sent or a call accepts nothing |
| TurnTheorems.TakenExact | src/vgw.cpp:429-436 | that is the smaller of the batch and the sum of what the calls before the first refusal accept |
| TurnTheorems.DrainExact | src/vgw.cpp:428-445 | the log of a drain, exactly: a front part of the batch sent, the rest of it freed, then the drop batch freed, all in order |
| VioletGws.VioletGw.Iterate | src/vgw.cpp:387-446 | one turn of the loop is the housekeeping that is due, then the arrivals in order in one burst, each handled once, then the batches, of which the NIC takes what it accepts; timers move exactly when due; it ends with empty batches and the invariant, and leaves no packet held for 65000 ms or more |
| TurnTheorems.HousekeepingIffDue | src/vgw.cpp:388-404 | each of the session sweep, the neighbor sweep, the queue sweep and the new upstream list is in a turn if and only if it is due |
| TurnTheorems.HandledInOrder | src/vgw.cpp:406-426 | the arrivals of a turn are handled one by one, in order, each with the bytes with which it arrived |
| TurnTheorems.BatchesGo | src/vgw.cpp:428-445 | at the end of a turn the log has the sends of what the NIC took, the frees of the rest and of the dropped packets, and the batches are empty |
| TurnTheorems.ArrivalsAccounted | src/vgw.cpp:406-445 | every arrival is taken on in the turn's log, and at the end of the turn it has been sent, freed, or is held |
| CpShm.DecodeEncode | src/cp_shm.cpp:95-157 | the reader gets back the publication, cut to 64 endpoints |
| CpShms.Block.WriteSeed | src/cp_shm.cpp:95-112 | the loops lay down exactly the words of the publication, and the version |
| CpShms.Block.Publish | src/cp_shm.cpp:114-117 | the version is bumped past 0 |
| CpShms.Block.PollApply | src/cp_shm.cpp:119-160 | applied exactly when magic matches and the version is new and non-zero, and then the table is what the words say |
| GoWriter.Publish | tools/vgwcp/main.go:132-158 | every byte the Go writer lays down, magic and version included |
| GoWriter.GoMatchesC | tools/vgwcp/main.go:132-158 | through the C struct those bytes are the words the C++ writer would have written, so policy and endpoints are read back in order |
| WireFormat.PublishedOnWire | tools/vgwcp/main.go:132-158 | a published address goes out on the wire with its octets in order, the most significant first |
| ShmProtocol.VerEqual | src/cp_shm.cpp:114-117 | versions repeat only after a whole number of cycles of 2^32 - 1 publications |
| ShmProtocol.RunKeeps | src/cp_shm.cpp:95-160 | in every interleaving each word read is the next publication's if that had been overwritten by then, and otherwise the current one's |
| ShmProtocol.PollApplies | src/cp_shm.cpp:119-160 | a successful poll started on the last complete publication and applies exactly that one if and only if no word was read after the next publication had changed it |
| ShmProtocol.ReachablePoll | src/cp_shm.cpp:95-160 | the same if-and-only-if for every interleaving from a fresh block |
| ShmProtocol.AssembleIff | src/cp_shm.cpp:132-157 | the list put together from the words read is a given publication if and only if every word is that publication's |
| ShmProtocol.UndisturbedPoll | src/cp_shm.cpp:119-160 | an undisturbed poll after an unapplied publication applies the newest one exactly |
| ShmProtocol.Converges | src/cp_shm.cpp:95-160 | after any run (torn and failed polls, any number of publications) the first undisturbed poll leaves the table equal to the newest publication, whether it was applied before or not |
| ShmProtocol.TornRead | src/cp_shm.cpp:147-158 | a concrete interleaving applies an endpoint that is in neither publication |
| ControlledGateway.SessionsFollowPublication | src/vgw.cpp:117-128 | with polls and publications interleaved with packets: a new session goes to an endpoint of the publication last applied, and the policy is that one's, unless that poll had read a word the next publication had changed |
| ControlledGateway.NewSessionListed | src/forward.cpp:185-210 | a session that a packet opens goes to an endpoint of the list in use |
| Pipeline.Conservation | src/dpdk/netif.cpp:272-349 | over every interleaving of threads and any worker that gives up only what it holds: counts balance, both rings deliver in push order, and what the RX thread pushed is a prefix of each burst |
| PipelinedGateway.NicToNic | src/dpdk/netif.cpp:272-349 | with the gateway as the worker, over every interleaving: a buffer came in as often as it is under way, in the worker's own lists, transmitted or freed; it is under way at most once; the worker's accounts balance; and both rings deliver in push order |
| PipelinedGateway.PoppedIsFresh | src/dpdk/netif.cpp:272-275 | what the worker pops from the RX ring is distinct and not already in its hands |
| PipelinedGateway.LedgerCount | src/vgw.cpp:411-445 | the worker holds a buffer as often as it logged taking it on and not giving it up |
| PipelinedGateway.RunKeepsSys | src/dpdk/netif.cpp:272-349 | every interleaving keeps the rings' and the gateway's invariants and what ties them together |
| PipelinedGateway.RunIsGatewayRun | src/dpdk/netif.cpp:272-309 | what the gateway does in a run of the pipeline is a run of the gateway, so every result about those runs holds in pipeline mode |
| PipelinedGateway.PipelinedSessions | src/session.cpp:39-131 | in particular the session table is consistent in every state reachable in pipeline mode |
| Pipeline.RxFreesOnlyWhenFull | src/dpdk/netif.cpp:321-331 | the RX thread frees exactly the unpushed tail, and only when the ring is full |
| Pipeline.SendProgress | src/dpdk/netif.cpp:290-298 | a round of `send_burst` makes progress if and only if the TX ring has room |
| Netif.Ring.PushBurst | src/base/ring.hpp:24-29 | as many as fit are appended in order |
| Netif.Ring.PopBurst | src/base/ring.hpp:31-36 | the oldest entries come out, in order |
| Netif.NicRecv | src/dpdk/netif.cpp:311-333 | the loop is a run of the pipeline machine: a prefix of the burst is queued in order and only the tail is freed, on a full ring, whatever the worker pops meanwhile |
| Netif.SendBurst | src/dpdk/netif.cpp:286-309 | the loop is a run of the pipeline machine; given that the TX thread keeps running it ends, and then the whole batch has gone on the ring in order |
| Netif.PushRound | src/dpdk/netif.cpp:290-298 | one round pushes what fits and is one step of the machine |
| Netif.NicSend | src/dpdk/netif.cpp:335-349 | one batch comes off the ring, a prefix is accepted and exactly the rest is freed |
| Limits.PayloadPastEnd | src/packet.cpp:150-152 | a 42-byte frame with UDP length 65535 is accepted with verification on, its payload running past its end |
| Limits.DatagramDoesNotSum | src/packet.cpp:180-186 | a 42-byte frame with total length 20 is accepted, and with recomputed checksums its datagram does not sum to all ones |
| Limits.AnonymousSession | src/forward.cpp:185-227 | a VIP packet from 0.0.0.0 opens a session whose client has address 0 |
| Limits.ReplyToZeroLost | src/vgw.cpp:214-217 | a reply to such a session, with address 0 not cached, ends up in no list and is freed by nobody |
| Limits.ThirtyThree | src/vgw.cpp:413-426 | with 32 unexpired packets held for an address, an ARP reply from it and an ARP request in one burst make 33 packets in the batch |
| FailingRuns.ThirtyThreeFromStart | src/vgw.cpp:413-426 | from a fresh gateway, for any unknown upstream and any other client, a run that leaves 33 packets in the batch |
| FailingRuns.LeakFromStart | src/vgw.cpp:214-217 | from a fresh gateway, a burst of two packets whose second one is in no list afterwards |
| FailingRuns.LeftWaitingFromStart | src/vgw.cpp:195-208 | from a fresh gateway, a run after which a packet is held for an address whose neighbor is known |

## Left out

- Opening the control block (`shm_open`, `mmap`, file descriptors, permissions): the model starts from a mapped block, zeroed and with the magic set.
- Weak memory ordering of the version loads and stores: words are atomic and sequentially consistent.
- DPDK set-up (EAL, mempool, ports, queues, link checks, lcore launch): a ring is a bounded FIFO whose capacity is a parameter, the NIC a source and sink of buffers.
- DPDK's checksum functions are modelled by what they compute (RFC 1071 and RFC 768); the layer-4 bytes are cut at the end of the frame, where the original would read on.
- Null pointers, and the fallback MAC used when there is no neighbor table at all: the gateway always has one.
- The forwarder and the ARP handler take a frame and give back the rewritten frame; writing headers inside a shared buffer, and aliasing between views of it, is not captured. The gateway object does keep the bytes of each buffer in place.
- Hash-table internals and `FlowKeyHash`: maps are keyed by the flow key.
- Command-line flags, datapath mode selection and the run-to-completion calls of `recv_burst` and `send_burst`: short case analysis.
- Logging, I/O tracing, packet dump and packet filter; the CRC helpers in src/base/util.cpp, which the datapath does not use.
- Multi-worker operation, which is documented and has no code; tools/ebpf, tools/pktgen, tools/steady and the scripts.
- Parsing of upstream arguments in tools/vgwcp/main.go; the limit of 64 endpoints it enforces is a precondition of the Go writer's `publish`.
- The order of the last frees within a pipeline-mode iteration: the drop batch is freed as the transmit batch is handed to `send_burst`, not after it has gone on the ring.
