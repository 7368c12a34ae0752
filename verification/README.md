# MC-LMAC: model and proofs

MC-LMAC is a multi-channel TDMA medium access protocol, written in C for Linux and RIOT. This project models its
hard core in Dafny and proves properties of it over all inputs, all runs and all behaviours of the environment. The
sizes of the network (frequencies, slots, packets per queue, timeouts, memory blocks) are parameters throughout.

`dafny verify dfyconfig.toml` checks everything.

## What is modelled

- **Many timeouts on one timer** (`Timeouts.dfy`, `TimeoutBank.dfy`, `Timespec.dfy`). `Timeouts` is a step system: the
  clock, the main thread inside `timeout_set` one atomic operation at a time, and the signal handler between any two
  of them. `TimeoutBank` is the same in the code's own form, arrays changed in place, with the handler called
  nondeterministically between operations; each method extends a run of the step system. `Timespec` is the clock
  arithmetic of both platforms.
- **Linked-block arrays** (`LinkedArrays.dfy`). Arrays as values with a conservation law and read-over-write, and the heap
  of linked one-byte blocks that refines them. A pointer is a position in the static array `MEMORY`.
- **Packets** (`Octets.dfy`, `ControlPacket.dfy`, `DataPacket.dfy`, `CFPacket.dfy`, `PacketTags.dfy`). Each byte format as a
  pair of functions with its round trip, and the encoder and decoder loops in place.
- **Joining the network** (`Occupancy.dfy`). Merging the occupancy maps heard, and choosing a slot.
- **Queues** (`PacketQueues.dfy`, `QueueHistory.dfy`, `QueueRuns.dfy`). Two send queues and the receive ring, over
  histories of operations and then over whole runs.
- **The two state machines** (`PowerMode.dfy`, `MediumAccess.dfy`, `MCLMAC.dfy`). `PowerMode` says what each state does to a
  node as a value; the radio, the timers and the upper layers are scripts of events, one for each turn of a waiting
  loop. `MediumAccess` is the supervisor loop over any list of scripts. `MCLMAC` is the node as the C code keeps it,
  every method of which is proved to do to the fields what the function does to the value. `NodeTimers.dfy` ties the set
  of timeouts a node holds to the bank of `Timeouts`.
- **Single executions, exactly** (`Transitions.dfy`, `CfArbitration.dfy`, `CfTurns.dfy`, `WaitingLoops.dfy`): what each
  state makes of what the environment does, in terms of the events.
- **Theorems over runs** (`RunShapes.dfy`, `SlotClock.dfy`, `TimerDiscipline.dfy`, `QueueRuns.dfy`, `CollisionRuns.dfy`,
  `Synchrony.dfy`).

## What the code does that its comments do not say

Where the code departs from its evident intent the model follows the code. Each case has its exact condition.

- `timeout_set` at the very instant at which another timeout comes due disarms the hardware timer, and that timeout is not
  fired until something else arms the timer again (`SetCoversAllIff`, `DueDeadlineIsDropped`, `DroppedDeadlineIsReachable`).
- On RIOT a wait of 2^31 microseconds or more is due at once (`RiotRemainingExactIff`, `RiotLongWaitFiresAtOnce`).
- `create_array` on a handle that already owns a list loses the blocks of that list (`Conservation`).
- The top octet of the network time is encoded with a shift of 56 and decoded with one of 52, so the control packet
  survives exactly below 2^56 (`RoundTripExactIff`). The synchronization check is not affected: the truncation of its
  lower bound to `int` leaves it open far enough by then (`DecodedTimeOnTime`).
- The window of accepted network times is the documented one only up to own times below 2^31 + EPSILON (`WindowExactIff`).
- The number stored for the chosen slot is that slot's number only if the slot lies in the first octet, or a row has
  eight octets, or by coincidence of the 8-bit arithmetic (`StoredSlotExactIff`); otherwise it can name a taken slot
  (`StoredSlotIsTaken`). The unused bits of the last octet count as slots.
- `_last_send_message` and `_last_send_control` never wrap and fullness is judged on the sum of both queues; from the
  (capacity + 1)-st acceptance since a reset a packet goes past the end of its array (`SentInOrder`, `OverrunIsReachable`).
- The receive ring is written modulo its whole size and read modulo half of it. Delivery is in order exactly for the first
  half ring of deliveries since a reset (`InOrderIff`, `ReceivedInOrder`, `OutOfOrderIsReachable`). Later deliveries hand
  over what has been stored in the first half since, or a cleared packet when nothing has (`OnlyFirstHalf`; always a
  cleared one while no more has arrived than the ring holds, `LateDeliveriesAreEmpty`), and packets stored in the second
  half are never delivered (`SecondHalfIsLost`).
- A TRANSMIT that runs into the end of its slot releases the slot timer, and the PASSIVE that follows waits for a timer that
  no longer exists (`TransmitReleasesIff`, `ReleasedTimerStops`, `ReleasedTimerIsReachable`).
- A control packet heard only at the second attempt is decoded and then ignored (`SecondAttemptIgnored`).
- A detected collision runs ACTIVE again without an update, although PASSIVE was proposed (`RunShape`).

## Model

The column `source` is relative to the repository's root.

| member | source | states |
|---|---|---|
| `Timeouts.NeverEarly` | utils/timeouts.c:127-310 | In every interleaving of set, unset, clock and signal handler `timeout_passed` answers 1 only for a handle that is live (or in the making) and only once the clock has reached the deadline that the handle's own `timeout_set` computed, so a PASSED bit left by an earlier owner is never seen; between calls it answers 2 exactly for handles that are not live |
| `Timeouts.HandlesDistinct` | utils/timeouts.c:252-268 | Live handles are below TIMEOUTS and the slot a call has claimed is nobody else's |
| `Timeouts.StaysPassed` | utils/timeouts.c:136-156 | From any safe state, a timeout that has passed stays passed, with its deadline, over every continuation without an unset of that handle |
| `Timeouts.SafeRun` | utils/timeouts.c:180-268 | The ownership invariant behind these, kept by every step of every run |
| `Timeouts.HandlerNextIsEarliest` | utils/timeouts.c:340-359 | The handler's scan yields exactly the wait until the earliest pending deadline after now, or -1 when there is none |
| `Timeouts.NoDeadlineMissed` | utils/timeouts.c:253-369 | In every run that calls `timeout_set` only when nothing pending is due, every pending timeout has the one hardware timer armed at most `lag` after its deadline and is itself at most `lag` overdue, `lag` being the time the last call spent inside |
| `Timeouts.NoDeadlineMissedWhenPrompt` | utils/timeouts.c:253-369 | When the clock does not advance inside `timeout_set` and a due signal is handled before the next call: the timer is armed no later than any pending deadline, and no pending deadline is in the past |
| `Timeouts.CoveredRun` | utils/timeouts.c:270-359 | The armed-for-every-deadline invariant, kept by every step |
| `Timeouts.PromptRun` | utils/timeouts.c:270-359 | On a prompt platform that invariant holds with no lag, from any such state on |
| `Timeouts.SetNextIsNearest` | utils/timeouts.c:271-283 | The scan of `timeout_set` yields the nearest pending deadline not before the clock value it read, and never more than the requested wait |
| `Timeouts.SetAtOnceResult` | utils/timeouts.c:216-310 | An uninterrupted call claims the least unused timeout, arms it for now + wait, programs the timer for the nearest deadline and touches nothing else |
| `Timeouts.SetAtOnceFull` | utils/timeouts.c:257-259 | With every timeout in use the call fails and changes nothing |
| `Timeouts.SetCoversAllIff` | utils/timeouts.c:270-303 | After an uninterrupted call the timer covers every pending deadline if and only if no pending timeout was due at the call |
| `Timeouts.DueDeadlineIsDropped` | utils/timeouts.c:281-303 | A timeout due at the very instant of the call makes `next` zero, which disarms the timer, and then the clock runs past that deadline by any amount with the timeout still pending |
| `Timeouts.DroppedDeadlineIsReachable` | utils/timeouts.c:281-303 | A concrete run from initialisation that ends so |
| `Timeouts.FinishSetIsRun` | utils/timeouts.c:252-309 | An uninterrupted call is one of the runs the theorems quantify over |
| `Timeouts.UnsetLeavesPassed` | utils/timeouts.c:180-204 | `timeout_unset` clears USED and ARMED, leaves PASSED behind, and touches no other slot and not the timer |
| `Timeouts.ClaimClearsPassed` | utils/timeouts.c:261-265 | The next claim clears it, before the slot is armed |
| `Timeouts.FailureGivesUp` | utils/timeouts.c:297-302 | When the hardware timer cannot be programmed the claimed slot is given up with no bit set, and no handle becomes live |
| `TimeoutBanks.TimeoutBank.constructor` | utils/timeouts.c:416-418 | `timeout_init`: every state word zero, no timer; the empty run |
| `TimeoutBanks.TimeoutBank.Inherits` | utils/timeouts.c:127-359 | Every object that these methods can produce is a reachable state, so the theorems on runs hold of it |
| `TimeoutBanks.TimeoutBank.FireDue` | utils/timeouts.c:341-359 | The handler's loop marks exactly the due pending timeouts as passed and returns the earliest remaining wait |
| `TimeoutBanks.TimeoutBank.SignalHandler` | utils/timeouts.c:334-369 | The handler does to the arrays and the timer what the step does to the state |
| `TimeoutBanks.TimeoutBank.TestAndSetUsed` | utils/timeouts.c:253-255 | The atomic claim of one slot |
| `TimeoutBanks.TimeoutBank.ClearAllButUsed` | utils/timeouts.c:261-262 | The atomic clearing of the stale bits |
| `TimeoutBanks.TimeoutBank.StoreDeadline` | utils/timeouts.c:264-265 | The store of the deadline, which is not atomic: the handler may run in the middle of it |
| `TimeoutBanks.TimeoutBank.SetArmed` | utils/timeouts.c:267-268 | The atomic arming |
| `TimeoutBanks.TimeoutBank.LookAt` | utils/timeouts.c:273-283 | One look of the scan |
| `TimeoutBanks.TimeoutBank.ProgramTimer` | utils/timeouts.c:285-303 | Programming the timer; on failure the slot is given up and the live handles are as before |
| `TimeoutBanks.TimeoutBank.ClaimUnused` | utils/timeouts.c:252-259 | The search, interrupted anywhere: it claims a slot, or every slot is held by a live handle |
| `TimeoutBanks.TimeoutBank.ScanDeadlines` | utils/timeouts.c:270-283 | The scan, interrupted anywhere, extends the run by its steps |
| `TimeoutBanks.TimeoutBank.TimeoutSet` | utils/timeouts.c:216-310 | Whatever interrupts it, the result is a handle nobody holds, now live with the deadline old now + wait, or the error value with the live handles unchanged; the error value exactly for a wait that is not positive, a timer that cannot be programmed, or a full bank |
| `TimeoutBanks.TimeoutBank.TimeoutUnset` | utils/timeouts.c:171-213 | Releases the handle; 2 exactly when it was not live, 1 only when its deadline has come |
| `TimeoutBanks.TimeoutBank.TimeoutPassed` | utils/timeouts.c:127-165 | 2 exactly when the handle is not live, 1 only when its deadline has come |
| `TimespecArithmetic.RoundedNanosError` | utils/timeouts.c:49-57 | Rounding and clamping stay within 1 ns and below one second |
| `TimespecArithmetic.AddedIsAccurate` | utils/timeouts.c:46-66 | `timespec_add` keeps nanoseconds in [0, 10^9) with a single carry, adds the requested duration to within 1 ns, and the difference gives it back to within 1 ns |
| `TimespecArithmetic.DiffIsDifference` | utils/timeouts.c:24-27 | `timespec_diff` is the difference of the two instants, whatever was carried |
| `TimespecArithmetic.DueIffNotAfter` | utils/timeouts.c:347-352 | The handler's decision is the order of the instants |
| `TimespecArithmetic.FromSecondsDisarmsIff` | utils/timeouts.c:88-121 | `timespec_set` is normal, within 1 ns of the request, and zero (which disarms) exactly for less than half a nanosecond |
| `TimespecArithmetic.TimespecCell.Add` | utils/timeouts.c:37-74 | The update in place is the addition these lemmas are about |
| `TimespecArithmetic.TimespecCell.Set` | utils/timeouts.c:79-122 | Likewise for `timespec_set` |
| `TimespecArithmetic.WrappedDiffExactIff` | utils/timeouts.c:28-30 | On RIOT the 32-bit difference is the true remaining time exactly when that fits in 32 signed bits |
| `TimespecArithmetic.RiotRemainingExactIff` | utils/timeouts.c:68-72 | With a handler at most 2^31 late, the remaining time it computes is the true one exactly for waits below 2^31 (also utils/timeouts.c:387-390) |
| `TimespecArithmetic.RiotFiresExactly` | utils/timeouts.c:387-395 | For such waits it fires a timeout if and only if its time has come |
| `TimespecArithmetic.RiotLongWaitFiresAtOnce` | utils/timeouts.c:46-71 | A wait of 2^31 or more is taken as negative and is due the moment it is set |
| `LinkedArrays.Conservation` | utils/memory.c:17-78 | Over every history of create, write and free on any handles: free blocks, lost blocks and the sizes of the live arrays add up to the pool, and nothing is lost if and only if `create_array` is never given a handle that still owns a list |
| `LinkedArrays.CreationIff` | utils/memory.c:17-47 | After every history a creation takes effect iff the size is not zero and fits beside the live arrays and the lost blocks; it yields zeros and leaves every other array alone |
| `LinkedArrays.ApplyConserves` | utils/memory.c:17-103 | Each single operation keeps that sum |
| `LinkedArrays.ReadsRememberWrites` | utils/memory.c:80-124 | Over every history a read returns the last write to that index of that array since its creation, zero if there was none, and nothing for an index or array that does not exist; other writes do not matter |
| `LinkedArrays.Pool.ChainsAreSeparate` | utils/memory.c:31-45 | Chains are acyclic, pairwise disjoint and use no free block |
| `LinkedArrays.Pool.constructor` | utils/memory.c:9-15 | All blocks free |
| `LinkedArrays.Pool.CreateArray` | utils/memory.c:17-47 | Success exactly when 0 < size <= available; then the handle owns a chain of exactly `size` zeroed blocks and every other array is unchanged; the pool keeps its number of blocks, free, lost and live (part of validity, as for the other operations) |
| `LinkedArrays.Pool.ReleaseApart` | utils/memory.c:59-76 | Freeing leaves the chains of all other handles linked |
| `LinkedArrays.Pool.BuildList` | utils/memory.c:31-45 | The allocation loop builds one well-linked chain out of the blocks it was handed, with all other blocks as they were |
| `LinkedArrays.Pool.ExtendAll` | utils/memory.c:39-45 | The loop appends one free block after the other and ends with `size` of them |
| `LinkedArrays.Pool.FreeArray` | utils/memory.c:49-78 | All blocks of the chain go back, the handle is emptied, every other array is unchanged; 0 for an empty handle |
| `LinkedArrays.Pool.ReleaseList` | utils/memory.c:59-74 | The release loop frees each block of the chain once, in order, although freeing overwrites links |
| `LinkedArrays.Pool.Walk` | utils/memory.c:89-99 | The walk reaches the i-th block of the chain |
| `LinkedArrays.Pool.WriteElement` | utils/memory.c:80-103 | Changes that element of that array and nothing else; 0 exactly beyond the end |
| `LinkedArrays.Pool.ReadElement` | utils/memory.c:105-124 | Returns the element, or nothing beyond the end |
| `Octets.JoinOctets` | MAC/ControlPacket.c:238-285 | Shifting the octets of a field back together gives the field |
| `Octets.OctetsOfJoin` | MAC/DataPacket.c:131-148 | And the other way round |
| `Octets.OctetIs` | MAC/ControlPacket.c:175-190 | Octet k is what is left in eight bits of the division by 256^k |
| `Octets.BitIs` | MAC/MAC_StateMachine.c:327-334 | Bit k is the remainder of the division by 2^k |
| `Octets.OrBits` | MAC/MAC_StateMachine.c:258-262 | The recursive or has a bit set iff one of its arguments has |
| `Octets.SameBits` | MAC/MAC_StateMachine.c:258-262 | Bits determine the number, so that or is the only one |
| `Octets.PutField` | MAC/ControlPacket.c:174-214 | The assignments that store one field store its octets, most significant first, and nothing else |
| `ControlPackets.NumberBytes` | MAC/ControlPacket.c:7-13 | The least number of octets that hold n bits |
| `ControlPackets.FlatInjective` | MAC/ControlPacket.c:215-222 | The flattened index of the occupancy octets stays in bounds and never names one place twice |
| `ControlPackets.RoundTrip` | MAC/ControlPacket.c:160-293 | Decoding an encoded packet gives every field back, for any filler and any number of frequencies and slots that fit, except that the network time comes back with its top octet shifted by 52 |
| `ControlPackets.ShiftedTimeExactIff` | MAC/ControlPacket.c:272-280 | The network time survives exactly when it is below 2^56 |
| `ControlPackets.RoundTripExactIff` | MAC/ControlPacket.c:160-293 | The whole packet survives exactly then |
| `ControlPackets.Layout` | MAC/ControlPacket.c:173-227 | Where each field, each occupancy octet and the filler is on the air |
| `ControlPackets.ControlPacket.GetByteString` | MAC/ControlPacket.c:160-228 | The byte string in place is the encoding |
| `ControlPackets.ControlPacket.PutRows` | MAC/ControlPacket.c:218-222 | The nested loop stores every occupancy octet at its place and nothing elsewhere |
| `ControlPackets.ControlPacket.PutFiller` | MAC/ControlPacket.c:223-227 | The filler goes after the occupancy rows only |
| `ControlPackets.ControlPacket.Construct` | MAC/ControlPacket.c:230-293 | The packet in place becomes the decoding, and is untouched unless the first octet is 1 |
| `DataPackets.RoundTripIff` | MAC/DataPacket.c:85-175 | Decoding an encoded data packet gives it back exactly when its data fits |
| `DataPackets.ReencodeIff` | MAC/DataPacket.c:85-175 | Encoding what was decoded gives the same bytes exactly when they were zero padded |
| `DataPackets.Layout` | MAC/DataPacket.c:98-127 | Where each field and each octet of data is on the air |
| `DataPackets.DataPacket.GetByteString` | MAC/DataPacket.c:85-130 | The byte string in place is the encoding, for every packet; octets that do not fit are dropped |
| `DataPackets.DataPacket.Construct` | MAC/DataPacket.c:132-175 | The packet in place becomes the decoding; with a size field that reaches beyond the byte string it holds the 238 octets there are, and then anything |
| `DataPackets.DataPacket.Clear` | MAC/DataPacket.c:66-83 | Type -1, no destination, no data |
| `CFPackets.RoundTrip` | MAC/CFPacket.c:80-182 | CF packets survive, whatever the filler |
| `CFPackets.Layout` | MAC/CFPacket.c:90-125 | Where each field and the filler is on the air |
| `CFPackets.CFPacket.GetByteString` | MAC/CFPacket.c:80-126 | The byte string in place is the encoding |
| `CFPackets.CFPacket.Construct` | MAC/CFPacket.c:128-182 | The packet in place becomes the decoding, and is untouched unless the first octet is 0 |
| `PacketTags.TagsSeparate` | MAC/CFPacket.c:138-139 | The CF and control decoders read their own packets and leave theirs unchanged on any byte string of another encoder; the first octet tells the three kinds apart (also MAC/ControlPacket.c:235-236) |
| `Occupancies.MergeAllFree` | MAC/MAC_StateMachine.c:217-220 | A slot is free in the merged table iff it is free in every map heard (also MAC/MAC_StateMachine.c:258-262) |
| `Occupancies.MergeAllBits` | MAC/MAC_StateMachine.c:258-262 | A bit of the merged table is set iff it is set in some map heard |
| `Occupancies.SelectionIsLeastOverHeard` | MAC/MAC_StateMachine.c:244-353 | End to end: the slot chosen from the merged table is the first that every map heard leaves free on every frequency, and none is chosen iff no such slot exists |
| `Occupancies.StoredSlotExactIff` | MAC/MAC_StateMachine.c:342 | The number stored, m*i + (j-1) in a uint8_t, is that of the chosen slot iff (m-8)*i is a multiple of 256 (also MAC/MCLMAC.c:160-169) |
| `Occupancies.StoredSlotExactIffSmall` | MAC/MAC_StateMachine.c:342 | For up to 128 slots: iff i = 0 or m = 8 |
| `Occupancies.StoredSlotIsTaken` | MAC/MAC_StateMachine.c:342 | Otherwise, with fewer than eight octets, the number names an earlier slot, which is taken |
| `Occupancies.JoiningNode.Synchronize` | MAC/MAC_StateMachine.c:185-294 | The listening node's table is the merge of every map heard, its hop count the least of those heard after the first packet (0xffff without any); it goes on to slot selection exactly when as many frames have ended as its wake-up frame asks for, and the MAC updater accepts that; eleven attempts without a packet, or a timer that cannot be set, fail and leave the next state alone |
| `Occupancies.NearestIsLeast` | MAC/MAC_StateMachine.c:251-254 | The hop count is at most each one heard, in eight bits, and is one of them |
| `Occupancies.FramesCounted` | MAC/MAC_StateMachine.c:278-285 | The count of frames goes up by one for each turn in which the frame timer had passed, modulo 2^32 |
| `Occupancies.WokenIff` | MAC/MAC_StateMachine.c:244 | The loop ends when that count reaches the wake-up frame less one |
| `Occupancies.FirstHeardIff` | MAC/MAC_StateMachine.c:195-205 | The first packet is that of the first attempt that hears any |
| `Occupancies.LaterIff` | MAC/MAC_StateMachine.c:246-262 | The packets merged are those heard in the loop, none left out |
| `Occupancies.JoiningNode.HearFirst` | MAC/MAC_StateMachine.c:195-208 | The first packet among at most eleven attempts |
| `Occupancies.JoiningNode.Listen` | MAC/MAC_StateMachine.c:243-286 | The listening loop keeps the merge up to date and counts frames until the wake-up frame |
| `Occupancies.JoiningNode.MergeTable` | MAC/MAC_StateMachine.c:258-262 | The nested loop or-s the map in, octet by octet |
| `Occupancies.JoiningNode.CopyTable` | MAC/MAC_StateMachine.c:217-220 | The first map replaces the table |
| `Occupancies.JoiningNode.Available` | MAC/MAC_StateMachine.c:327-335 | True iff the bit is clear in the row of every frequency |
| `Occupancies.JoiningNode.SelectSlot` | MAC/MAC_StateMachine.c:317-349 | The search finds a slot iff one is free on every frequency, and then the first; stores its number and the channel |
| `Occupancies.JoiningNode.SelectTimeslot` | MAC/MAC_StateMachine.c:309-360 | The whole state: failed iff the frame timer cannot be set, otherwise next state MEDIUM_ACCESS iff some slot is free on every frequency and SYNCHRONIZATION iff none is, which the MAC updater accepts |
| `PacketQueues.SendQueueIsFifo` | MAC/MCLMAC.c:400-413 | Since a reset: last = accepted, first = sent mod capacity, count = accepted - sent; first in, first out up to `capacity` acceptances, and beyond that, and only then, a packet was stored past the end (also MAC/Packets_Handlers.c:489-593) |
| `PacketQueues.FifoIsStraight` | MAC/MCLMAC.c:400-413 | Within that bound the queue holds exactly the accepted packets not yet sent |
| `PacketQueues.DrainSendsInOrder` | MAC/MAC_PowerMode_StateMachine.c:324-340 | TRANSMIT sends all control packets in order and then all messages in order, or a prefix of that if the slot timer passes, and the rest is still queued in order |
| `PacketQueues.DrainExpiresIff` | MAC/MAC_PowerMode_StateMachine.c:324-340 | The sending loop is cut short exactly when the slot timer passes at the first turn or before as many turns as packets were queued |
| `PacketQueues.RingCounts` | MAC/Packets_Handlers.c:641-646 | For every history the ring's count is arrived - delivered and never exceeds the ring (also MAC/MCLMAC.c:464-468) |
| `PacketQueues.RingIsFifo` | MAC/Packets_Handlers.c:641-646 | With equal moduli the ring is a FIFO for ever and overwrites nothing; with the smaller read modulus for that many deliveries after a reset (also MAC/MCLMAC.c:464-468) |
| `PacketQueues.LateDeliveriesAreEmpty` | MAC/MCLMAC.c:464-468 | With the code's moduli, while no more has arrived since the reset than the ring holds, exactly the deliveries after the first half of the ring hand over cleared packets |
| `PacketQueues.OnlyFirstHalf` | MAC/MCLMAC.c:464-468 | For every history whatever: each delivery is a cleared packet or one that was stored at that position of the first half |
| `PacketQueues.SecondHalfIsLost` | MAC/MCLMAC.c:464-468 | For every such history a packet stored in the second half of the ring is never delivered |
| `PacketQueues.InOrderIff` | MAC/MCLMAC.c:464-468 | For every history of packets that can be told apart: delivery is in arrival order if and only if no more than half a ring has been delivered since the reset (writes wrap at MAC/Packets_Handlers.c:644) |
| `PacketQueues.OutOfOrderIsReachable` | MAC/MCLMAC.c:464-468 | A concrete history, for every ring, whose delivery number half-a-ring hands over a cleared packet instead of the one that arrived |
| `PacketQueues.AroundIsMod` | MAC/Packets_Handlers.c:644 | The next index of every ring is (i + 1) modulo its size |
| `PacketQueues.PacketQueue.Accept` | MAC/MCLMAC.c:400-413 | Stores at the write index, which never wraps |
| `PacketQueues.PacketQueue.SendFirst` | MAC/Packets_Handlers.c:489-540 | Takes the packet at the read index, clears the slot, wraps the index |
| `PacketQueues.PacketQueue.Clear` | MAC/MAC_PowerMode_StateMachine.c:409-423 | Counters and slots of a send queue reset |
| `PacketQueues.PacketRing.Arrive` | MAC/Packets_Handlers.c:641-646 | Stores at the write index, which wraps at the whole ring |
| `PacketQueues.PacketRing.DeliverFirst` | MAC/MCLMAC.c:444-468 | Takes the packet at the read index, which wraps at half the ring |
| `PacketQueues.PacketRing.Clear` | MAC/MAC_PowerMode_StateMachine.c:415-428 | Counters and both halves of the ring reset |
| `QueueRuns.SentInOrder` | MAC/MCLMAC.c:358-428 | Over every run of MEDIUM_ACCESS not yet left: what went on the air is, class by class, a prefix of what the upper layers handed in, and the rest is queued in order, while neither class exceeds the capacity; exactly beyond it a queue has overrun (also MAC/Packets_Handlers.c:477-594) |
| `QueueRuns.ControlsFirst` | MAC/MAC_PowerMode_StateMachine.c:324-340 | Every TRANSMIT of every run whose queues have not overrun puts on the air all unsent control packets in the order in which they were taken and then all unsent messages in that order, or the first part of that if the slot timer passes too early |
| `QueueRuns.OverrunIsReachable` | MAC/MCLMAC.c:400-413 | A run, for every node, whose first PASSIVE stores a message past the end of its queue |
| `QueueRuns.ReceivedInOrder` | MAC/MCLMAC.c:430-478 | Over every run of MEDIUM_ACCESS not yet left: count = arrived - delivered, within the ring; up to half a ring of deliveries they are in arrival order and no undelivered packet has been overwritten; with packets that can be told apart the order is kept exactly so long, and packets stored in the second half are never delivered (also MAC/Packets_Handlers.c:641-646) |
| `QueueHistories.RunHistory` | MAC/MAC_PowerMode_StateMachine.c:133-153 | Every run is a history of queue operations whose packets are those the run took, sent, received and handed up (also MAC/MAC_PowerMode_StateMachine.c:324-400) |
| `RunShapes.RunShape` | MAC/MAC_PowerMode_StateMachine.c:30-433 | In every environment the states executed are a prefix of cycles PASSIVE, one or more ACTIVE, at most one TRANSMIT or RECEIVE; after a success the update is accepted and the state proposed is executed next; after a detected collision there is no update and ACTIVE is executed next although PASSIVE was proposed; NONEP and IDLEP never occur; the run ends exactly in FINISHP after an error of TRANSMIT or RECEIVE (also MAC/MAC_StateMachine.c:363-415) |
| `RunShapes.ExitContract` | MAC/MAC_StateMachine.c:381-417 | Whenever the supervisor loop has ended: FINISHP executed, all three queues bare, destination broadcast, MAC next state SYNCHRONIZATION iff collision error and INITIALIZATION iff synchronization error, and the MAC update accepts it (also MAC/MAC_PowerMode_StateMachine.c:406-429) |
| `RunShapes.ExecuteProposes` | MAC/MAC_PowerMode_StateMachine.c:133-404 | Which return values and next states each state can leave behind |
| `RunShapes.RunSpelled` | MAC/MAC_StateMachine.c:381-411 | The invariant behind the shape of runs |
| `CfArbitration.Arbitration` | MAC/MAC_PowerMode_StateMachine.c:171-299 | For every timer and radio: at most one turn sends and only in the selected slot; collision iff (sent and addressed) or more than one addressed message by the uint8_t count; otherwise RECEIVE, TRANSMIT or PASSIVE accordingly |
| `CfArbitration.ArbitrationExact` | MAC/MAC_PowerMode_StateMachine.c:264-282 | With fewer than 256 addressed messages: iff (sent and addressed) or at least two addressed |
| `CfArbitration.SendsOnlyOnOwnChannel` | MAC/MAC_PowerMode_StateMachine.c:190-244 | A turn that sends began on the node's own channel in its own slot, with something to announce |
| `CfArbitration.AtTurn` | MAC/MAC_PowerMode_StateMachine.c:188-191 | At the beginning of every turn the index given to `mclmac_get_frequency` is in range (also MAC/MCLMAC.c:133-139) |
| `CfArbitration.CfSlotFits` | MAC/MAC_PowerMode_StateMachine.c:190-199 | The uint8_t that counts CF slots cannot wrap, for any configuration whose control packet fits |
| `CfArbitration.CfPhaseLength` | MAC/MAC_PowerMode_StateMachine.c:186-208 | The phase ends after exactly one expiry of the CF timer per frequency |
| `CfArbitration.CfLoopCounts` | MAC/MAC_PowerMode_StateMachine.c:188-272 | What the flags send and receive record of the turns |
| `CfArbitration.CfLoopPackets` | MAC/MAC_PowerMode_StateMachine.c:264 | What the counter packets records |
| `CfArbitration.CountedUpIsMod` | MAC/MAC_PowerMode_StateMachine.c:180 | A uint8_t counted up is the count modulo 256 |
| `CfTurns.TurnMeaning` | MAC/MAC_PowerMode_StateMachine.c:190-270 | One turn exactly: it is the last iff the CF timer passes in the last CF slot; it sends iff it began on the own channel, before the node has sent, with a packet queued, a collision to announce or a first node; otherwise a message counts as addressed iff its destination is zero or the node; transmitter and reception channel are taken from such a message and from the CF slot in which the turn began, and from nothing else |
| `CfTurns.PhaseVerdict` | MAC/MAC_PowerMode_StateMachine.c:274-297 | The phase in terms of what the radio brought: an internal collision is recorded iff some turn sent and some message was for the node, and is always reported; a reported collision is that or two messages for the node; otherwise RECEIVE, TRANSMIT or PASSIVE accordingly |
| `CfTurns.PhaseCollisionIff` | MAC/MAC_PowerMode_StateMachine.c:264-282 | With fewer than 256 messages for the node: reported iff clash or two messages |
| `CfTurns.SendsOnce` | MAC/MAC_PowerMode_StateMachine.c:214-244 | At most one turn sends, in the own slot, with something to announce |
| `CfTurns.TrafficIsAnnounced` | MAC/MAC_PowerMode_StateMachine.c:212-243 | And one does: a node in its own slot with something to announce has sent by the end of the first turn that begins on its own channel |
| `CfTurns.PhasePeers` | MAC/MAC_PowerMode_StateMachine.c:259-263 | After the phase transmitter and reception channel are those of the last message for the node, and unchanged if there was none |
| `CfTurns.TurnsAre` | MAC/MAC_PowerMode_StateMachine.c:188-271 | Every turn of the loop is that of the node at its beginning, so the statements about single turns hold of all of them |
| `CollisionRuns.TransmitErrorIff` | MAC/MAC_PowerMode_StateMachine.c:308-322 | TRANSMIT reports a collision error and proposes FINISHP iff a collision is to be announced in which the node itself took part; an announced collision is forgotten and no data is sent |
| `CollisionRuns.TransmitAnnounces` | MAC/Packets_Handlers.c:330-351 | Every TRANSMIT begins with one control packet with the node's id, frame, slot, recorded collision, hop count, times and map (sent at MAC/MAC_PowerMode_StateMachine.c:304-306) |
| `CollisionRuns.StepCollision` | MAC/MAC_StateMachine.c:383-411 | One turn of the supervisor changes the record of collisions only by a TRANSMIT, which clears it, and a detection, which writes slot and channel |
| `CollisionRuns.RecordedChannel` | MAC/MAC_StateMachine.c:401-404 | The channel written is that of the CF slot in which the last message for the node began |
| `CollisionRuns.DetectionStays` | MAC/MAC_StateMachine.c:401-407 | A detection leaves the node in ACTIVE with destination zero |
| `CollisionRuns.RecordTracks` | MAC/MAC_PowerMode_StateMachine.c:274-320 | Over every run: a collision is to be announced iff one has been detected since the last TRANSMIT, and it is marked internal iff the node has clashed in some ACTIVE since then |
| `CollisionRuns.CollisionErrorIff` | MAC/MAC_PowerMode_StateMachine.c:309-318 | Over every run: a TRANSMIT makes the node leave for SYNCHRONIZATION iff since the last TRANSMIT it has in some ACTIVE both sent and heard a message of its own |
| `CollisionRuns.RecordIsLatest` | MAC/MAC_StateMachine.c:401-404 | Over every run: slot and channel on record, and so in the next control packet, are those of the latest detection |
| `SlotClock.SlotClockConserved` | MAC/MAC_PowerMode_StateMachine.c:103-165 | At every point of every run the slot is below the number of slots, and frame*slots + slot - networkTime is what it was at the start while the counters have not wrapped (also MAC/MCLMAC.c:181-242) |
| `SlotClock.ClockTicks` | MAC/MAC_PowerMode_StateMachine.c:156-165 | From any point of any run, the clock j slots later is j ticks of the clock there |
| `SlotClock.RunClock` | MAC/MAC_PowerMode_StateMachine.c:156-165 | Slot, frame and network time depend only on how many slots have gone by, wrapping included |
| `SlotClock.SlotsClosed` | MAC/MAC_PowerMode_StateMachine.c:157-163 | Slot number and frames ended are k mod m and k div m |
| `SlotClock.ExecuteClock` | MAC/MAC_PowerMode_StateMachine.c:133-404 | Only a completed PASSIVE moves the clock, by one slot |
| `SlotClock.Later32Closed` | MAC/MCLMAC.c:192-201 | The frame counter is its start plus the frames ended, modulo 2^32 |
| `SlotClock.Later64Closed` | MAC/MAC_PowerMode_StateMachine.c:165 | The network time is its start plus the slots, modulo 2^64 |
| `TimerDiscipline.SlotTimerDiscipline` | MAC/MAC_PowerMode_StateMachine.c:130-167 | Between any two executions of any run that got a slot timer the node holds exactly that one timeout beyond those in use before, armed, except in a PASSIVE after a TRANSMIT that released it (also MAC/MAC_PowerMode_StateMachine.c:329-334) |
| `TimerDiscipline.PassiveTimers` | MAC/MAC_PowerMode_StateMachine.c:137-167 | A completed PASSIVE had an armed slot timer, has one again, and leaves the number of used timeouts unchanged |
| `TimerDiscipline.ActiveTimers` | MAC/MAC_PowerMode_StateMachine.c:185-211 | A completed ACTIVE gives back every timeout it takes |
| `TimerDiscipline.PassiveEndsIff` | MAC/MAC_PowerMode_StateMachine.c:137-155 | PASSIVE can end if and only if the slot timer is armed |
| `TimerDiscipline.DisarmedPassiveWaits` | MAC/MAC_PowerMode_StateMachine.c:137-155 | Without it no environment ends the loop |
| `TimerDiscipline.TransmitReleasesIff` | MAC/MAC_PowerMode_StateMachine.c:309-334 | TRANSMIT releases the slot timer exactly when no collision is to be announced and the timer passes at the first look or before as many packets have gone out as were queued |
| `TimerDiscipline.ReleasedTimerStops` | MAC/MAC_PowerMode_StateMachine.c:329-334 | Once TRANSMIT has released it the supervisor loop never goes round again, in any continuation (also MAC/MAC_PowerMode_StateMachine.c:137-155) |
| `TimerDiscipline.ReleasedTimerIsReachable` | MAC/MAC_PowerMode_StateMachine.c:324-343 | A run from entry, for any node whose slot and channel come first, that ends in PASSIVE with no slot timer |
| `Synchrony.NearIsOnTime` | MAC/MAC_PowerMode_StateMachine.c:377-381 | For every own time up to 2^64-1-EPSILON a received time within EPSILON is never rejected, despite the truncation to int |
| `Synchrony.WindowLowBelow` | MAC/MAC_PowerMode_StateMachine.c:377-378 | The truncated lower end never exceeds the intended one, and equals it iff own - EPSILON is below 2^31 |
| `Synchrony.WindowExactIff` | MAC/MAC_PowerMode_StateMachine.c:377-381 | Exactly the times within EPSILON are accepted iff own time is below 2^31 + EPSILON |
| `Synchrony.DecodedTimeOnTime` | MAC/ControlPacket.c:272-280 | A near time still passes after a decoding that damages it (also MAC/MAC_PowerMode_StateMachine.c:377-381) |
| `Synchrony.PacketChecked` | MAC/Packets_Handlers.c:330-351 | Create, encode, decode, check between two nodes in sync: no synchronization error, and a collision error iff the sender recorded a collision on the receiver's own slot and channel (also MAC/MAC_PowerMode_StateMachine.c:349-385) |
| `Synchrony.PacketAccepted` | MAC/Packets_Handlers.c:330-351 | The same over every filler and every further behaviour of the radio (also MAC/MAC_PowerMode_StateMachine.c:349-385) |
| `Synchrony.PacketRejected` | MAC/MAC_PowerMode_StateMachine.c:364-385 | A packet with another slot or frame is never accepted |
| `Synchrony.OnTimeIff` | MAC/MAC_PowerMode_StateMachine.c:377-380 | Which times pass for every own time, with the truncation to int and the wrap at 2^64 written out |
| `Synchrony.CheckIff` | MAC/MAC_PowerMode_StateMachine.c:364-385 | The verdict on any control packet: collision error iff it names the own slot and channel, otherwise synchronization error iff slot or frame differ or the time does not pass |
| `Synchrony.ReceptionIff` | MAC/MAC_PowerMode_StateMachine.c:349-385 | The same end to end between two nodes whatever their clocks show, with the time as it is decoded |
| `Synchrony.OutOfSyncIff` | MAC/MAC_PowerMode_StateMachine.c:349-385 | For a sender time below 2^56 and a receiver time below 2^31 + EPSILON: a synchronization error iff the packet does not accuse the receiver and the nodes are not in sync |
| `Synchrony.StayInSync` | MAC/MAC_PowerMode_StateMachine.c:156-165 | Whenever two nodes, each at any point of a run of its own, agree on slot, frame and (nearly) network time, they agree again after equally many further slots, each in its own environment; they need not have entered for the same frame |
| `Synchrony.InStepNeverLoseSync` | MAC/MAC_PowerMode_StateMachine.c:345-385 | End to end from there: such nodes never report a synchronization error to each other, and a collision error exactly when the sender has recorded one on the receiver's own slot and channel (create, encode, decode, check; also MAC/MAC_PowerMode_StateMachine.c:156-165) |
| `Synchrony.QuietAccusesNobody` | MAC/MAC_PowerMode_StateMachine.c:308-322 | A sender with nothing to announce accuses no node whose channel is not zero |
| `Synchrony.SameFrameInSync` | MAC/MAC_PowerMode_StateMachine.c:103-131 | In particular nodes that enter for the same frame with near times are in sync after equally many slots |
| `Synchrony.RunClean` | MAC/MAC_PowerMode_StateMachine.c:309-318 | Between executions a collision that is not to be announced is not recorded (also MAC/MAC_StateMachine.c:401-407) |
| `Transitions.MacUpdateIff` | MAC/MAC_StateMachine.c:38-93 | The MAC updater accepts exactly ten changes of state, moves to the proposed state for these and stays for all others, with the verdict for each |
| `Transitions.PowerUpdateIff` | MAC/MAC_PowerMode_StateMachine.c:30-86 | The power-mode updater accepts exactly fourteen, and goes to NONEP without calling it a transition |
| `WaitingLoops.PassiveEndsExactly` | MAC/MAC_PowerMode_StateMachine.c:137-155 | PASSIVE's loop ends iff the slot timer is in use and passes in some turn |
| `WaitingLoops.PassiveUses` | MAC/MAC_PowerMode_StateMachine.c:137-155 | It moves packets in every turn up to and including the first in which the timer passes, and in no other |
| `WaitingLoops.TakenIff` | MAC/MCLMAC.c:364-418 | A message is taken iff its type is 2 to 9 and the two queues together are not full |
| `WaitingLoops.GivenIff` | MAC/MCLMAC.c:430-478 | A packet is handed up iff the ring holds one and the routing layer takes it, and it is the one at the read index |
| `WaitingLoops.TurnMoves` | MAC/MAC_PowerMode_StateMachine.c:145-154 | Every turn takes and hands up what it can, the last one included |
| `WaitingLoops.TotalBounded` | MAC/MCLMAC.c:364-368 | At every point of every run the two send queues together hold at most twice the size of one, although one alone may hold more than it has room for |
| `WaitingLoops.ReceiveExactly` | MAC/MAC_PowerMode_StateMachine.c:387-400 | RECEIVE takes every packet offered until the ring is full or the slot timer passes, and ends exactly then |
| `WaitingLoops.SecondAttemptIgnored` | MAC/MAC_PowerMode_StateMachine.c:349-362 | Without a packet at the first attempt it ends at once, whatever the second attempt brings |
| `WaitingLoops.CfSlotReset` | MAC/MAC_PowerMode_StateMachine.c:133-135 | STARTP and PASSIVE leave the CF slot at zero |
| `NodeTimers.SetIsLeastFree` | utils/timeouts.c:252-310 | The handle a node takes in the model of the state machines is the one `timeout_set` takes in the bank, and afterwards node and bank agree on what is in use, a full bank included |
| `NodeTimers.UnsetIsRemoval` | utils/timeouts.c:180-204 | Releasing does the same to both |
| `NodeTimers.PassedIsHasPassed` | utils/timeouts.c:136-156 | And so does asking |
| `MCLMACs.MCLMAC.UpdatePowerMode` | MAC/MAC_PowerMode_StateMachine.c:30-86 | The updater in place: the new state and verdict for every pair |
| `MCLMACs.MCLMAC.UpdateMacState` | MAC/MAC_StateMachine.c:38-93 | The MAC updater in place |
| `MCLMACs.MCLMAC.ExecuteStart` | MAC/MAC_PowerMode_StateMachine.c:103-131 | The fields end up as in the step of the node as a value |
| `MCLMACs.MCLMAC.ReadQueueElement` | MAC/MCLMAC.c:358-428 | Likewise; fullness is judged on the sum, messages of types outside 2 to 9 are dropped |
| `MCLMACs.MCLMAC.WriteQueueElement` | MAC/MCLMAC.c:430-478 | Likewise, and the packet handed up |
| `MCLMACs.MCLMAC.PassiveTurnOnce` | MAC/MAC_PowerMode_StateMachine.c:137-155 | One turn of the waiting loop; it goes on iff the slot timer has not passed |
| `MCLMACs.MCLMAC.ExecutePassive` | MAC/MAC_PowerMode_StateMachine.c:133-169 | The waiting loop and what follows are the step of the value, for every script |
| `MCLMACs.MCLMAC.SlotPassed` | MAC/MAC_PowerMode_StateMachine.c:156-168 | Slot, frame and network time move on and the slot timer is set again |
| `MCLMACs.MCLMAC.CfTurnOnce` | MAC/MAC_PowerMode_StateMachine.c:188-271 | One turn of the CF loop |
| `MCLMACs.MCLMAC.CfPhase` | MAC/MAC_PowerMode_StateMachine.c:187-272 | The CF loop computes the loop function, for every script |
| `MCLMACs.MCLMAC.ConcludeCf` | MAC/MAC_PowerMode_StateMachine.c:274-297 | What is made of the flags |
| `MCLMACs.MCLMAC.ExecuteActive` | MAC/MAC_PowerMode_StateMachine.c:171-299 | ACTIVE in place is the step of the value |
| `MCLMACs.MCLMAC.SendDataPacket` | MAC/Packets_Handlers.c:477-594 | Control packets first |
| `MCLMACs.MCLMAC.DrainQueues` | MAC/MAC_PowerMode_StateMachine.c:324-340 | The sending loop computes the drain and terminates: each turn ends it or takes one packet off the total queued |
| `MCLMACs.MCLMAC.CreateControlPacket` | MAC/Packets_Handlers.c:330-351 | The control packet holds the fields of the node as they are |
| `MCLMACs.MCLMAC.ExecuteTransmit` | MAC/MAC_PowerMode_StateMachine.c:301-343 | TRANSMIT in place is the step of the value, with the packets sent |
| `MCLMACs.MCLMAC.HearControl` | MAC/MAC_PowerMode_StateMachine.c:348-357 | At which of two attempts a control packet was heard, and what it decoded to |
| `MCLMACs.MCLMAC.CheckReceived` | MAC/MAC_PowerMode_StateMachine.c:364-385 | The checks in place, collision before synchronization |
| `MCLMACs.MCLMAC.ReceivePackets` | MAC/MAC_PowerMode_StateMachine.c:387-400 | The receiving loop computes the loop function |
| `MCLMACs.MCLMAC.ExecuteReceive` | MAC/MAC_PowerMode_StateMachine.c:345-404 | RECEIVE in place is the step of the value |
| `MCLMACs.MCLMAC.ExecuteFinish` | MAC/MAC_PowerMode_StateMachine.c:406-429 | FINISHP in place is the step of the value |
| `MCLMACs.MCLMAC.ExecutePowerMode` | MAC/MAC_PowerMode_StateMachine.c:89-436 | Any state in place is the step of the value |
| `MCLMACs.MCLMAC.HandleReturn` | MAC/MAC_StateMachine.c:386-410 | What the supervisor does about each return value |
| `MCLMACs.MCLMAC.EnterMediumAccess` | MAC/MAC_StateMachine.c:364-379 | The way in |
| `MCLMACs.MCLMAC.SuperviseOnce` | MAC/MAC_StateMachine.c:383-415 | One turn of the supervisor loop, and what follows the last |
| `MCLMACs.MCLMAC.RunMediumAccess` | MAC/MAC_StateMachine.c:363-417 | For every environment the fields end up as the run of the value does, so every theorem on runs holds of them |

## Left out

- ReceivedInOrder: says nothing of which of the packets stored in the first half is handed up, beyond the first half ring of deliveries, other than that it was stored at that position.
- SentInOrder: says nothing of the contents of the queues once one of them has overrun; from then on the C program has written outside its array.
- ArbitrationExact: the bound of 256 addressed messages is that of the uint8_t counter; `Arbitration` covers the rest.
- StoredSlotIsTaken: covers rows of fewer than eight octets; for longer rows the stored number can name a slot of any kind, and only `StoredSlotExactIff` is stated.
- RiotRemainingExactIff: the RIOT variant of the multiplexer is modelled in its arithmetic only; the step system has the Linux handler, and there the clock stands still while the handler runs.
- DataPackets.DataPacket.GetByteString: with more than 238 bytes of data the Linux build writes past its byte string, where the model drops what does not fit, as the block arrays of RIOT do.
- DataPackets.DataPacket.Construct: with a size field beyond 238 both builds read what is not there; the model fills in arbitrary octets, and the decoder as a function answers None.
- MCLMACs.MCLMAC.TimeoutSet: the node sees the timeout bank as the set of handles in use, with expiry decided by the scripts; `NodeTimers` shows that the bank does the same between two calls, but no run of both together is modelled.
- Floating-point rounding: doubles are real numbers.
- `assert` statements of the C code, which stop the program: the model goes on where they would fail (more packets queued than slots).
- The counters of the queues and rings, uint8_t or uint16_t in the code, are unbounded in the model.
- The radio, the network device and the reception loops of the driver; reception is a nondeterministic optional packet, CF messages and data packets arriving already decoded, control packets as bytes.
- The `NATIVE` and `TESTING` variants.
- `ipc-queues/ipc-queues.c`: the upper layers are a nondeterministic optional packet per turn, already decoded, and a flag that says whether the routing layer takes one.
- `malloc`, `sigaction`, `timer_create`, `ztimer` and the internals of `memarray`: blocks are handed out last in, first out, and freeing a block overwrites its link.
- START, INITIALIZATION and the first-node branches of SYNCHRONIZATION and TIMESLOT_AND_CHANNEL_SELECTION.
- The wall-clock conversions of SYNCHRONIZATION, its slot and frame timers (events of the script) and `_selected_slots_neighbors`.
- The retry of STARTP after a failed execution: STARTP never fails.
- Termination of the waiting loops of PASSIVE, ACTIVE, RECEIVE and MEDIUM_ACCESS, which wait for the environment: a script that ends leaves the node waiting. The list walks, searches and the sending loop of TRANSMIT terminate.
- The destination of the CF messages a node sends, and the durations of slots and frames.
- On RIOT `controlpacket_get_packet_bytestring` allocates one byte more than it fills; that byte is not modelled.
- The unrolled assignments that store and read the octets of one field appear as one loop and one function.
- Setters, getters, and init, clear and destroy pairs.
