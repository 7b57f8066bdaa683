# Verification of the ixgbe 82599 descriptor rings

A Dafny model of the parts of this userspace Intel 82599 driver in which driver and NIC share
memory, with proofs of what every run keeps:

- the **transmit queue** (`tx_clean` and `transmit` of `send/through.c`, in the form of `tx_batch` in
  `send/init.c`): reclaim in batches by testing one done bit, fill the ring, publish the tail;
- the **receive queue** (`start_rx_queue` and `rx_batch` of `recv/init.c`): poll the done bit, hand the
  buffer over, refill the slot, publish the tail;
- the **buffer pool** both use (`send/lib.c`, `recv/lib.c`): a stack of free ids over one DMA region;
- the **packet template** and its IPv4 header checksum (`send/through.c`).

`dafny verify dfyconfig.toml` checks everything.

## How it is built

Each queue is written twice. `TxModel` and `RxModel` are FIFO queues with unbounded counters and no
rings: a state, the atomic actions of driver, device and client, when each may happen, and theorems
about every sequence of actions. `TxQueue` and `RxQueue` are the imperative drivers: classes with the
descriptor array, the pointer array, the wrapped indices, the device registers and the pool, whose
methods keep the loops, tests and stores of the source. A ghost field records the actions that have
happened. `TxSimulation` and `RxSimulation` say how ring, registers and memory represent the queue and
prove that each concrete step is one permitted action; so the run theorems hold for the classes.

The device acts between any two iterations of a driver loop, any number of times (`DeviceRuns`). On
transmit it reads a descriptor, sending as many bytes of the buffer as the length in it says
(`DeviceFetch`), and finishes with it (`DeviceComplete`) in separate steps, with any delay, as the
write-back threshold set at send/init.c:115 allows; it writes back only descriptors that carry the
report-status flag, and a write-back leaves anything in the other fields. Whether the driver sets that
flag is a parameter of the transmit queue.
It finds buffers by the physical address in the descriptor. Descriptors are raw words with one
accessor per union field, so that `olinfo_status` and `status`, or `hdr_addr` and `status_error`, are
the same bits. The client owns a set of buffer ids: it may offer, free or write only buffers it holds,
and offers no packet whose 16-bit length exceeds the bytes of its buffer. Device and client are taken
to stay within the entry of a buffer when they write to it, and the device reports no length beyond it.

Ring size, batch size, pool size, entry size, base address, page table and the initial bytes of the
buffers are parameters. Queues are separate objects.

## Where the shipped lines differ

The queue classes follow the commented-out `tx_batch` where `send/through.c` differs from it. For each
difference `ShippedLines`, `RingIndex` or `Descriptors` proves exactly when it does no harm:

- send/through.c:146 compares `tx_index` with its own successor, so a full ring is never noticed
  (`OwnSuccessorTestIff`). `FillUnchecked` is the loop with that test, on the same ring and memory as the
  queue class. Afterwards the queue is in a permitted state, and its index arithmetic counts what is in
  flight, if and only if everything offered fits with one slot empty; otherwise it counts that less
  whole laps. Every packet in flight still has its slot if and only if at most n are in flight
  (`UncheckedFillIff`, `FullRingLooksEmpty`).
- send/through.c:99-133 does not store `clean_index` back. `CleanFromStored` is the loop started from any
  index stored earlier, whatever driver, client and device have done since; the ring still shows the
  pointers of buffers freed up to a lap ago. Unless it finds no batch reported from there on, each id
  stays in one place if and only if nothing from that packet on has been cleaned, and the clean
  is a reclaim of the oldest buffers in flight if and only if the index is where the last clean ended
  (`UnsavedCleanIff`, `UnsavedCleanFreesHeldBuffer`).
- send/through.c:28 leaves out the report-status flag. A run can get a buffer back from the device if
  and only if some size sets that bit by itself (`ReclaimPossibleIff`), which no size below 2^27 does
  (`NoReportIff`); without, no clean ever finds anything and after n-1 packets no call accepts any
  (`SilentQueueIsStuck`, `SilentCallAcceptsNone`).
- send/lib.c:95-96 and recv/lib.c:92-93 assign `num_entries` twice and `buf_size` never
  (`UnassignedBufSizeIff`); the pool class uses the entry size.
- recv/init.c:34 chooses 1012 ring entries, not a power of two (`WrapIsSuccessorIff`, `Wrap1012Fails`);
  the receive class requires a power of two.

`init_mempool` takes the packet size from the command line (send/through.c:64-72). The device sends that
many bytes of the template, so what it sends verifies if and only if the size, modulo 65536, is at
least 34, the end of the IPv4 header (`TemplateVerifiesIff`; 20 fails, `ShortPacketDoesNotVerify`); and
the buffers may be offered at all only if it is within them (`StartSender`).

`rx_batch` is modelled as written, including two surprises. It does not stop at the first slot that is
not done, so the returned number counts polls and `bufs` may have holes where packets arrive during the
call (`Handed`, `PolledAs`). And
when the pool is empty it returns -1 without saving `rx_index`: if the same call had refilled a slot
before, the queue is lost, its driver polling a slot that the device can never fill
(`DeliversAfterGivingUpIff`, `GivingUpIsHarmlessIff`, `LostIsReached`).

## Model

| member | source | states |
|---|---|---|
| RingIndex.WrapIsSuccessorIff | send/through.c:26 | `wrap_ring` is the cyclic successor on every index of a ring of any size if and only if the size is a power of two and at most 65536 |
| RingIndex.BitAndIsBitwise | send/through.c:26 | a bit of `a & b` is set exactly when it is set in `a` and in `b` |
| RingIndex.Wrap1012Fails | recv/init.c:34 | the receive ring size is not a power of two, and index 3 wraps to 0 |
| RingIndex.WrapVisitsEverySlotOnce | recv/init.c:182 | on a power-of-two ring, n steps of `wrap_ring` from any slot meet every slot exactly once and return |
| RingIndex.MaskIsSlot | send/through.c:26 | for a power of two, masking any number with n-1 is reduction modulo n |
| RingIndex.WrapSlot | send/init.c:149 | `wrap_ring` on the slot of a packet gives the slot of the next packet, over any number of laps |
| RingIndex.SlotIsMod | recv/init.c:182 | the slot of the k-th packet is k mod n |
| RingIndex.CleanableIsDistance | send/init.c:158-161 | the subtraction with sign fix recovers the unwrapped number of packets in flight |
| RingIndex.CleanableLosesLaps | send/through.c:106-109 | for any number of packets in flight, fitting or not, it gives that number less whole laps |
| RingIndex.CleanupToIsLastOfBatch | send/init.c:165-168 | the conditional subtraction gives the slot of the last packet of the oldest batch |
| Descriptors.TxFreshness | send/init.c:196-198 | a written transmit descriptor reads as not done whatever the size, carries the length, and asks for a report exactly when flags or size say so; a write-back and the memset pattern read as done |
| Descriptors.TxDataWords | send/init.c:196-198 | the three words written, as numbers: the address, the length with flags 0x2B300000 (0x23300000 without report-status), and the length from bit 14 |
| Descriptors.TxLayout | send/ixgbe.h:3230-3241 | which bits of the raw words each transmit field, flag and status bit is |
| Descriptors.OnWireTransmits | send/through.c:153-155 | what the device sends is the first bytes of the buffer, as many as the low 16 bits of the length say: all of the length up to 65535 |
| Descriptors.NoReportIff | send/through.c:28 | with the shipped flags a descriptor asks for a report if and only if the size itself has that bit, which no size below 2^27 has |
| Descriptors.RxFreshness | recv/init.c:216-217 | writing `hdr_addr = 0` gives an all-zero second word and clears the aliased done bit; a write-back sets DD and EOP and its length is read back intact |
| Descriptors.RxLayout | recv/ixgbe.h:3254-3282 | which bits of the raw words the receive address, DD and EOP are |
| Descriptors.RxExample | recv/ixgbe.h:3254-3282 | the write-back of a 1500-byte packet with VLAN tag 7, as numbers |
| Mempool.Pool.constructor | send/lib.c:85-109 | all ids free, id i at position i; every buffer at its pointer with its id, physical address, size 0 and bytes as found; entry size 0 stands for 2048 |
| Mempool.Pool.InitialiseAll | send/lib.c:99-106 | the loop sets up the stack and every buffer header without touching its neighbours |
| Mempool.Pool.AllocPktBufBatch | send/lib.c:111-121 | pops min(num, free) ids from the top, in order, and returns their pointers; the rest of the array is untouched |
| Mempool.Pool.AllocPktBuf | send/lib.c:123-128 | NULL exactly when the stack is empty, otherwise the top buffer |
| Mempool.Pool.PktBufFree | send/lib.c:131-135 | pushes exactly the id the pointer was allocated under, within the stack's room |
| Mempool.AllocatedBuffersDisjoint | send/lib.c:116-119 | the buffers of one allocation lie in pairwise disjoint regions |
| Mempool.TransferLeavesEntryIff | send/init.c:196-197 | a device transfer reaches into another entry if and only if it is longer than the entry without its 64-byte header |
| Mempool.Layout.PtrIsOffset | send/lib.c:101 | the pointer of buffer i is the base plus i entries |
| Mempool.Layout.DataFollowsHeader | send/struct.h:1-7 | the bus address of the data of buffer i is the translation of base plus i entries, plus 64 |
| Mempool.EntryAt | send/lib.c:118 | base plus id times entry size is the pointer of that id |
| Mempool.RegionCoversPoolIff | send/lib.c:62-64 | the mapped region covers all entries if and only if `num_entries * entry_size` does not wrap in 32 bits |
| Mempool.RoundedIsLeast | send/lib.c:62-64 | the mapped size is the least multiple of 2 MiB not below the size asked for |
| Mempool.VirtToPhysIs | send/lib.c:25-45 | the translation is the frame in bits 0-54 of the page's entry, at the same offset, whatever the bits above |
| Mempool.BuffersArePhysicallyContiguous | send/lib.c:42-44 | on a page-aligned base, with entry sizes that divide the page size, byte k of a buffer is at its physical address plus k under any page table |
| Mempool.DistinctFramesAreGood | send/lib.c:25-45 | distinct frames for the pool's pages give distinct physical addresses to distinct buffers |
| Mempool.ExactlyOnePlace | send/lib.c:111-135 | conservation puts each id in exactly one of free stack, ring and client, once |
| Mempool.ConservedCount | send/lib.c:111-135 | free, in the ring and held add up to the pool size |
| Checksum.CalcIpChecksum | send/through.c:52-62 | the loop returns the complement of the ones' complement sum of the 16-bit words; the accumulator is that sum after every iteration |
| Checksum.WordsAppend | send/through.c:54-55 | the words of two pieces, the first of even length, are those of the one followed by those of the other |
| Checksum.SumAppend | send/through.c:54-60 | the sum over two pieces is the sum of their sums |
| Checksum.SumOfOne | send/through.c:54-55 | the sum of one word is that word, and of none 0 |
| Checksum.ChecksumOfOne | send/through.c:52-62 | the checksum of any two bytes, as a number, and of none, 0xFFFF |
| Checksum.Rfc1071Example | send/through.c:52-62 | the worked example of section 3 of RFC 1071, as numbers, in both byte orders |
| Checksum.CarryStep | send/through.c:56-59 | one iteration stays within 16 bits and equals ((S-1) mod 65535)+1 of the sum so far, 0 only for 0 |
| Checksum.DeferredCarriesAgree | send/through.c:54-60 | folding each carry at once equals adding all carries back at the end |
| Checksum.OrderIndependent | send/through.c:54-60 | the checksum depends only on the multiset of words |
| Checksum.VerifiesIff | send/through.c:74 | a word stored over a zeroed field makes the header verify if and only if it is the computed checksum, or 0xFFFF where that is 0 |
| Checksum.StoredChecksumVerifies | send/through.c:74 | storing the computed checksum at any even offset makes recomputation return 0 |
| Checksum.ByteOrderIndependent | send/through.c:55-61 | little-endian loads and store leave the same two bytes as network-order loads and store, for every input |
| Template.InitMempool | send/through.c:64-81 | all ids free exactly once in reversed order; every buffer in memory has the size, the 46 template bytes with the checksum 0x62, 0x3F in bytes 24 and 25, and its other bytes as before; its header verifies |
| Template.FillBuffer | send/through.c:72-74 | size, template bytes and, in bytes 24 and 25, the checksum 0x62, 0x3F are stored in one buffer and no other |
| Template.FillAll | send/through.c:70-76 | the first loop empties the pool, fills every buffer and remembers the pointers in order |
| Template.FreeAll | send/through.c:77-79 | the second loop frees each id once, leaving the stack reversed |
| Template.FilledVerifies | send/through.c:72-74 | the header in bytes 14 to 33 verifies, and every byte but 24 and 25 is the template's or as before |
| Template.FilledBytes | send/through.c:72-74 | bytes 24 and 25, the header checksum field of section 3.1 of RFC 791, hold the checksum of bytes 14 to 33 with that field zero, low byte first |
| Template.TemplateBytes | send/through.c:34-50 | the 46 bytes of the template, as numbers, with the lengths 1196 and 1176 in network order |
| Template.TemplateChecksum | send/through.c:52-62 | the checksum of the template header is 0x3F62 |
| Template.SentVerifiesIff | send/through.c:72-74 | of a buffer that verifies, the bytes sent verify if and only if the 16-bit length reaches the end of the header |
| Template.WireVerifiesIff | send/through.c:135-158 | the same of every packet on the wire, in every run from verifying buffers with a client that writes only such |
| Template.EveryPacketOnTheWireVerifies | send/through.c:135-158 | in every run of the queue from buffers that all verify and whose sizes reach past the header, with a client that writes only such packets, every packet the device sends verifies |
| Template.QueueSendsVerifyingIff | send/through.c:135-158 | the same if-and-only-if of the queue class: in every state its methods reach, for every packet on its real wire |
| Template.TemplateVerifiesIff | send/through.c:64-81 | over the template pool with nothing else written, every packet sent verifies if and only if the size given, modulo 65536, is at least 34 |
| Template.ShortPacketDoesNotVerify | send/through.c:166-167 | a failing size: with 20 the device sends 20 bytes, which do not verify |
| Template.StartSender | send/through.c:167-184 | template initialisation followed by queue set-up gives a queue whose every buffer is free and verifies, and may be offered if and only if the size is within the buffer |
| TxModel.StepKeepsInv | send/init.c:151-202 | every action of driver, device and client keeps order, contents, one empty slot and conservation |
| TxModel.TransmitIsFifo | send/init.c:186-200 | in every run the wire is an in-order prefix of the accepted packets: of each, the first bytes of its contents as accepted, as many as the low 16 bits of its length say |
| TxModel.ReclaimFollowsCompletion | send/init.c:171-181 | in every run the driver frees the accepted buffers oldest first, each once, never more than the device has finished with |
| TxModel.BuffersAreConserved | send/through.c:91-158 | in every run each id is in one place and the free stack lacks at most n-1 buffers besides those held |
| TxModel.QuietReclaimIsExact | send/init.c:157-185 | with a quiet device one call frees exactly the reported batches; with reporting descriptors these are B * floor(d/B) of d completed buffers, leaving fewer than B |
| TxModel.DrainedRingAcceptsAll | send/init.c:187-191 | with reporting descriptors, once everything in flight is completed, a call offering up to n-B packets accepts them all |
| TxModel.ReclaimPossibleIff | send/through.c:28 | from a fresh queue whose buffers the client does not rewrite, some run reclaims a buffer if and only if flags or some buffer's size ask for a report |
| TxModel.SilentQueueIsStuck | send/through.c:28 | with neither, in every run no buffer is reclaimed and at most n-1 packets are accepted in all |
| TxModel.SilentCallAcceptsNone | send/through.c:28 | once n-1 such packets are in flight, a call frees nothing and accepts nothing, whatever the device does |
| TxModel.WireKeeps | send/through.c:135-158 | if all initial and client-written contents have a property, so have the contents of every packet as accepted, and each packet sent is such contents cut to its length |
| TxModel.TransmittedInParts | send/init.c:151-202 | cleaning, filling and publishing compose, with device steps anywhere between, to the effect stated for the whole call |
| TxSimulation.DoneIffCompleted | send/init.c:169-171 | over all laps, a slot reads as done exactly when the device completed the last packet put there, in flight or already freed, and that packet asked for a report |
| TxSimulation.InFlightSlot | send/init.c:193 | the pointer array holds, for each packet in flight, its buffer, which is neither free nor held |
| TxSimulation.PendingDescriptor | send/init.c:196-198 | until the device is done with a packet, its slot holds exactly the three words written for it |
| TxSimulation.FullIff | send/init.c:188-191 | `clean_index == next_index` exactly when n-1 packets are in flight |
| TxSimulation.AppendSimulates | send/through.c:150-155 | with or without room, the stores of one iteration put one packet in the ring in place of the one a lap before it |
| TxSimulation.DeviceTests | send/init.c:140-141 | wrapped head and tail differ exactly when published packets are left to read, and likewise for reporting |
| TxSimulation.EnqueueSimulates | send/init.c:192-198 | with room in the ring, the stores of one iteration are one Enqueue: one packet more, no other slot in flight disturbed |
| TxSimulation.ReclaimSimulates | send/init.c:174-175 | the pointer in the clean slot is the oldest packet's buffer and freeing it reclaims that packet |
| TxSimulation.FetchedFrom | send/through.c:153-155 | the head descriptor's length lies within the buffer it names, and sending so many bytes sends the oldest unsent packet as accepted |
| TxSimulation.CompleteSimulates | send/ixgbe.h:3230-3241 | finishing with the oldest descriptor read, written back if it asks for that, completes that packet whatever else the write-back overwrites in it |
| TxQueue.TxQueue.constructor | send/init.c:90-146 | queue init and start give the empty queue over the whole pool: descriptors all ones, indices and registers 0 |
| TxQueue.TxQueue.PollBatch | send/init.c:158-171 | the distance test and one done bit together hold exactly when the last packet of the batch asked for a report and the device has completed the whole batch |
| TxQueue.TxQueue.ReclaimSlot | send/through.c:91-95 | freeing the buffer of the clean slot reclaims the oldest packet, once the device has reported it or a later one |
| TxQueue.TxQueue.ReclaimBatch | send/init.c:173-181 | the inner loop frees exactly the B oldest buffers in order and terminates, with the device running |
| TxQueue.TxQueue.TxClean | send/through.c:99-133 | frees exactly the batches whose last packet is reported by the time it stops, oldest first up to the first that is not, and stores the clean index |
| TxQueue.TxQueue.FillSlot | send/init.c:192-198 | the stores of one iteration enqueue one packet: pointer, address, flags, length and payload length in the slot of `tx_index` |
| TxQueue.TxQueue.FillRing | send/init.c:186-199 | accepts buffers in order until none is left or n-1 are in flight |
| TxQueue.TxQueue.PublishTail | send/init.c:200 | the tail write publishes everything enqueued |
| TxQueue.TxQueue.Transmit | send/init.c:151-202 | the whole new state: exactly min(offered, n-1-inflight after cleaning) accepted in order and published, reported batches freed, all else unchanged |
| TxQueue.TxQueue.DeviceFetch | send/through.c:153-155 | one device read of the ring is one Fetch of the queue exactly when head and tail differ, sending the first bytes of the oldest unsent packet, and otherwise changes nothing |
| TxQueue.TxQueue.DeviceComplete | send/init.c:169-171 | one device step finishes one packet exactly when one read is left to finish, writing back only a descriptor that asks for it, and otherwise changes nothing |
| TxQueue.TxQueue.DeviceRuns | send/init.c:157-200 | any number of device steps leave all but the device's own progress unchanged |
| TxQueue.TxQueue.ClientAlloc | send/lib.c:111-121 | an allocation moves the top ids to the client and writes their pointers, leaving ring and further entries untouched |
| TxQueue.TxQueue.ClientFree | send/lib.c:131-135 | a free moves the id from the client to the top of the stack, ring untouched |
| TxQueue.TxQueue.ClientWrite | send/through.c:72-74 | writing to a held buffer changes its contents only, ring untouched |
| TxQueue.TxQueue.WireIsFifo | send/through.c:135-158 | in every state reached through the methods, the wire is a prefix of the accepted packets: of each, its first bytes, as many as its 16-bit length |
| TxQueue.TxQueue.PendingWords | send/init.c:196-198 | in every such state, the descriptor of a packet the device is not done with holds address, flags and length as written |
| TxQueue.TxQueue.SilentQueueIsStuck | send/through.c:28 | in every such state of a queue whose flags and sizes ask for no report, no packet's descriptor has ever been written back, nothing is reclaimed and at most n-1 packets are accepted |
| TxQueue.TxQueue.NoBufferLeaks | send/through.c:91-158 | in every such state, inside calls too, stack, ring and client share the buffers out |
| TxQueue.TxQueue.DeviceWindowInFlight | send/init.c:186-200 | no slot the device may still read or write back is the one the driver fills next, and its buffer is neither free nor held |
| RxModel.StepKeepsInv | recv/init.c:184-229 | every action of driver, device and client keeps order, contents and conservation |
| RxModel.ReceiveIsFifo | recv/init.c:198-223 | in every run the packets handed over are a prefix of the packets stored by the device, in order, unaltered, none longer than the bytes handed over |
| RxModel.DeliveredStaysUntilTouched | recv/init.c:198-223 | in every run the k-th buffer handed over is the client's and holds the k-th packet to arrive until the client frees it or writes to it |
| RxModel.BuffersAreConserved | recv/init.c:208-219 | in every run each id is in one place, n of them in the ring |
| RxModel.OneSpareBufferLoses | recv/init.c:212-215 | from every fresh queue of three or more slots with one spare buffer, two arrivals, one delivery and a failed allocation lose the queue |
| RxModel.LostIsReached | recv/init.c:212-215 | an instance: four slots and five buffers |
| RxModel.LostStaysLost | recv/init.c:212-215 | once a call has given up after refilling, no run ever delivers again |
| RxModel.DeliversAfterGivingUpIff | recv/init.c:212-215 | after a call gives up, some continuation delivers another packet if and only if that call had refilled nothing and the client holds a buffer |
| RxModel.GivingUpIsHarmlessIff | recv/init.c:212-215 | a call that gives up has used every free buffer, of which there were fewer than num, and leaves the queue usable if and only if there was none |
| RxModel.QuietCallDeliversWaiting | recv/init.c:198-227 | with a quiet device a call delivers exactly min(num, waiting) packets, the oldest ones, in order |
| RxSimulation.StartedRepresented | recv/init.c:162-177 | start-up overwrites every descriptor, so no slot still reads as done from the memset |
| RxSimulation.PolledDoneIff | recv/init.c:199-201 | over all laps the polled slot reads as done exactly when the next packet has arrived and the queue is not lost |
| RxSimulation.DeviceWindowIsDisjoint | recv/init.c:194-227 | the device window never contains the slot being refilled or one refilled and unpublished, nor a free or handed-over buffer |
| RxSimulation.DeviceTest | recv/init.c:176-177 | wrapped head and tail differ exactly when an empty published slot is left |
| RxSimulation.FillSimulates | recv/ixgbe.h:3254-3282 | storing a packet through the head descriptor fills the oldest empty slot and no other |
| RxSimulation.TakeSimulates | recv/init.c:205-219 | length store, hand-over and refill of one slot are one delivery and disturb no other slot |
| RxSimulation.GiveUpSimulates | recv/init.c:209-215 | on an empty pool only the length of the waiting buffer has changed |
| RxQueue.RxQueue.constructor | recv/init.c:91-180 | one buffer posted in every slot in pop order, with its address and a zero second word, head 0, tail on the last slot |
| RxQueue.RxQueue.PostAll | recv/init.c:162-172 | the start-up loop posts the popped buffers slot by slot |
| RxQueue.RxQueue.Refill | recv/init.c:216-218 | the two stores of a refill complete one delivery of the queue |
| RxQueue.RxQueue.TakeSlot | recv/init.c:205-221 | hands over the oldest waiting buffer and refills, or gives up exactly when the pool is empty; of memory, only the length of that buffer changes |
| RxQueue.RxQueue.PollLoop | recv/init.c:198-223 | num polls with packets arriving anywhere between: everything waiting at the call is taken as far as num reaches; a poll writes its own entry of `bufs` exactly when a packet not yet handed over has arrived, so those waiting at the call go to the first entries; the buffers hold the arrived packets in order when the loop ends, even when it gives up |
| RxQueue.FirstPollsHit | recv/init.c:198-219 | while packets that had arrived before the first poll remain, every poll finds one |
| RxQueue.RxQueue.PublishTail | recv/init.c:224-227 | the tail write publishes every refilled slot |
| RxQueue.RxQueue.RxBatch | recv/init.c:184-229 | the effect of a call on queue, `bufs` and the client's buffers: deliveries in order of arrival, each at the entry of the poll that found it, without holes among those waiting at the call; refills, published tail and saved index, or 0xFFFFFFFF with nothing published; at return the buffers handed over hold the arrived packets and those held before are untouched |
| RxQueue.RxQueue.DeviceFill | recv/ixgbe.h:3254-3282 | one device store is one arrival, in the buffer of the oldest empty slot, exactly when head and tail differ, and otherwise changes nothing |
| RxQueue.RxQueue.DeviceRuns | recv/init.c:198-223 | any number of arrivals leave driver state and the client's buffers unchanged |
| RxQueue.RxQueue.ClientAlloc | recv/lib.c:121-126 | NULL exactly when the stack is empty, otherwise the top buffer moves to the client |
| RxQueue.RxQueue.ClientFree | recv/lib.c:129-133 | a free moves the id from the client to the top of the stack, ring untouched |
| RxQueue.RxQueue.DeliveriesAreFifo | recv/init.c:184-229 | in every state reached through the methods, deliveries are a prefix of the arrivals, none longer than its bytes |
| RxQueue.RxQueue.DeliveredStays | recv/init.c:198-223 | the same of the queue class: the memory of each buffer handed over holds its packet until the client frees it or writes to it |
| RxQueue.RxQueue.TailIsBehindIndex | recv/init.c:224-227 | between calls RDT is (rx_index - 1) mod n |
| RxQueue.RxQueue.DeviceWindowOwned | recv/init.c:194-227 | every slot the device may fill holds exactly the descriptor written for it, not done, and names a buffer neither free nor with the client |
| ShippedLines.OwnSuccessorTestIff | send/through.c:145-148 | the shipped full test fires only on a one-slot ring |
| ShippedLines.FillUnchecked | send/through.c:144-156 | the shipped loop never stops early and leaves the ring of a queue with everything offered appended |
| ShippedLines.UncheckedFillIff | send/through.c:144-156 | after it the queue is in a permitted state, and its distance arithmetic right, if and only if the packets fit with one slot empty; the distance is always that in flight less whole laps; nothing in flight is overwritten if and only if at most n are in flight |
| ShippedLines.FullRingLooksEmpty | send/through.c:144-156 | an instance: n buffers of a fresh queue allocated and offered at once make the full ring look empty |
| ShippedLines.CleanFromStored | send/through.c:99-133 | the shipped loops started from an index stored any time before push exactly the buffers of the reported batches from that packet on, freed before or not |
| ShippedLines.StoredReadsAs | send/through.c:106-109 | which packet a stored index stands for: the last one with its slot, less than a lap before the end |
| ShippedLines.UnsavedCleanIff | send/through.c:99-133 | such a clean keeps each id in one place if and only if nothing from its packet on has been cleaned or it frees nothing, and is a reclaim if and only if it starts where the last clean ended or frees nothing |
| ShippedLines.UnsavedCleanFreesHeldBuffer | send/through.c:99-158 | an instance: with a reporting descriptor, send one packet, clean, allocate again, and the next clean pushes the buffer the client holds |
| ShippedLines.UnassignedBufSizeIff | send/lib.c:95-96 | allocation finds the initialised buffers if and only if `buf_size` holds the entry size or there is at most one buffer |

## Left out

- pci.c, vfio.c, huge-page and pagemap system calls: the DMA base and the page table are parameters.
- Link, reset and general register set-up in `do_init_seq`, `init_link`, `init_rx_reg`, `init_tx_reg`, `wait_for_link`: straight-line register writes.
- stats.c, printing, timers, signals, argument parsing and the `main` loops, which ignore how many buffers were accepted; the client here keeps track of what it holds.
- send/app.c, which send/Makefile does not build.
- Packets over several descriptors, which recv/init.c:202-204 only logs.
- RxQueue.RxQueue.constructor: requires at least as many buffers as slots, because with fewer `start_rx_queue` dereferences NULL, and a power of two of slots, which the 1012 of recv/init.c:34 is not: with 1012 `wrap_ring` does not walk the ring (`Wrap1012Fails`).
- Bounds of addresses and of the free-stack counter: they are unbounded naturals; sizes, flags and status words are bit-vectors of the source's widths.
- RxQueue.RxQueue.DeviceFill: takes the buffer's whole contents after the store, because how many bytes the device writes beyond the packet is not visible to the driver.
- ShippedLines.FillUnchecked: the device is quiet during the loop.
- TxQueue.TxQueue.Transmit: requires that no offered packet's 16-bit length exceeds the bytes of its buffer, because the device would then send bytes beyond it, in the worst case of the next entry (`TransferLeavesEntryIff`), which other owners may change meanwhile.
- ShippedLines.CleanFromStored: returns the pointers passed to `buf_free` and leaves the pool alone, because pushing an id twice can run past the end of `free_stack`; `UnsavedCleanIff` says what the pushes do.
- Writes past the end of a buffer's entry: DeviceFill and ClientWrite take contents that fit in it.
- Contents of buffers while they are free: RxBatch does not say they stay as they were.
- Reordering of memory operations by compiler, CPU or bus: the order of the source text is taken as the order of effects.
- Several queues addressed with the stride of recv/init.c:123 and send/init.c:118: queues are separate objects.
