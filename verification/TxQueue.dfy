/** The transmit queue: reclaim in batches, fill the ring, publish the tail, with the device free
    to act between any two steps of the driver's loops. */
module TxQueue {
  import opened Descriptors
  import opened Mempool
  import opened RingIndex
  import opened TxModel
  import opened TxSimulation

  class TxQueue {
    // struct tx_queue
    const pool: Pool
    const numEntries: nat
    const batch: nat
    const report: bool    // whether the flags of the transmit loop include report-status
    const descriptors: array<TxDesc>
    const virtualAddress: array<nat>
    var cleanIndex: nat
    var txIndex: nat

    // The device: head, write-back position and tail, and what it has put on the wire
    var tdh: nat
    var writeBack: nat
    var tdt: nat
    var wire: seq<Packet>

    // The FIFO queue this represents, and how it got there
    ghost const start: State
    ghost var trace: seq<Event>
    ghost var model: State

    ghost function CurrentView(): View
      requires pool.freeStackTop <= pool.freeStack.Length
      reads this`txIndex, this`tdh, this`writeBack, this`tdt, this`wire
      reads pool, pool.freeStack, descriptors, virtualAddress
    {
      View(descriptors[..], virtualAddress[..], txIndex, tdh, writeBack, tdt, wire, pool.Free(), pool.memory)
    }

    /** What holds at every atomic action, inside calls as well as between them. */
    ghost predicate Running()
      reads this`txIndex, this`tdh, this`writeBack, this`tdt, this`wire, this`trace, this`model
      reads pool, pool.freeStack, descriptors, virtualAddress
    {
      && IsPowerOfTwo(numEntries) && 2 <= numEntries <= 0x1_0000
      && 1 <= batch < numEntries
      && pool.freeStack != virtualAddress
      && pool.Valid()
      && Start(start) && Run(start, trace) == Some(model)
      && model.n == numEntries && model.report == report
      && Represents(pool.layout, CurrentView(), model)
    }

    ghost predicate Valid()
      reads this, pool, pool.freeStack, descriptors, virtualAddress
    {
      Running() && cleanIndex == Slot(model.cleaned, numEntries)
    }

    /** `init_tx_queue` and `start_tx_queue` over a pool with every buffer free: descriptors filled
        with ones, all indices and registers 0. */
    constructor (pool: Pool, numEntries: nat, batch: nat, report: bool, ghost mem: seq<Packet>)
      requires pool.Valid() && multiset(pool.Free()) == multiset(AllIds(pool.layout.total))
      requires Holds(pool.layout, pool.memory, mem)
      requires IsPowerOfTwo(numEntries) && 2 <= numEntries <= 0x1_0000
      requires 1 <= batch < numEntries
      ensures Valid() && fresh(descriptors) && fresh(virtualAddress)
      ensures this.pool == pool && this.numEntries == numEntries && this.batch == batch && this.report == report
      ensures model == start && trace == []
      ensures model == State(numEntries, pool.layout.total, report, pool.Free(), {}, mem, [], 0, 0, 0, 0, [])
      ensures cleanIndex == txIndex == tdh == tdt == 0 && wire == []
      ensures descriptors.Length == virtualAddress.Length == numEntries
      ensures forall i :: 0 <= i < numEntries ==>
                descriptors[i] == TxDesc(0xFFFF_FFFF_FFFF_FFFF, 0xFFFF_FFFF, 0xFFFF_FFFF)
    {
      hide IsPowerOfTwo, WellFormed, Layout.Good, Layout.Ptr, AllIds;
      this.pool, this.numEntries, this.batch, this.report := pool, numEntries, batch, report;
      descriptors := new TxDesc[numEntries](_ => TX_ONES);
      virtualAddress := new nat[numEntries];
      cleanIndex, txIndex := 0, 0;
      tdh, writeBack, tdt, wire := 0, 0, 0, [];
      trace := [];
      var s := State(numEntries, pool.layout.total, report, pool.Free(), {}, mem, [], 0, 0, 0, 0, []);
      start, model := s, s;
      new;
      assert Ids(model.InFlight()) == [];
      assert multiset(model.free) + multiset(Ids(model.InFlight())) + multiset(model.held)
             == multiset(AllIds(model.total));
      assert Wire(model.log[..0]) == [];
    }

    /** What `Running` says about sizes and indices. */
    lemma Bounds()
      requires Running()
      ensures IsPowerOfTwo(numEntries) && 2 <= numEntries <= 0x1_0000 && 1 <= batch < numEntries
      ensures descriptors.Length == virtualAddress.Length == model.n == numEntries
      ensures model.cleaned <= model.completed <= model.fetched <= model.published
      ensures model.published <= |model.log| < model.cleaned + numEntries
      ensures txIndex == Slot(|model.log|, numEntries) && tdh < numEntries && writeBack < numEntries
      ensures model.total == pool.layout.total && |model.mem| == model.total && model.report == report
      ensures Inv(model)
    {
      assert |CurrentView().desc| == |CurrentView().va| == numEntries;
    }

    lemma Parts()
      requires Running()
      ensures Start(start) && Run(start, trace) == Some(model)
      ensures pool.Valid() && pool.freeStack != virtualAddress
      ensures Represents(pool.layout, CurrentView(), model)
    {}

    /** The other direction, for methods that keep the definition of `Running` out of sight. */
    lemma StillRunning()
      requires IsPowerOfTwo(numEntries) && 2 <= numEntries <= 0x1_0000 && 1 <= batch < numEntries
      requires pool.Valid() && pool.freeStack != virtualAddress && model.n == numEntries && model.report == report
      requires Start(start) && Run(start, trace) == Some(model)
      requires Represents(pool.layout, CurrentView(), model)
      ensures Running()
    {}

    lemma PollTest(k: nat)
      requires Running() && k < |model.log| <= k + numEntries
      ensures model.n > 0 && Slot(k, model.n) < descriptors.Length
      ensures descriptors[Slot(k, model.n)].Done() <==> k < model.completed && Reports(report, model.log[k])
    {
      DoneIffCompleted(pool.layout, CurrentView(), model, k);
    }

    /** Records an action in the history. */
    ghost method Act(e: Event)
      requires Start(start) && Run(start, trace) == Some(model) && Enabled(model, e)
      modifies this`trace, this`model
      ensures trace == old(trace) + [e] && model == Step(old(model), e)
      ensures Run(start, trace) == Some(model)
    {
      RunSnoc(start, trace, e);
      trace, model := trace + [e], Step(model, e);
    }

    // ---- The device ----

    /** The device reads the descriptor at its head and sends the buffer it names. */
    method DeviceFetch()
      requires Running()
      modifies this`wire, this`tdh, this`trace, this`model
      ensures Running() && old(trace) <= trace
      ensures old(tdh != tdt) <==> Enabled(old(model), Fetch)
      ensures old(tdh != tdt) ==> model == Step(old(model), Fetch)
      ensures old(tdh == tdt) ==> model == old(model) && wire == old(wire)
      ensures old(tdh != tdt) ==>
                && old(model).fetched < |old(model).log| && |wire| == |old(wire)| + 1 && old(wire) <= wire
                && Transmits(old(model).log[old(model).fetched].packet, wire[|wire| - 1])
      ensures DeviceOnly(old(model), model)
    {
      hide Running, Represents, Run, Inv, Start, Pool.Valid, Step, Transmits, Sent, Within;
      Bounds();
      Parts();
      ghost var v := CurrentView();
      var l := pool.layout;
      DeviceTests(l, v, model);
      if tdh != tdt {
        FetchSimulates(l, v, model);
        var d := descriptors[tdh];
        var id :| 0 <= id < l.total && l.DataAddr(id) == d.BufferAddr();
        FetchedFrom(l, v, model, id);
        FetchTransmits(l, v, model, id);
        wire := wire + [Sent(d.DataLength(), pool.memory[l.Ptr(id)].data)];
        tdh := Successor(tdh, numEntries);
        Act(Fetch);
        assert CurrentView() == v.(wire := wire, tdh := tdh);
        StillRunning();
      }
    }

    /** The device is done with the oldest descriptor it has fetched, and writes it back if that
        descriptor asks for a report. */
    method DeviceComplete(rsvd: nat, seed: bv32, status: bv32)
      requires Running()
      modifies this`writeBack, this`trace, this`model, descriptors
      ensures Running() && old(trace) <= trace
      ensures old(writeBack != tdh) <==> Enabled(old(model), Complete)
      ensures old(writeBack != tdh) ==> model == Step(old(model), Complete)
      ensures old(writeBack == tdh) ==> model == old(model)
      ensures DeviceOnly(old(model), model)
    {
      hide Running, Represents, Run, Inv, Start, Pool.Valid, Step;
      Bounds();
      Parts();
      ghost var v := CurrentView();
      DeviceTests(pool.layout, v, model);
      if writeBack != tdh {
        var d := TxWriteBack(rsvd, seed, status);
        ghost var v' := v.(desc := if v.desc[writeBack].ReportsStatus() then v.desc[writeBack := d] else v.desc,
                           writeBack := Successor(writeBack, numEntries));
        TxFreshness(0, 0, report, rsvd, seed, status);
        CompleteSimulates(pool.layout, v, v', model, d);
        if descriptors[writeBack].ReportsStatus() {
          descriptors[writeBack] := d;
        }
        writeBack := Successor(writeBack, numEntries);
        Act(Complete);
        assert CurrentView() == v';
        StillRunning();
      }
    }

    /** Any number of device actions, in any order. */
    method DeviceRuns()
      requires Running()
      modifies this`wire, this`tdh, this`writeBack, this`trace, this`model, descriptors
      ensures Running() && old(trace) <= trace && DeviceOnly(old(model), model)
    {
      var steps: nat := *;
      while steps > 0
        invariant Running() && old(trace) <= trace && DeviceOnly(old(model), model)
      {
        var fetch: bool := *;
        if fetch {
          DeviceFetch();
        } else {
          var rsvd: nat := *;
          var seed: bv32, status: bv32 := *, *;
          DeviceComplete(rsvd, seed, status);
        }
        steps := steps - 1;
      }
    }

    // ---- The driver ----

    /** `buf_free(txq->virtual_address[clean_index])` */
    method ReclaimSlot(slot: nat)
      requires Running() && Enabled(model, Reclaim) && slot == Slot(model.cleaned, numEntries)
      modifies pool`freeStackTop, pool.freeStack, this`trace, this`model
      ensures Running() && old(trace) <= trace
      ensures model == Step(old(model), Reclaim)
    {
      hide Running, Represents, Run, Inv, Start, ReportSeen, Slot, IsPowerOfTwo, AllIds, WellFormed;
      hide Layout.Good, Layout.Ptr;
      Bounds();
      Parts();
      ghost var v, l := CurrentView(), pool.layout;
      FreeIsRepresented(l, v, model);
      ReclaimSimulates(l, v, model);
      pool.PktBufFree(virtualAddress[slot], model.log[model.cleaned].id);
      Act(Reclaim);
      assert CurrentView() == v.(free := pool.Free());
      StillRunning();
    }

    /** The inner loop of `tx_clean`: frees the slots from `clean` to `cleanupTo`, walking the ring. */
    method ReclaimBatch(clean: nat, cleanupTo: nat)
      requires Running() && model.cleaned + batch <= model.completed <= |model.log|
      requires Reports(report, model.log[model.cleaned + batch - 1])
      requires clean == Slot(model.cleaned, numEntries)
      requires cleanupTo == Slot(model.cleaned + batch - 1, numEntries)
      modifies pool`freeStackTop, pool.freeStack, descriptors
      modifies this`wire, this`tdh, this`writeBack, this`trace, this`model
      ensures Running() && old(trace) <= trace
      ensures CleanedFrom(old(model), model) && model.cleaned == old(model.cleaned) + batch
    {
      hide Running, Inv, Step, CleanedFrom, DeviceOnly, Slot, WrapRing, IsPowerOfTwo;
      Bounds();
      ghost var s, done := model, 0;
      CleanedRefl(s);
      var i := clean;
      while true
        invariant Running() && old(trace) <= trace && 0 <= done < batch
        invariant model.cleaned == s.cleaned + done && s.cleaned + batch <= model.completed
        invariant i == Slot(model.cleaned, numEntries)
        invariant CleanedFrom(s, model)
        decreases batch - done
      {
        ghost var before := model;
        DeviceRuns();
        CleanedThenDevice(s, before, model);
        Bounds();
        StillReported(s, model, s.cleaned + batch - 1);
        CleanedThenReclaim(s, model);
        ReclaimSlot(i);
        SlotInjective(s.cleaned + done, s.cleaned + batch - 1, numEntries);
        if i == cleanupTo {
          break;
        }
        WrapSlot(s.cleaned + done, numEntries);
        i := WrapRing(i, numEntries);
        done := done + 1;
      }
    }

    /** The tests of `tx_clean`, looking from packet `c`: whether there is a whole batch from there to
        the end and its last descriptor reads as done, which is when that descriptor asked for a
        report and the device has completed all of that batch. */
    method PollBatch(clean: nat, ghost c: nat) returns (ready: bool, cleanupTo: int)
      requires Running() && c <= |model.log| < c + numEntries && clean == Slot(c, numEntries)
      ensures model.completed <= |model.log|
      ensures ready <==> c + batch <= model.completed && Reports(report, model.log[c + batch - 1])
      ensures ready ==> cleanupTo == Slot(c + batch - 1, numEntries)
    {
      hide Running, Inv, Slot, TxDesc.Done;
      Bounds();
      ready, cleanupTo := false, 0;
      var cleanable := txIndex - clean;
      if cleanable < 0 {
        cleanable := numEntries + cleanable;
      }
      CleanableIsDistance(c, |model.log|, numEntries);
      if cleanable >= batch {
        cleanupTo := clean + batch - 1;
        if cleanupTo >= numEntries {
          cleanupTo := cleanupTo - numEntries;
        }
        CleanupToIsLastOfBatch(c, batch, numEntries);
        PollTest(c + batch - 1);
        ready := descriptors[cleanupTo].Done();
      }
    }

    /** `tx_clean`: while a whole batch is in flight and its last descriptor reads as done, free the
        batch.  It frees exactly the batches whose last entry the device has reported by the time it
        stops looking, oldest first, up to the first that is not. */
    method TxClean()
      requires Valid()
      modifies this`cleanIndex, this`wire, this`tdh, this`writeBack, this`trace, this`model
      modifies pool`freeStackTop, pool.freeStack, descriptors
      ensures Valid() && old(trace) <= trace
      ensures CleanedFrom(old(model), model)
      ensures model.completed <= |model.log| && InBatches(model, old(model.cleaned), model.cleaned, batch)
      ensures model.cleaned - old(model.cleaned) == ReportedBatches(model, old(model.cleaned), batch)
    {
      hide Running, Inv, Step, CleanedFrom, CleanedInBatches, DeviceOnly, InBatches, ReportedBatches, Reports;
      hide Slot, WrapRing, IsPowerOfTwo;
      Bounds();
      ghost var s := model;
      CleaningStarts(s, batch);
      var clean := cleanIndex;
      while true
        invariant Running() && old(trace) <= trace && clean == Slot(model.cleaned, numEntries)
        invariant model.cleaned <= |s.log|
        invariant CleanedInBatches(s, model, batch)
        decreases |s.log| - model.cleaned
      {
        ghost var before := model;
        DeviceRuns();
        CleaningThenDevice(s, before, model, batch);
        Bounds();
        var ready, cleanupTo := PollBatch(clean, model.cleaned);
        if !ready {
          break;
        }
        before := model;
        ReclaimBatch(clean, cleanupTo);
        CleaningOneBatch(s, before, model, batch);
        WrapSlot(model.cleaned - 1, numEntries);
        clean := WrapRing(cleanupTo, numEntries);
      }
      CleaningDone(s, model, batch);
      cleanIndex := clean;
    }

    /** The stores of one iteration of the transmit loop. */
    method FillSlot(buf: nat, next: nat, ghost id: nat)
      requires Running() && Enabled(model, Enqueue(id)) && buf == pool.layout.Ptr(id)
      requires next == Slot(|model.log| + 1, numEntries)
      modifies this`txIndex, this`trace, this`model, descriptors, virtualAddress
      ensures Running() && old(trace) <= trace
      ensures model == Step(old(model), Enqueue(id))
      ensures old(txIndex) < descriptors.Length == virtualAddress.Length && virtualAddress[old(txIndex)] == buf
      ensures id < |old(model).mem|
      ensures descriptors[old(txIndex)] == TxWords(pool.layout.DataAddr(id), old(model).mem[id].size, report)
    {
      hide Running, Represents, Run, Inv, Start, Pool.Valid, Layout.Ptr, Step, TxData, TxWords;
      Bounds();
      Parts();
      ghost var v, l := CurrentView(), pool.layout;
      HeldInMemory(l, v, model, id);
      var b := pool.memory[buf];
      TxDataWords(l.DataAddr(id), b.size, report);
      ghost var v' := v.(va := v.va[txIndex := buf],
                         desc := v.desc[txIndex := TxData(b.bufAddrPhy + DATA_OFFSET, b.size, report)],
                         txIndex := next);
      EnqueueSimulates(l, v, v', model, id);
      virtualAddress[txIndex] := buf;
      var slot := txIndex;
      txIndex := next;
      descriptors[slot] := TxData(b.bufAddrPhy + DATA_OFFSET, b.size, report);
      Act(Enqueue(id));
      assert CurrentView() == v';
      StillRunning();
    }

    /** The client's side of the contract: the pointers are of different buffers, which it holds, and
        no packet is longer than its buffer. */
    ghost predicate OffersHeld(bufs: seq<nat>, ids: seq<nat>)
      reads this`model
    {
      && |ids| == |bufs|
      && (forall i :: 0 <= i < |ids| ==> ids[i] in model.held && bufs[i] == pool.layout.Ptr(ids[i]))
      && (forall i :: 0 <= i < |ids| ==> ids[i] < |model.mem| && Fits(model.mem[ids[i]]))
      && (forall i, j :: 0 <= i < j < |ids| ==> ids[i] != ids[j])
    }

    /** The loop of `transmit`: fills slots until the packets run out or one more would make the
        ring look empty. */
    method FillRing(bufs: seq<nat>, ghost ids: seq<nat>) returns (sent: nat)
      requires Valid() && OffersHeld(bufs, ids)
      modifies this`txIndex, this`wire, this`tdh, this`writeBack, this`trace, this`model
      modifies descriptors, virtualAddress
      ensures Running() && old(trace) <= trace && sent <= |bufs|
      ensures forall i :: 0 <= i < |ids| ==> ids[i] < |old(model).mem|
      ensures AcceptedFrom(old(model), model, ids, sent) && model.cleaned == old(model).cleaned
      ensures sent == |bufs| || |model.log| - model.cleaned == model.n - 1
    {
      hide Running, Inv, Step, Enabled, DeviceOnly, AcceptedFrom;
      hide Offered, IdSet, Slot, WrapRing, IsPowerOfTwo, Layout.Ptr;
      Bounds();
      HeldInRange(model);
      ghost var s := model;
      AcceptedNone(s, ids);
      sent := 0;
      while sent < |bufs|
        invariant Running() && old(trace) <= trace && sent <= |bufs|
        invariant AcceptedFrom(s, model, ids, sent) && model.cleaned == s.cleaned && |model.log| == |s.log| + sent
      {
        ghost var before := model;
        DeviceRuns();
        AcceptedThenDevice(s, before, model, ids, sent);
        Bounds();
        WrapSlot(|model.log|, numEntries);
        var next := WrapRing(txIndex, numEntries);
        FullIff(model);
        if cleanIndex == next {
          break;
        }
        AcceptedThenEnqueue(s, model, ids, sent);
        FillSlot(bufs[sent], next, ids[sent]);
        sent := sent + 1;
      }
    }

    /** `set_reg32(..., IXGBE_TDT(queue_id), txq->tx_index)` */
    method PublishTail()
      requires Running()
      modifies this`tdt, this`trace, this`model
      ensures Running() && old(trace) <= trace
      ensures model == Step(old(model), Publish)
    {
      ghost var v := CurrentView();
      PublishSimulates(pool.layout, v, model);
      tdt := txIndex;
      Act(Publish);
      assert CurrentView() == v.(tdt := tdt);
    }

    /** `transmit`, with the tests and flags of `tx_batch`.  It accepts as many of the offered
        packets as fit beside what is in flight after cleaning with one slot left empty, in order,
        and tells the device about all of them; it frees whole batches of completed buffers. */
    method Transmit(bufs: seq<nat>, ghost ids: seq<nat>) returns (sent: nat)
      requires Valid() && OffersHeld(bufs, ids)
      modifies this`cleanIndex, this`txIndex, this`tdt, this`wire, this`tdh, this`writeBack, this`trace, this`model
      modifies pool`freeStackTop, pool.freeStack, descriptors, virtualAddress
      ensures Valid() && old(trace) <= trace
      ensures Transmitted(old(model), model, ids, sent, batch)
    {
      hide Running, Inv, Step, CleanedFrom, DeviceOnly, AcceptedFrom, Transmitted;
      hide Slot, IsPowerOfTwo, ReportedBatches, InBatches, Layout.Ptr;
      Bounds();
      ghost var s0 := model;
      TxClean();
      ghost var s := model;
      CleanedKeeps(s0, s);
      sent := FillRing(bufs, ids);
      Bounds();
      ghost var full := model;
      PublishTail();
      ghost var published := model;
      DeviceRuns();
      Bounds();
      TransmittedInParts(s0, s, full, published, model, ids, sent, batch);
    }

    // ---- The client ----

    ghost method RecordAllocations(count: nat)
      requires Start(start) && Run(start, trace) == Some(model) && count <= |model.free|
      modifies this`trace, this`model
      ensures Start(start) && Run(start, trace) == Some(model) && old(trace) <= trace
      ensures model == AllocatedMany(old(model), count)
    {
      hide Inv, Step;
      ghost var s := model;
      AllocatedNone(s);
      for i := 0 to count
        invariant old(trace) <= trace && Run(start, trace) == Some(model) && model == AllocatedMany(s, i)
      {
        AllocateOneMore(s, model, i);
        Act(Alloc);
      }
    }

    lemma AllocatedRepresents(v: View, s: State, count: nat)
      requires Represents(pool.layout, v, s) && count <= |s.free| && model == AllocatedMany(s, count)
      requires pool.freeStackTop <= pool.freeStack.Length
      requires CurrentView() == v.(free := s.free[..|s.free| - count])
      ensures Represents(pool.layout, CurrentView(), model)
    {
      FreeStackSimulates(pool.layout, v, s, model);
    }

    /** `alloc_pkt_buf_batch` on behalf of the client. */
    method ClientAlloc(buf: array<nat>, num: nat) returns (count: nat)
      requires Valid() && num <= buf.Length && buf != pool.freeStack && buf != virtualAddress
      modifies pool`freeStackTop, buf, this`trace, this`model
      ensures Valid() && old(trace) <= trace
      ensures count == Min(num, |old(model.free)|)
      ensures forall i :: 0 <= i < count ==> buf[i] == pool.layout.Ptr(old(model.free)[|old(model.free)| - 1 - i])
      ensures forall i :: count <= i < buf.Length ==> buf[i] == old(buf[i])
      ensures model == AllocatedMany(old(model), count)
    {
      hide Running, Represents, Run, Inv, Start, Step, AllIds, WellFormed, Layout.Ptr, Layout.Good, IsPowerOfTwo, IdSet;
      Bounds();
      Parts();
      ghost var s, v := model, CurrentView();
      FreeIsRepresented(pool.layout, v, s);
      count := pool.AllocPktBufBatch(buf, num);
      assert descriptors[..] == v.desc && virtualAddress[..] == v.va;
      assert pool.Free() == s.free[..|s.free| - count];
      RecordAllocations(count);
      AllocatedRepresents(v, s, count);
      StillRunning();
    }

    /** `pkt_buf_free` by the client, of a buffer it holds. */
    method ClientFree(buf: nat, ghost id: nat)
      requires Valid() && id in model.held && buf == pool.layout.Ptr(id)
      modifies pool`freeStackTop, pool.freeStack, this`trace, this`model
      ensures Valid() && old(trace) <= trace
      ensures model == Step(old(model), Release(id))
    {
      hide Running, Represents, Run, Inv, Start, AllIds, WellFormed, Layout.Good, Layout.Ptr;
      Bounds();
      Parts();
      ghost var s, v := model, CurrentView();
      FreeIsRepresented(pool.layout, v, s);
      HeldInRange(s);
      pool.PktBufFree(buf, id);
      Act(Release(id));
      FreeStackSimulates(pool.layout, v, s, model);
      assert CurrentView() == v.(free := model.free);
      StillRunning();
    }

    /** The client fills a buffer it holds, within its entry. */
    method ClientWrite(buf: nat, p: Packet, ghost id: nat)
      requires Valid() && id in model.held && buf == pool.layout.Ptr(id)
      requires DATA_OFFSET + |p.data| <= pool.layout.entrySize
      modifies pool`memory, this`trace, this`model
      ensures Valid() && old(trace) <= trace
      ensures model == Step(old(model), Write(id, p))
    {
      hide Running, Represents, Run, Inv, Start, Layout.Ptr;
      Bounds();
      Parts();
      ghost var v := CurrentView();
      WriteSimulates(pool.layout, v, model, id, p);
      pool.memory := pool.memory[buf := pool.memory[buf].(size := p.size, data := p.data)];
      Act(Write(id, p));
      assert CurrentView() == v.(memory := pool.memory);
      StillRunning();
    }

    // ---- What every state reachable through these methods satisfies ----

    /** The wire carries the accepted packets, in order, with their contents as accepted. */
    lemma WireIsFifo()
      requires Running()
      ensures |wire| <= |Accepted(start, trace)|
      ensures forall k :: 0 <= k < |wire| ==>
                Fits(Accepted(start, trace)[k]) && wire[k] == OnWire(Accepted(start, trace)[k])
      ensures forall k :: 0 <= k < |wire| ==> Transmits(Accepted(start, trace)[k], wire[k])
      ensures forall k :: 0 <= k < |wire| && Accepted(start, trace)[k].size <= 0xFFFF ==>
                wire[k].size == Accepted(start, trace)[k].size
    {
      hide Fits, OnWire, Transmits, Accepted;
      TransmitIsFifo(start, trace);
    }

    /** Until the device is done with a packet, its descriptor holds exactly the words the driver wrote:
        address, flags and length, and the length again as payload length. */
    lemma PendingWords(k: nat)
      requires Running() && model.completed <= k < |model.log|
      ensures var id, size := model.log[k].id, model.log[k].packet.size;
        descriptors[Slot(k, numEntries)] == TxWords(pool.layout.DataAddr(id), size, report)
    {
      hide Running, Represents, Inv, TxWords, Layout.Ptr;
      Bounds();
      Parts();
      PendingDescriptor(pool.layout, CurrentView(), model, k);
    }

    /** With the flags of send/through.c:28 and sizes that do not set the report-status bit, no
        descriptor of a packet is ever written back, so no clean finds anything, nothing is freed,
        and at most n - 1 packets are ever accepted. */
    lemma SilentQueueIsStuck()
      requires Running()
      requires forall id :: 0 <= id < start.total ==> !Reporting(report, start.mem[id].size)
      requires forall i :: 0 <= i < |trace| && trace[i].Write? ==> !Reporting(report, trace[i].packet.size)
      ensures model.cleaned == 0 && Reclaimed(start, trace) == [] && |model.log| <= numEntries - 1
      ensures forall k :: 0 <= k < |model.log| ==> !descriptors[Slot(k, numEntries)].Done()
    {
      hide Reporting;
      SizesNeverChange(start, trace);
      TxModel.SilentQueueIsStuck(start, trace);
      forall k | 0 <= k < |model.log|
        ensures !descriptors[Slot(k, numEntries)].Done()
      {
        PollTest(k);
      }
    }

    /** The free stack, the ring and the client share the buffers out, each in one place; the free
        stack is short of at most n - 1 buffers besides those the client holds. */
    lemma NoBufferLeaks()
      requires Running()
      ensures Conserved(pool.layout.total, pool.Free(), Ids(model.InFlight()), model.held)
      ensures |pool.Free()| >= pool.layout.total - (numEntries - 1) - |model.held|
    {
      ConservedCount(model.total, model.free, Ids(model.InFlight()), model.held);
    }

    /** The device never reads or writes back a slot the driver may refill: the slots from the
        write-back position up to the tail are those of packets in flight. */
    lemma DeviceWindowInFlight(k: nat)
      requires Running() && model.completed <= k < model.published
      ensures model.cleaned <= k < |model.log|
      ensures Slot(k, numEntries) != Slot(|model.log|, numEntries)
      ensures virtualAddress[Slot(k, numEntries)] == pool.layout.Ptr(model.log[k].id)
      ensures model.log[k].id !in model.held && model.log[k].id !in pool.Free()
    {
      Bounds();
      SlotInjective(k, |model.log|, numEntries);
      InFlightSlot(pool.layout, CurrentView(), model, k);
    }
  }
}
