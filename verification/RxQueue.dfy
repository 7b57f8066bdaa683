/** The receive queue: start-up, and the batch loop that polls the done bit, hands buffers over,
    refills slots and publishes the tail, with the device free to store packets between any two
    iterations. */
module RxQueue {
  import opened Descriptors
  import opened Mempool
  import opened RingIndex
  import opened RxModel
  import opened RxSimulation

  /** `return -1` from a function returning uint32_t. */
  const FAILED: nat := 0xFFFF_FFFF

  /** The polls that find a packet, when `seen[i]` packets have arrived by poll `i` and the next one to
      hand over is number `next`. */
  ghost function HitsOf(next: nat, seen: seq<nat>): seq<nat>
  {
    if seen == [] then []
    else
      var i := |seen| - 1;
      var before := HitsOf(next, seen[..i]);
      if next + |before| < seen[i] then before + [i] else before
  }

  /** As long as there are packets that had arrived before the first poll, every poll finds one. */
  lemma {:induction false} FirstPollsHit(next: nat, filled: nat, seen: seq<nat>)
    requires forall i :: 0 <= i < |seen| ==> filled <= seen[i]
    ensures var hits := HitsOf(next, seen);
      && (forall j :: 0 <= j < |hits| ==> hits[j] < |seen| && (next + j < filled ==> hits[j] == j))
      && (next + |hits| < filled ==> |hits| == |seen|)
  {
    if seen != [] {
      FirstPollsHit(next, filled, seen[..|seen| - 1]);
    }
  }

  /** `hits` are the polls that found a packet, so far in a call: exactly those that came when a packet
      not yet handed over had arrived.  `seen` counts the arrivals by each poll. */
  ghost predicate PolledAs(s: State, r: State, hits: seq<nat>, seen: seq<nat>)
  {
    && s.next + |hits| == r.next
    && hits == (if s.lost then [] else HitsOf(s.next, seen))
    && (forall i :: 0 <= i < |seen| ==> s.filled <= seen[i] <= r.filled)
    && (forall i, j :: 0 <= i < j < |seen| ==> seen[i] <= seen[j])
  }

  lemma PolledNone(s: State)
    ensures PolledAs(s, s, [], [])
  {}

  lemma PolledThenDevice(s: State, r: State, q: State, hits: seq<nat>, seen: seq<nat>)
    requires PolledAs(s, r, hits, seen) && q.next == r.next && r.filled <= q.filled
    ensures PolledAs(s, q, hits, seen)
  {}

  lemma PolledHit(s: State, r: State, q: State, hits: seq<nat>, seen: seq<nat>)
    requires PolledAs(s, r, hits, seen) && !s.lost && s.filled <= r.filled
    requires r.next < r.filled && q.next == r.next + 1 && q.filled == r.filled
    ensures PolledAs(s, q, hits + [|seen|], seen + [r.filled])
  {
    assert (seen + [r.filled])[..|seen|] == seen;
  }

  lemma PolledMiss(s: State, r: State, hits: seq<nat>, seen: seq<nat>)
    requires PolledAs(s, r, hits, seen) && s.filled <= r.filled && (s.lost || r.filled <= r.next)
    ensures PolledAs(s, r, hits, seen + [r.filled])
  {
    assert (seen + [r.filled])[..|seen|] == seen;
  }

  /** Every hit is one of the polls made, and the packets that were waiting when the call began go to
      the first entries, without holes. */
  ghost predicate FromTheStart(s: State, hits: seq<nat>, polls: nat)
  {
    forall j :: 0 <= j < |hits| ==> hits[j] < polls && (!s.lost && s.next + j < s.filled ==> hits[j] == j)
  }

  lemma HitsAreFromTheStart(s: State, r: State, hits: seq<nat>, seen: seq<nat>)
    requires PolledAs(s, r, hits, seen)
    ensures FromTheStart(s, hits, |seen|) && forall h :: h in hits ==> h < |seen|
  {
    FirstPollsHit(s.next, s.filled, seen);
  }

  /** What the caller's array holds after a call: exactly the entries at `hits`, in increasing order,
      were written, with the pointers of `ids` in order; the others are holes, left as they were. */
  ghost predicate Handed(l: Layout, was: seq<nat>, now: seq<nat>, hits: seq<nat>, ids: seq<nat>)
  {
    && |now| == |was| && |hits| == |ids|
    && (forall j :: 0 <= j < |hits| ==> hits[j] < |now| && now[hits[j]] == l.Ptr(ids[j]))
    && (forall j, k :: 0 <= j < k < |hits| ==> hits[j] < hits[k])
    && (forall i :: 0 <= i < |now| && i !in hits ==> now[i] == was[i])
  }

  lemma HandedNone(l: Layout, was: seq<nat>)
    ensures Handed(l, was, was, [], [])
  {}

  lemma HandedOneMore(l: Layout, was: seq<nat>, now: seq<nat>, hits: seq<nat>, ids: seq<nat>, i: nat, id: nat)
    requires Handed(l, was, now, hits, ids) && i < |now| && forall h :: h in hits ==> h < i
    ensures Handed(l, was, now[i := l.Ptr(id)], hits + [i], ids + [id])
  {
    var now', hits', ids' := now[i := l.Ptr(id)], hits + [i], ids + [id];
    forall j | 0 <= j < |hits'|
      ensures hits'[j] < |now'| && now'[hits'[j]] == l.Ptr(ids'[j])
      ensures j < |hits| ==> hits'[j] < i
    {
      if j < |hits| {
        assert hits[j] in hits;
      }
    }
    forall k | 0 <= k < |now'| && k !in hits'
      ensures now'[k] == was[k]
    {
      assert i in hits';
      assert forall h :: h in hits ==> h in hits';
    }
  }

  /** The buffers whose pointers are at `hits` hold these packets, in order. */
  ghost predicate HandedPackets(memory: map<nat, PktBuf>, now: seq<nat>, hits: seq<nat>, packets: seq<Packet>)
  {
    && |hits| == |packets|
    && forall j :: 0 <= j < |hits| ==>
         hits[j] < |now| && now[hits[j]] in memory && memory[now[hits[j]]].Contents() == packets[j]
  }

  lemma HandedAreArrivals(l: Layout, v: View, r: State, first: nat, was: seq<nat>, now: seq<nat>, hits: seq<nat>)
    requires Inv(r) && Represents(l, v, r) && first <= r.next && Intact(r, first)
    requires Handed(l, was, now, hits, r.posted[first..r.next])
    ensures HandedPackets(v.memory, now, hits, r.arrivals[first..r.next])
  {
    hide Layout.Ptr, Layout.Good, RingHolds, Conserved;
    forall j | 0 <= j < |hits|
      ensures hits[j] < |now| && now[hits[j]] in v.memory
      ensures v.memory[now[hits[j]]].Contents() == r.arrivals[first..r.next][j]
    {
      var k := first + j;
      assert r.delivered[k] == Delivery(r.posted[k], r.arrivals[k]);
    }
  }

  // ---- The batch loop, on values ----

  /** What holds before poll `i` of a call that began in `s`, in the queue `r` reached so far: `was` and
      `now` are the caller's array then and now, and `rx`, `prev` the loop's two indices. */
  ghost predicate Polling(l: Layout, s: State, r: State, was: seq<nat>, now: seq<nat>, i: nat,
                          rx: nat, prev: nat, hits: seq<nat>, seen: seq<nat>)
  {
    && Inv(s) && Inv(r) && |s.posted| == s.next + s.n && AfterPolls(s, r, i) && r.n == s.n && |seen| == i
    && s.next <= r.next <= |r.posted| && PolledAs(s, r, hits, seen)
    && Handed(l, was, now, hits, r.posted[s.next..r.next])
    && rx == Slot(Polled(r), r.n)
    && prev == if r.next == s.next then rx else Slot(r.next - 1, r.n)
  }

  lemma AtLeastTwoSlots(s: State)
    requires Inv(s)
    ensures s.n >= 2 && |s.posted| == s.next + s.n
  {}

  lemma PollingStarts(l: Layout, s: State, was: seq<nat>, rx: nat)
    requires Inv(s) && rx == Slot(s.saved, s.n) && (!s.lost ==> s.saved == s.next)
    ensures Polling(l, s, s, was, was, 0, rx, rx, [], [])
  {
    hide Inv, AfterPolls, Handed, PolledAs, Slot;
    NoPollsYet(s);
    PolledNone(s);
    HandedNone(l, was);
    AtLeastTwoSlots(s);
    SlotAdd(s.saved, s.n, s.n);
    assert s.posted[s.next..s.next] == [];
  }

  lemma PollingThenDevice(l: Layout, s: State, r: State, q: State, was: seq<nat>, now: seq<nat>, i: nat,
                          rx: nat, prev: nat, hits: seq<nat>, seen: seq<nat>)
    requires Polling(l, s, r, was, now, i, rx, prev, hits, seen) && DeviceOnly(r, q) && Inv(q) && q.n == r.n
    ensures Polling(l, s, q, was, now, i, rx, prev, hits, seen) && s.filled <= q.filled
  {
    hide Inv, AfterPolls, Handed, PolledAs, DeviceOnly, Slot;
    AtLeastTwoSlots(r);
    AfterPollsBounds(s, r, i);
    DeviceBetweenPolls(s, r, q, i);
    PolledThenDevice(s, r, q, hits, seen);
  }

  lemma PollingHit(l: Layout, s: State, r: State, was: seq<nat>, now: seq<nat>, i: nat,
                   rx: nat, prev: nat, hits: seq<nat>, seen: seq<nat>)
    requires Polling(l, s, r, was, now, i, rx, prev, hits, seen) && Enabled(r, Take) && s.filled <= r.filled
    requires i < |now| && r.next < |r.posted| && IsPowerOfTwo(r.n) && r.n <= 0x1_0000
    ensures Polling(l, s, Step(r, Take), was, now[i := l.Ptr(r.posted[r.next])], i + 1,
                    WrapRing(rx, r.n), rx, hits + [i], seen + [r.filled])
  {
    hide Inv, Step, Stamped, AfterPolls, Handed, PolledAs, Slot, WrapRing, IsPowerOfTwo, Layout.Ptr;
    StepKeepsInv(r, Take);
    AtLeastTwoSlots(s);
    AfterPollsBounds(s, r, i);
    var q := Step(r, Take);
    PollHits(s, r, i);
    HitsAreFromTheStart(s, r, hits, seen);
    PolledHit(s, r, q, hits, seen);
    HandedOneMore(l, was, now, hits, r.posted[s.next..r.next], i, r.posted[r.next]);
    WrapSlot(r.next, r.n);
  }

  lemma PollingMiss(l: Layout, s: State, r: State, was: seq<nat>, now: seq<nat>, i: nat,
                    rx: nat, prev: nat, hits: seq<nat>, seen: seq<nat>)
    requires Polling(l, s, r, was, now, i, rx, prev, hits, seen) && s.filled <= r.filled
    requires r.lost || r.filled <= r.next
    ensures Polling(l, s, r, was, now, i + 1, rx, prev, hits, seen + [r.filled])
  {
    hide Inv, AfterPolls, Handed, PolledAs, Slot;
    AfterPollsBounds(s, r, i);
    PollMisses(s, r, i);
    PolledMiss(s, r, hits, seen);
  }

  lemma PollingFails(l: Layout, s: State, r: State, was: seq<nat>, now: seq<nat>, i: nat, num: nat,
                     rx: nat, prev: nat, hits: seq<nat>, seen: seq<nat>)
    requires Polling(l, s, r, was, now, i, rx, prev, hits, seen) && Enabled(r, GiveUp) && i < num
    ensures |s.posted| == s.next + s.n
    ensures var q := Step(r, GiveUp);
      && GaveUp(s, q, num) && Intact(q, s.next) && s.next <= q.next <= |q.posted|
      && PolledAs(s, q, hits, seen) && FromTheStart(s, hits, num) && |seen| < num
      && Handed(l, was, now, hits, q.posted[s.next..q.next])
  {
    hide Inv, Step, AfterPolls, Handed, PolledAs, GaveUp, Intact, Slot;
    AtLeastTwoSlots(s);
    PollFails(s, r, i, num);
    GaveUpBounds(s, Step(r, GiveUp), num);
    PolledThenDevice(s, r, Step(r, GiveUp), hits, seen);
    HitsAreFromTheStart(s, r, hits, seen);
  }

  lemma PollingEnds(l: Layout, s: State, r: State, was: seq<nat>, now: seq<nat>, num: nat,
                    rx: nat, prev: nat, hits: seq<nat>, seen: seq<nat>)
    requires Polling(l, s, r, was, now, num, rx, prev, hits, seen)
    ensures |s.posted| == s.next + s.n && AfterPolls(s, r, num) && Intact(r, s.next)
    ensures s.next <= r.next <= |r.posted|
    ensures PolledAs(s, r, hits, seen) && FromTheStart(s, hits, num) && |seen| == num
    ensures Handed(l, was, now, hits, r.posted[s.next..r.next])
    ensures r.n > 0 && rx == Slot(Polled(r), r.n)
    ensures prev == if r.next == s.next then rx else Slot(r.next - 1, r.n)
  {
    hide Inv, AfterPolls, Handed, PolledAs, Intact, Slot;
    AtLeastTwoSlots(r);
    AfterPollsBounds(s, r, num);
    HitsAreFromTheStart(s, r, hits, seen);
  }

  // ---- Start-up ----

  lemma PostedEverywhere(l: Layout, desc: seq<RxDesc>, va: seq<nat>, stack: seq<nat>)
    requires PostedTo(l, desc, va, stack, |desc|)
    ensures |va| == |desc| <= |stack|
    ensures forall i :: 0 <= i < |desc| ==>
              var id := stack[|stack| - 1 - i]; desc[i] == RxDesc(l.DataAddr(id), 0) && va[i] == l.Ptr(id)
  {}

  class RxQueue {
    // struct rx_queue
    const pool: Pool
    const numEntries: nat
    const descriptors: array<RxDesc>
    const virtualAddress: array<nat>
    var rxIndex: nat

    // The device: head and tail
    var rdh: nat
    var rdt: nat

    // The queue this represents, and how it got there
    ghost const start: State
    ghost var trace: seq<Event>
    ghost var model: State

    ghost function CurrentView(): View
      requires pool.freeStackTop <= pool.freeStack.Length
      reads this`rdh, this`rdt, pool, pool.freeStack, descriptors, virtualAddress
    {
      View(descriptors[..], virtualAddress[..], rdh, rdt, pool.Free(), pool.memory)
    }

    /** What holds at every atomic action, inside calls as well as between them. */
    ghost predicate Running()
      reads this`rdh, this`rdt, this`trace, this`model
      reads pool, pool.freeStack, descriptors, virtualAddress
    {
      && IsPowerOfTwo(numEntries) && 2 <= numEntries <= 0x1_0000
      && pool.freeStack != virtualAddress
      && pool.Valid()
      && Start(start) && Run(start, trace) == Some(model)
      && model.n == numEntries
      && Represents(pool.layout, CurrentView(), model)
    }

    /** Between calls, `rx_index` is the saved position, and unless the queue is lost nothing
        refilled is unpublished. */
    ghost predicate Valid()
      reads this, pool, pool.freeStack, descriptors, virtualAddress
    {
      Running() && rxIndex == Slot(model.saved, numEntries) && (!model.lost ==> model.saved == model.next)
    }

    lemma Bounds()
      requires Running()
      ensures IsPowerOfTwo(numEntries) && 2 <= numEntries <= 0x1_0000
      ensures descriptors.Length == virtualAddress.Length == model.n == numEntries
      ensures model.saved <= model.next <= model.filled <= model.saved + numEntries - 1
      ensures |model.posted| == model.next + numEntries
      ensures |model.delivered| == model.next && |model.arrivals| == model.filled
      ensures rdh < numEntries && model.total == pool.layout.total && |model.mem| == model.total
      ensures model.lost ==> model.saved < model.next
      ensures Inv(model)
    {
      assert |CurrentView().desc| == |CurrentView().va| == numEntries;
    }

    lemma Parts()
      requires Running()
      ensures Start(start) && Run(start, trace) == Some(model)
      ensures pool.Valid() && pool.freeStack != virtualAddress
      ensures Represents(pool.layout, CurrentView(), model)
      ensures pool.Free() == model.free
    {}

    ghost predicate Constants()
      reads this`model
    {
      && IsPowerOfTwo(numEntries) && 2 <= numEntries <= 0x1_0000
      && descriptors.Length == virtualAddress.Length == model.n == numEntries
      && pool.freeStack != virtualAddress
    }

    lemma AddressInPool(id: nat)
      requires pool.Valid() && id < pool.layout.total
      ensures var l := pool.layout;
        l.Ptr(id) in pool.memory && pool.memory[l.Ptr(id)].bufAddrPhy + DATA_OFFSET == l.DataAddr(id)
    {}

    lemma PollTest()
      requires Running()
      ensures model.n > 0 && Slot(Polled(model), model.n) < descriptors.Length
      ensures descriptors[Slot(Polled(model), model.n)].Done() <==> !model.lost && model.next < model.filled
    {
      PolledDoneIff(pool.layout, CurrentView(), model);
    }

    lemma StillRunning()
      requires IsPowerOfTwo(numEntries) && 2 <= numEntries <= 0x1_0000
      requires pool.Valid() && pool.freeStack != virtualAddress && model.n == numEntries
      requires Start(start) && Run(start, trace) == Some(model)
      requires Represents(pool.layout, CurrentView(), model)
      ensures Running()
    {}

    ghost method Act(e: Event)
      requires Start(start) && Run(start, trace) == Some(model) && Enabled(model, e)
      modifies this`trace, this`model
      ensures trace == old(trace) + [e] && model == Step(old(model), e)
      ensures Run(start, trace) == Some(model)
    {
      RunSnoc(start, trace, e);
      trace, model := trace + [e], Step(model, e);
    }

    // ---- Start-up ----

    /** `init_rx_queue` and `start_rx_queue` over a pool with every buffer free: descriptors filled
        with ones, then one buffer posted in every slot, head 0, tail on the last slot. */
    constructor (pool: Pool, numEntries: nat, ghost mem: seq<Packet>)
      requires pool.Valid() && multiset(pool.Free()) == multiset(AllIds(pool.layout.total))
      requires Holds(pool.layout, pool.memory, mem)
      requires IsPowerOfTwo(numEntries) && 2 <= numEntries <= 0x1_0000
      requires numEntries <= |pool.Free()|
      modifies pool`freeStackTop
      ensures Valid() && fresh(descriptors) && fresh(virtualAddress)
      ensures this.pool == pool && this.numEntries == numEntries
      ensures model == start && trace == []
      ensures model == Started(numEntries, pool.layout.total, old(pool.Free()), mem)
      ensures rxIndex == 0 && rdh == 0 && rdt == numEntries - 1
      ensures descriptors.Length == virtualAddress.Length == numEntries <= |old(pool.Free())|
      ensures forall i :: 0 <= i < numEntries ==>
                var id := old(pool.Free())[|old(pool.Free())| - 1 - i];
                descriptors[i] == RxDesc(pool.layout.DataAddr(id), 0) && virtualAddress[i] == pool.layout.Ptr(id)
    {
      hide Started, Start, Inv, Run, Represents, PostedTo, WellFormed, AllIds, Layout.Good, Layout.Ptr, IsPowerOfTwo;
      this.pool, this.numEntries := pool, numEntries;
      descriptors := new RxDesc[numEntries](_ => RX_ONES);
      virtualAddress := new nat[numEntries];
      rxIndex, rdh, rdt := 0, 0, 0;
      trace := [];
      var s := Started(numEntries, pool.layout.total, pool.Free(), mem);
      start, model := s, s;
      new;
      StartedIsStart(numEntries, pool.layout.total, pool.Free(), mem);
      RunNothing(start);
      PostAll(pool.Free());
      rdt := numEntries - 1;
      PostedEverywhere(pool.layout, descriptors[..], virtualAddress[..], old(pool.Free()));
      StartedRepresented(pool.layout, CurrentView(), old(pool.Free()), model);
      StillRunning();
    }

    /** One iteration: allocate a buffer and post it in slot `i`. */
    method PostNext(ghost stack: seq<nat>, i: nat)
      requires i < numEntries <= |stack| && pool.HasFree(stack[..|stack| - i])
      requires PostedTo(pool.layout, descriptors[..], virtualAddress[..], stack, i)
      requires descriptors.Length == virtualAddress.Length == numEntries && pool.freeStack != virtualAddress
      modifies pool`freeStackTop, descriptors, virtualAddress
      ensures pool.HasFree(stack[..|stack| - (i + 1)])
      ensures PostedTo(pool.layout, descriptors[..], virtualAddress[..], stack, i + 1)
    {
      hide Layout.Ptr, Layout.Good, RxEmpty, AllIds;
      ghost var id, desc, va := stack[|stack| - 1 - i], descriptors[..], virtualAddress[..];
      pool.FreeIdsInRange();
      assert pool.freeStack[|stack| - 1 - i] == id;
      var pb := pool.AllocPktBuf();
      var buf := pb.value;
      assert stack[..|stack| - i][..|stack| - i - 1] == stack[..|stack| - (i + 1)];
      AddressInPool(id);
      descriptors[i] := RxEmpty(pool.memory[buf].bufAddrPhy + DATA_OFFSET);
      virtualAddress[i] := buf;
      PostedOneMore(pool.layout, desc, va, stack, i);
      assert descriptors[..] == desc[i := RxEmpty(pool.layout.DataAddr(id))];
      assert virtualAddress[..] == va[i := pool.layout.Ptr(id)];
    }

    /** The loop of `start_rx_queue`. */
    method PostAll(ghost stack: seq<nat>)
      requires pool.HasFree(stack) && numEntries <= |stack|
      requires descriptors.Length == virtualAddress.Length == numEntries
      requires pool.freeStack != virtualAddress
      modifies pool`freeStackTop, descriptors, virtualAddress
      ensures pool.HasFree(stack[..|stack| - numEntries])
      ensures PostedTo(pool.layout, descriptors[..], virtualAddress[..], stack, numEntries)
    {
      hide Pool.HasFree, Layout.Ptr, RxEmpty;
      assert stack[..|stack|] == stack;
      for i := 0 to numEntries
        invariant pool.HasFree(stack[..|stack| - i])
        invariant PostedTo(pool.layout, descriptors[..], virtualAddress[..], stack, i)
      {
        PostNext(stack, i);
      }
    }

    // ---- The device ----

    /** The device stores an arriving packet in the buffer its head descriptor names, if the head
        has not caught up with the tail.  `data` is all the bytes of the buffer after the store; the
        device is taken not to write past the end of an entry, nor to report more than that. */
    method DeviceFill(length: bv16, data: seq<byte>, lower: nat, status: bv32, vlan: bv16)
      requires Running() && Within(length as bv32, data) && DATA_OFFSET + |data| <= pool.layout.entrySize
      modifies this`rdh, this`trace, this`model, pool`memory, descriptors
      ensures Running() && old(trace) <= trace
      ensures old(rdh != rdt) <==> Enabled(old(model), Fill(length, data))
      ensures old(rdh != rdt) ==> model == Step(old(model), Fill(length, data))
      ensures old(rdh == rdt) ==> model == old(model)
      ensures DeviceOnly(old(model), model)
    {
      hide Running, Represents, Run, Inv, Start, Step, DeviceOnly, Layout.Ptr, IsPowerOfTwo, AllIds, WellFormed;
      hide Within, RxWriteBack, RxDesc.Done, RxDesc.Length, RxDesc.EndOfPacket, RxDesc.PktAddr;
      Bounds();
      Parts();
      ghost var v := CurrentView();
      var l := pool.layout;
      DeviceTest(l, v, model);
      DeviceNone(model);
      if rdh != rdt {
        HeadNamesABuffer(l, v, model);
        var head := descriptors[rdh];
        var id :| 0 <= id < l.total && l.DataAddr(id) == head.PktAddr();
        var p := l.Ptr(id);
        AddressInMemory(l, pool.memory, id);
        var d := RxWriteBack(lower, status, length, vlan);
        RxFreshness(0, lower, status, length, vlan);
        ghost var v' := v.(desc := v.desc[rdh := d], memory := v.memory[p := v.memory[p].(data := data)],
                           rdh := Successor(rdh, numEntries));
        assert Enabled(model, Fill(length, data));
        assert d.Done() && d.EndOfPacket() && d.Length() == length as bv32;
        FillSimulates(l, v, v', model, id, d, length, data);
        FillIsDeviceOnly(model, length, data);
        StoreKeepsWellFormed(l, pool.memory, id, pool.memory[p].(data := data));
        pool.memory := pool.memory[p := pool.memory[p].(data := data)];
        descriptors[rdh] := d;
        rdh := Successor(rdh, numEntries);
        Act(Fill(length, data));
        assert CurrentView() == v';
        StillRunning();
      }
    }

    /** Any number of packets arrive. */
    method DeviceRuns()
      requires Running()
      modifies this`rdh, this`trace, this`model, pool`memory, descriptors
      ensures Running() && old(trace) <= trace && DeviceOnly(old(model), model)
    {
      hide Running, SameOn, Within;
      ghost var s := model;
      DeviceNone(s);
      var steps: nat := *;
      while steps > 0
        invariant Running() && old(trace) <= trace && DeviceOnly(s, model)
      {
        var length: bv16, vlan: bv16 := *, *;
        var status: bv32 := *;
        var lower: nat := *;
        var data: seq<byte> := *;
        if Within(length as bv32, data) && DATA_OFFSET + |data| <= pool.layout.entrySize {
          ghost var r := model;
          DeviceFill(length, data, lower, status, vlan);
          DeviceThenDevice(s, r, model);
        }
        steps := steps - 1;
      }
    }

    // ---- The driver ----

    /** The two stores that refill a slot with the buffer just allocated: the pointer and a fresh
        descriptor.  `v` is what the queue looked like before the slot was polled. */
    method Refill(slot: nat, p: nat, ghost id: nat, ghost v: View)
      requires Constants() && pool.Valid() && Inv(model) && Enabled(model, Take)
      requires slot == Slot(model.next, numEntries) && id == model.free[|model.free| - 1] && p == pool.layout.Ptr(id)
      requires id < pool.layout.total
      requires StampedView(pool.layout, v, model, CurrentView())
      requires Represents(pool.layout, v, model) && Start(start) && Run(start, trace) == Some(model)
      modifies descriptors, virtualAddress, this`trace, this`model
      ensures Running() && trace == old(trace) + [Take] && model == Step(old(model), Take)
    {
      hide Running, Represents, Run, Inv, Start, Step, Enabled, RxEmpty, Slot, WellFormed;
      ghost var l, w := pool.layout, CurrentView();
      AddressInPool(id);
      descriptors[slot] := RxEmpty(pool.memory[p].bufAddrPhy + DATA_OFFSET);
      virtualAddress[slot] := p;
      ghost var v' := w.(desc := w.desc[slot := RxEmpty(l.DataAddr(id))], va := w.va[slot := p]);
      TakeSimulates(l, v, v', model);
      TakeEffect(model);
      Act(Take);
      assert CurrentView() == v';
      StillRunning();
    }

    /** One filled slot: its length goes into its buffer, and if the pool has a buffer left, the slot
        is refilled with it and the filled buffer is handed over. */
    method TakeSlot(slot: nat) returns (buf: nat, ok: bool)
      requires Running() && !model.lost && model.next < model.filled && slot == Slot(model.next, numEntries)
      modifies pool`freeStackTop, pool`memory, descriptors, virtualAddress, this`trace, this`model
      ensures Running() && old(trace) <= trace
      ensures ok <==> old(model).free != []
      ensures ok ==> Enabled(old(model), Take) && model == Step(old(model), Take)
      ensures !ok ==> Enabled(old(model), GiveUp) && model == Step(old(model), GiveUp)
      ensures |old(model).posted| > old(model).next && buf == pool.layout.Ptr(old(model).posted[old(model).next])
      ensures |old(model).arrivals| > old(model).next && buf in old(pool.memory)
      ensures var size := old(model).arrivals[old(model).next].size;
        pool.memory == old(pool.memory)[buf := old(pool.memory)[buf].(size := size)]
    {
      hide Running, Represents, Run, Inv, Start, Step, Layout.Ptr, Layout.Good, Slot, IsPowerOfTwo, AllIds, WellFormed;
      hide RxDesc.Done, RxDesc.EndOfPacket, RxDesc.Length;
      Bounds();
      Parts();
      ghost var s, v, l := model, CurrentView(), pool.layout;
      WaitingSlot(l, v, s);
      FreeInRange(s);
      var desc := descriptors[slot];
      buf := virtualAddress[slot];
      var stamped := pool.memory[buf].(size := desc.Length());
      AddressInMemory(l, pool.memory, s.posted[s.next]);
      StoreKeepsWellFormed(l, pool.memory, s.posted[s.next], stamped);
      pool.memory := pool.memory[buf := stamped];
      var pb := pool.AllocPktBuf();
      ok := pb.Some?;
      if pb.Some? {
        Refill(slot, pb.value, s.free[|s.free| - 1], v);
      } else {
        GiveUpSimulates(l, v, s);
        Act(GiveUp);
        assert CurrentView() == v.(memory := pool.memory);
        StillRunning();
      }
    }

    /** `set_reg32(..., IXGBE_RDT(queue_id), prev_rx_index)` */
    method PublishTail(prev: nat)
      requires Running() && !model.lost && model.next > 0 && prev == Slot(model.next - 1, numEntries)
      modifies this`rdt, this`trace, this`model
      ensures Running() && old(trace) <= trace
      ensures model == old(model).(saved := old(model).next)
    {
      hide Running, Represents, Run, Inv, Start, Step, Slot, Pool.Valid, IsPowerOfTwo;
      Bounds();
      Parts();
      ghost var v := CurrentView();
      SlotAdd(model.next - 1, numEntries, numEntries);
      assert prev == Slot(model.next + model.n - 1, model.n);
      PublishSimulates(pool.layout, v, model);
      rdt := prev;
      Act(Publish);
      assert CurrentView() == v.(rdt := prev);
      StillRunning();
    }

    lemma PacketsHanded(first: nat, was: seq<nat>, now: seq<nat>, hits: seq<nat>)
      requires Running() && first <= model.next <= |model.posted| && Intact(model, first)
      requires Handed(pool.layout, was, now, hits, model.posted[first..model.next])
      ensures model.next <= |model.arrivals|
      ensures HandedPackets(pool.memory, now, hits, model.arrivals[first..model.next])
    {
      hide Handed, HandedPackets, Intact;
      HandedAreArrivals(pool.layout, CurrentView(), model, first, was, now, hits);
    }

    /** The slot polled is the one the loop's index names. */
    lemma PolledSlot(s: State, was: seq<nat>, now: seq<nat>, i: nat, rx: nat, prev: nat, hits: seq<nat>, seen: seq<nat>)
      requires Running() && Polling(pool.layout, s, model, was, now, i, rx, prev, hits, seen)
      ensures rx < descriptors.Length && model.next < |model.posted|
      ensures descriptors[rx].Done() <==> !model.lost && model.next < model.filled
      ensures !model.lost ==> rx == Slot(model.next, numEntries)
    {
      hide Inv, AfterPolls, Handed, PolledAs, Slot, RxDesc.Done, Represents, Run, Start;
      Bounds();
      PollTest();
    }

    /** The loop of `rx_batch`: `num` polls, each of which may find a packet. */
    method PollLoop(bufs: array<nat>, num: nat)
      returns (rx: nat, prev: nat, failed: bool, ghost hits: seq<nat>, ghost seen: seq<nat>)
      requires Valid() && num <= bufs.Length && bufs != pool.freeStack && bufs != virtualAddress
      modifies this`rdh, this`trace, this`model
      modifies pool`freeStackTop, pool`memory, descriptors, virtualAddress, bufs
      ensures Running() && old(trace) <= trace
      ensures |old(model).posted| == old(model).next + old(model).n
      ensures old(model).next <= model.next <= |model.posted|
      ensures Handed(pool.layout, old(bufs[..]), bufs[..], hits, model.posted[old(model).next..model.next])
      ensures PolledAs(old(model), model, hits, seen) && FromTheStart(old(model), hits, num)
      ensures if failed then |seen| < num else |seen| == num
      ensures model.next <= |model.arrivals|
      ensures HandedPackets(pool.memory, bufs[..], hits, model.arrivals[old(model).next..model.next])
      ensures failed ==> GaveUp(old(model), model, num)
      ensures !failed ==> AfterPolls(old(model), model, num)
      ensures !failed ==> rx == Slot(Polled(model), numEntries)
      ensures !failed ==> prev == if model.next == old(model).next then rx else Slot(model.next - 1, numEntries)
    {
      hide Running, Represents, Run, Inv, Start, Step, Enabled, Layout.Ptr, AfterPolls, DeviceOnly, GaveUp, PolledAs;
      hide Slot, WrapRing, IsPowerOfTwo, Handed, HandedPackets, Intact, Polling, FromTheStart, RxDesc.Done;
      Bounds();
      ghost var s, l, was := model, pool.layout, bufs[..];
      rx, prev, failed, hits, seen := rxIndex, rxIndex, false, [], [];
      PollingStarts(l, s, was, rx);
      var i := 0;
      while i < num
        invariant Running() && old(trace) <= trace && 0 <= i <= num
        invariant Polling(l, s, model, was, bufs[..], i, rx, prev, hits, seen)
      {
        ghost var before, now := model, bufs[..];
        Bounds();
        DeviceRuns();
        Bounds();
        PollingThenDevice(l, s, before, model, was, now, i, rx, prev, hits, seen);
        PolledSlot(s, was, now, i, rx, prev, hits, seen);
        ghost var waiting := model;
        if descriptors[rx].Done() {
          var buf, ok := TakeSlot(rx);
          if !ok {
            PollingFails(l, s, waiting, was, now, i, num, rx, prev, hits, seen);
            assert bufs[..] == now;
            PacketsHanded(s.next, was, now, hits);
            failed := true;
            return;
          }
          PollingHit(l, s, waiting, was, now, i, rx, prev, hits, seen);
          bufs[i] := buf;
          assert bufs[..] == now[i := buf];
          hits := hits + [i];
          prev := rx;
          rx := WrapRing(rx, numEntries);
        } else {
          PollingMiss(l, s, waiting, was, now, i, rx, prev, hits, seen);
        }
        seen := seen + [waiting.filled];
        i := i + 1;
      }
      Bounds();
      PollingEnds(l, s, model, was, bufs[..], num, rx, prev, hits, seen);
      PacketsHanded(s.next, was, bufs[..], hits);
    }

    /** `rx_batch`: polls the done bit `num` times, hands over the buffers found filled, in order of
        arrival, each at the entry of the poll that found it, and publishes the refilled slots; or
        gives up, without publishing, when the pool is empty. */
    method RxBatch(bufs: array<nat>, num: nat) returns (ret: nat, ghost hits: seq<nat>, ghost seen: seq<nat>)
      requires Valid() && num <= bufs.Length && bufs != pool.freeStack && bufs != virtualAddress
      modifies this`rxIndex, this`rdh, this`rdt, this`trace, this`model
      modifies pool`freeStackTop, pool`memory, descriptors, virtualAddress, bufs
      ensures Valid() && old(trace) <= trace
      ensures |old(model).posted| == old(model).next + old(model).n
      ensures || (ret == num == |seen| && Received(old(model), model, num))
              || (ret == FAILED == 0xFFFF_FFFF && |seen| < num && GaveUp(old(model), model, num))
      ensures old(model).next <= model.next <= |model.posted|
      ensures Handed(pool.layout, old(bufs[..]), bufs[..], hits, model.posted[old(model).next..model.next])
      ensures PolledAs(old(model), model, hits, seen) && FromTheStart(old(model), hits, num)
      ensures model.next <= |model.arrivals|
      ensures HandedPackets(pool.memory, bufs[..], hits, model.arrivals[old(model).next..model.next])
    {
      hide Running, Inv, Start, Layout.Ptr, AfterPolls, GaveUp, Handed, HandedPackets, Slot, IsPowerOfTwo;
      hide PolledAs, FromTheStart;
      Bounds();
      ghost var s := model;
      var rx, prev, failed;
      rx, prev, failed, hits, seen := PollLoop(bufs, num);
      if failed {
        GaveUpBounds(s, model, num);
        ret := FAILED;
        return;
      }
      ghost var r := model;
      Bounds();
      AfterPollsBounds(s, r, num);
      if r.next > s.next {
        SlotInjective(r.next - 1, r.next, numEntries);
      }
      if rx != prev {
        PublishTail(prev);
        rxIndex := rx;
      }
      PolledThenDevice(s, r, model, hits, seen);
      ret := num;
      assert model.(saved := s.saved) == r;
    }

    // ---- The client ----

    /** `alloc_pkt_buf` by the client. */
    method ClientAlloc() returns (pb: Option<nat>)
      requires Valid()
      modifies pool`freeStackTop, this`trace, this`model
      ensures Valid() && old(trace) <= trace
      ensures pb.None? <==> old(model).free == []
      ensures pb.None? ==> model == old(model)
      ensures pb.Some? ==> model == Step(old(model), Alloc)
      ensures pb.Some? ==> pb.value == pool.layout.Ptr(old(model).free[|old(model).free| - 1])
    {
      hide Running, Represents, Run, Inv, Start, AllIds, WellFormed, Layout.Good, Layout.Ptr;
      Bounds();
      Parts();
      ghost var s, v := model, CurrentView();
      FreeIsRepresented(pool.layout, v, s);
      pb := pool.AllocPktBuf();
      if pb.Some? {
        Act(Alloc);
        FreeStackSimulates(pool.layout, v, s, model);
        assert CurrentView() == v.(free := model.free);
        StillRunning();
      } else {
        assert CurrentView() == v;
        StillRunning();
      }
    }

    /** `pkt_buf_free` by the client, of a buffer it holds. */
    method ClientFree(buf: nat, ghost id: nat)
      requires Valid() && id in model.held && buf == pool.layout.Ptr(id)
      modifies pool`freeStackTop, pool.freeStack, this`trace, this`model
      ensures Valid() && old(trace) <= trace
      ensures model == Step(old(model), Release(id))
    {
      hide Running, Represents, Run, Inv, Start, AllIds, WellFormed, Layout.Good, Layout.Ptr;
      Bounds();
      Parts();
      ghost var s, v := model, CurrentView();
      FreeIsRepresented(pool.layout, v, s);
      HeldNotFree(s, id);
      pool.PktBufFree(buf, id);
      Act(Release(id));
      FreeStackSimulates(pool.layout, v, s, model);
      assert CurrentView() == v.(free := model.free);
      StillRunning();
    }

    /** The client writes to a buffer it holds, within its entry. */
    method ClientWrite(buf: nat, p: Packet, ghost id: nat)
      requires Valid() && id in model.held && buf == pool.layout.Ptr(id)
      requires DATA_OFFSET + |p.data| <= pool.layout.entrySize
      modifies pool`memory, this`trace, this`model
      ensures Valid() && old(trace) <= trace
      ensures model == Step(old(model), Write(id, p))
    {
      hide Running, Represents, Run, Inv, Start, Layout.Ptr;
      Bounds();
      Parts();
      ghost var v := CurrentView();
      WriteSimulates(pool.layout, v, model, id, p);
      pool.memory := pool.memory[buf := pool.memory[buf].(size := p.size, data := p.data)];
      Act(Write(id, p));
      assert CurrentView() == v.(memory := pool.memory);
      StillRunning();
    }

    // ---- What every state reachable through these methods satisfies ----

    /** Everything delivered so far is what the device has stored, in order of arrival, no packet
        longer than its bytes. */
    lemma DeliveriesAreFifo()
      requires Running()
      ensures |model.delivered| <= |Arrived(trace)|
      ensures forall k :: 0 <= k < |model.delivered| ==> model.delivered[k].packet == Arrived(trace)[k]
      ensures forall k :: 0 <= k < |model.delivered| ==>
                Within(model.delivered[k].packet.size, model.delivered[k].packet.data)
    {
      ReceiveIsFifo(start, trace);
    }

    /** A buffer handed over stays the client's, with its packet in it, until the client frees it or
        writes to it. */
    lemma DeliveredStays(i: nat)
      requires Running() && i < |trace| && trace[i].Take?
      ensures var k := Takes(trace[..i]);
        && k < |model.delivered| && k < |Arrived(trace)|
        && ((forall j :: i < j < |trace| ==> !Touches(trace[j], model.delivered[k].id)) ==>
              var id := model.delivered[k].id;
              && id in model.held && pool.layout.Ptr(id) in pool.memory
              && pool.memory[pool.layout.Ptr(id)].Contents() == Arrived(trace)[k])
    {
      DeliveredStaysUntilTouched(start, trace, i);
    }

    /** Between calls the tail register is the slot just before `rx_index`. */
    lemma TailIsBehindIndex()
      requires Valid()
      ensures rdt < numEntries && Successor(rdt, numEntries) == rxIndex
    {
      hide Slot, Inv, Start, Run, RingHolds, Holds, Pool.Valid, IsPowerOfTwo, Layout.Good;
      Bounds();
      NextSlot(model.saved + numEntries - 1, numEntries);
      SlotAdd(model.saved, numEntries, numEntries);
    }

    /** The slots the device may fill hold buffers that are neither free nor with the client. */
    lemma DeviceWindowOwned(k: nat)
      requires Running() && model.filled <= k < model.saved + numEntries - 1
      ensures k < |model.posted| && model.posted[k] !in model.held && model.posted[k] !in pool.Free()
      ensures virtualAddress[Slot(k, numEntries)] == pool.layout.Ptr(model.posted[k])
      ensures descriptors[Slot(k, numEntries)] == RxDesc(pool.layout.DataAddr(model.posted[k]), 0)
      ensures !descriptors[Slot(k, numEntries)].Done()
    {
      Places(model);
      assert SlotHolds(pool.layout, descriptors[Slot(k, numEntries)], virtualAddress[Slot(k, numEntries)],
                       model.posted[k], false, LengthOf(model.arrivals, k));
    }
  }
}
