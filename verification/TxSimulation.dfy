/** How the transmit ring, its registers and the pool represent the FIFO queue of TxModel, and that
    each atomic action of driver, device and client on them simulates one action of the queue. */
module TxSimulation {
  import opened Descriptors
  import opened Mempool
  import opened RingIndex
  import opened TxModel

  /** Everything in memory and in the device that the transmit side reads or writes. */
  datatype View = View(
    desc: seq<TxDesc>, va: seq<nat>, txIndex: nat,
    tdh: nat, writeBack: nat, tdt: nat, wire: seq<Packet>,
    free: seq<nat>, memory: map<nat, PktBuf>)

  /** Slot contents for one entry: the driver's pointer, and a descriptor that reads as done exactly
      when the device has completed it and it asked for a report; before that it still is what the
      driver wrote for the packet. */
  predicate SlotHolds(l: Layout, d: TxDesc, ptr: nat, entry: Entry, completed: bool, report: bool)
  {
    && ptr == l.Ptr(entry.id)
    && (d.Done() <==> completed && Reports(report, entry))
    && (!completed ==> d == TxData(l.DataAddr(entry.id), entry.packet.size, report))
  }

  /** The ring shows the last `n` entries: those in flight, and before them those already freed
      whose slots have not been filled again. */
  ghost predicate RingHolds(l: Layout, v: View, s: State)
    requires s.n > 0 && |v.desc| == |v.va| == s.n
  {
    forall k :: 0 <= k < |s.log| <= k + s.n ==>
      SlotHolds(l, v.desc[Slot(k, s.n)], v.va[Slot(k, s.n)], s.log[k], k < s.completed, s.report)
  }

  ghost predicate Represents(l: Layout, v: View, s: State)
  {
    && l.Good() && l.total == s.total && s.n > 0
    && |v.desc| == |v.va| == s.n
    && Holds(l, v.memory, s.mem)
    && v.free == s.free
    && v.wire == s.wire
    && v.txIndex == Slot(|s.log|, s.n)
    && v.tdh == Slot(s.fetched, s.n)
    && v.writeBack == Slot(s.completed, s.n)
    && v.tdt == Slot(s.published, s.n)
    && RingHolds(l, v, s)
  }

  /** DD freshness over laps: the status word of a slot reads as done exactly when the device
      completed the last entry put there, and that entry asked for a report; not from the initial
      memset and not from an earlier lap. */
  lemma DoneIffCompleted(l: Layout, v: View, s: State, k: nat)
    requires Represents(l, v, s) && k < |s.log| <= k + s.n
    ensures v.desc[Slot(k, s.n)].Done() <==> k < s.completed && Reports(s.report, s.log[k])
  {
    assert SlotHolds(l, v.desc[Slot(k, s.n)], v.va[Slot(k, s.n)], s.log[k], k < s.completed, s.report);
  }

  /** Until the device is done with a packet, its descriptor holds exactly the words the driver wrote. */
  lemma PendingDescriptor(l: Layout, v: View, s: State, k: nat)
    requires Inv(s) && Represents(l, v, s) && s.completed <= k < |s.log|
    ensures var e := s.log[k];
      v.desc[Slot(k, s.n)] == TxWords(l.DataAddr(e.id), e.packet.size, s.report)
  {
    hide TxData, TxWords, TxDesc.Done, Reports, AllFit, Wire, Holds, Conserved, Layout.Good, Layout.Ptr;
    TxDataWords(l.DataAddr(s.log[k].id), s.log[k].packet.size, s.report);
    assert SlotHolds(l, v.desc[Slot(k, s.n)], v.va[Slot(k, s.n)], s.log[k], k < s.completed, s.report);
  }

  lemma InFlightIsTaken(s: State, k: nat)
    requires Inv(s) && s.cleaned <= k < |s.log|
    ensures s.log[k].id !in s.held && s.log[k].id !in s.free && |s.log| <= k + s.n
  {
    hide Conserved, Wire, Fits;
    assert Ids(s.InFlight())[k - s.cleaned] == s.log[k].id;
    assert s.log[k].id in Ids(s.InFlight());
    ExactlyOnePlace(s.total, s.free, Ids(s.InFlight()), s.held);
  }

  /** A slot in flight holds the pointer of its entry, a buffer neither free nor with the client. */
  lemma InFlightSlot(l: Layout, v: View, s: State, k: nat)
    requires Inv(s) && Represents(l, v, s) && s.cleaned <= k < |s.log|
    ensures v.va[Slot(k, s.n)] == l.Ptr(s.log[k].id)
    ensures s.log[k].id !in s.held && s.log[k].id !in s.free
  {
    hide Inv, Holds, Layout.Good, Layout.Ptr, TxDesc.Done, TxDesc.ReportsStatus, TxDesc.DataLength, Reports;
    InFlightIsTaken(s, k);
    assert SlotHolds(l, v.desc[Slot(k, s.n)], v.va[Slot(k, s.n)], s.log[k], k < s.completed, s.report);
  }

  /** The driver's full test fires exactly when n - 1 entries are in flight. */
  lemma FullIff(s: State)
    requires Inv(s)
    ensures Slot(s.cleaned, s.n) == Slot(|s.log| + 1, s.n) <==> |s.log| - s.cleaned == s.n - 1
  {
    if |s.log| - s.cleaned == s.n - 1 {
      SlotAdd(s.cleaned, s.n, s.n);
    } else {
      SlotInjective(s.cleaned, |s.log| + 1, s.n);
    }
  }

  /** The device's tests, on wrapped registers, for having something to read and to report. */
  lemma DeviceTests(l: Layout, v: View, s: State)
    requires Inv(s) && Represents(l, v, s)
    ensures v.tdh != v.tdt <==> s.fetched < s.published
    ensures v.writeBack != v.tdh <==> s.completed < s.fetched
  {
    SlotInjective(s.fetched, s.published, s.n);
    SlotInjective(s.completed, s.fetched, s.n);
  }

  /** The queue after one more entry, whether or not there is room for it. */
  ghost function Appended(s: State, id: nat): State
    requires id < |s.mem|
  {
    s.(log := s.log + [Entry(id, s.mem[id])], held := s.held - {id})
  }

  /** Writing one descriptor and pointer and stepping the index puts the entry in the ring, in
      place of the one a lap before it. */
  lemma AppendSimulates(l: Layout, v: View, v': View, s: State, id: nat)
    requires Represents(l, v, s) && s.completed <= |s.log| && id < |s.mem|
    requires l.Ptr(id) in v.memory && v.txIndex < |v.va| == |v.desc|
    requires var buf := v.memory[l.Ptr(id)];
      v' == v.(va := v.va[v.txIndex := l.Ptr(id)],
               desc := v.desc[v.txIndex := TxData(buf.bufAddrPhy + DATA_OFFSET, buf.size, s.report)],
               txIndex := Slot(|s.log| + 1, s.n))
    ensures Represents(l, v', Appended(s, id))
  {
    hide TxData, TxDesc.Done, TxDesc.ReportsStatus, TxDesc.DataLength, TxDesc.BufferAddr, Layout.Good;
    var r := Appended(s, id);
    var buf := v.memory[l.Ptr(id)];
    assert s.mem[id] == buf.Contents() && l.DataAddr(id) == buf.bufAddrPhy + DATA_OFFSET;
    TxFreshness(buf.bufAddrPhy + DATA_OFFSET, buf.size, s.report, 0, 0, 0);
    forall k | 0 <= k < |r.log| <= k + r.n
      ensures SlotHolds(l, v'.desc[Slot(k, r.n)], v'.va[Slot(k, r.n)], r.log[k], k < r.completed, r.report)
    {
      SlotInjective(k, |s.log|, s.n);
      if k < |s.log| {
        assert SlotHolds(l, v.desc[Slot(k, s.n)], v.va[Slot(k, s.n)], s.log[k], k < s.completed, s.report);
      }
    }
  }

  /** When there is room, that is one Enqueue. */
  lemma EnqueueSimulates(l: Layout, v: View, v': View, s: State, id: nat)
    requires Inv(s) && Represents(l, v, s) && Enabled(s, Enqueue(id))
    requires l.Ptr(id) in v.memory && v.txIndex < |v.va| == |v.desc|
    requires var buf := v.memory[l.Ptr(id)];
      v' == v.(va := v.va[v.txIndex := l.Ptr(id)],
               desc := v.desc[v.txIndex := TxData(buf.bufAddrPhy + DATA_OFFSET, buf.size, s.report)],
               txIndex := Slot(|s.log| + 1, s.n))
    ensures id < |s.mem| && Step(s, Enqueue(id)) == Appended(s, id)
    ensures Represents(l, v', Step(s, Enqueue(id)))
  {
    hide Represents, TxData;
    HeldInRange(s);
    AppendSimulates(l, v, v', s, id);
  }

  /** A held buffer is in the memory of the pool. */
  lemma HeldInMemory(l: Layout, v: View, s: State, id: nat)
    requires Inv(s) && Represents(l, v, s) && id in s.held
    ensures id < s.total && l.Ptr(id) in v.memory && id < |s.mem| && v.memory[l.Ptr(id)].size == s.mem[id].size
    ensures v.memory[l.Ptr(id)].bufAddrPhy + DATA_OFFSET == l.DataAddr(id)
  {
    hide Layout.Ptr, Layout.Good, RingHolds, Conserved;
    HeldInRange(s);
    assert v.memory[l.Ptr(id)].Contents() == s.mem[id];
  }

  /** Pushing the buffer of the clean slot on the free stack reclaims the oldest entry. */
  lemma ReclaimSimulates(l: Layout, v: View, s: State)
    requires Inv(s) && Represents(l, v, s) && Enabled(s, Reclaim)
    ensures var id := s.log[s.cleaned].id;
      && id < s.total && id !in s.free
      && v.va[Slot(s.cleaned, s.n)] == l.Ptr(id)
      && Represents(l, v.(free := v.free + [id]), Step(s, Reclaim))
  {
    var id := s.log[s.cleaned].id;
    assert Ids(s.InFlight())[0] == id;
    assert id in Ids(s.InFlight());
    ExactlyOnePlace(s.total, s.free, Ids(s.InFlight()), s.held);
    var c := s.cleaned;
    assert SlotHolds(l, v.desc[Slot(c, s.n)], v.va[Slot(c, s.n)], s.log[c], c < s.completed, s.report);
    assert RingHolds(l, v.(free := v.free + [id]), Step(s, Reclaim));
  }

  lemma PublishSimulates(l: Layout, v: View, s: State)
    requires Inv(s) && Represents(l, v, s)
    ensures Represents(l, v.(tdt := v.txIndex), Step(s, Publish))
  {
    var r := Step(s, Publish);
    assert RingHolds(l, v.(tdt := v.txIndex), r);
  }

  /** The head descriptor names a buffer of the pool. */
  lemma FetchSimulates(l: Layout, v: View, s: State)
    requires Inv(s) && Represents(l, v, s) && Enabled(s, Fetch)
    ensures v.tdh < |v.desc| && l.total == s.total
    ensures exists id :: 0 <= id < s.total && l.DataAddr(id) == v.desc[v.tdh].BufferAddr()
  {
    var k := s.fetched;
    assert SlotHolds(l, v.desc[Slot(k, s.n)], v.va[Slot(k, s.n)], s.log[k], k < s.completed, s.report);
    TxFreshness(l.DataAddr(s.log[k].id), s.log[k].packet.size, s.report, 0, 0, 0);
    assert l.DataAddr(s.log[k].id) == v.desc[v.tdh].BufferAddr();
  }

  lemma NextToSend(s: State)
    requires Inv(s) && Enabled(s, Fetch)
    ensures s.completed <= s.fetched < |s.log| <= s.fetched + s.n && s.log[s.fetched].id < s.total == |s.mem|
    ensures s.mem[s.log[s.fetched].id] == s.log[s.fetched].packet && Fits(s.log[s.fetched].packet)
  {
    hide Conserved, Fits, Wire;
  }

  lemma AddressNamesOne(l: Layout, i: nat, j: nat)
    requires l.Good() && i < l.total && j < l.total && l.DataAddr(i) == l.DataAddr(j)
    ensures i == j
  {}

  /** It names only one: that of the oldest packet not yet sent, with its length and contents. */
  lemma HeadDescriptor(l: Layout, v: View, s: State, id: nat)
    requires Inv(s) && Represents(l, v, s) && Enabled(s, Fetch)
    requires v.tdh < |v.desc| && id < s.total && l.DataAddr(id) == v.desc[v.tdh].BufferAddr()
    ensures s.fetched < |s.log| && id == s.log[s.fetched].id && l.Ptr(id) in v.memory
    ensures var p := s.log[s.fetched].packet;
      v.memory[l.Ptr(id)].Contents() == p && v.desc[v.tdh].DataLength() == p.size & DTALEN_MASK && Fits(p)
  {
    hide Inv, TxData, TxDesc.Done, TxDesc.ReportsStatus, TxDesc.DataLength, TxDesc.BufferAddr, Layout.Ptr, Layout.Good;
    NextToSend(s);
    var k := s.fetched;
    assert SlotHolds(l, v.desc[Slot(k, s.n)], v.va[Slot(k, s.n)], s.log[k], k < s.completed, s.report);
    TxFreshness(l.DataAddr(s.log[k].id), s.log[k].packet.size, s.report, 0, 0, 0);
    AddressNamesOne(l, id, s.log[k].id);
    assert v.memory[l.Ptr(id)].Contents() == s.mem[id];
  }

  lemma FetchEffect(s: State)
    requires Inv(s) && Enabled(s, Fetch)
    ensures s.fetched < |s.log| && Fits(s.log[s.fetched].packet) && s.n > 0
    ensures Step(s, Fetch) == s.(wire := s.wire + [OnWire(s.log[s.fetched].packet)], fetched := s.fetched + 1)
  {
    hide Conserved, Fits, OnWire, Wire;
  }

  /** Its bytes reach at least to the descriptor's length; and sending those sends the oldest packet
      not yet sent, with the contents it was accepted with. */
  lemma FetchedFrom(l: Layout, v: View, s: State, id: nat)
    requires Inv(s) && Represents(l, v, s) && Enabled(s, Fetch)
    requires v.tdh < |v.desc| && id < s.total && l.DataAddr(id) == v.desc[v.tdh].BufferAddr()
    ensures l.Ptr(id) in v.memory && Within(v.desc[v.tdh].DataLength(), v.memory[l.Ptr(id)].data)
    ensures Represents(l,
                       v.(wire := v.wire + [Sent(v.desc[v.tdh].DataLength(), v.memory[l.Ptr(id)].data)],
                          tdh := Successor(v.tdh, s.n)),
                       Step(s, Fetch))
    ensures DeviceOnly(s, Step(s, Fetch))
  {
    hide Inv, Step, SlotHolds, Holds, TxDesc.DataLength, TxDesc.BufferAddr, Layout.Ptr, Layout.Good, Within, Sent;
    HeadDescriptor(l, v, s, id);
    FetchEffect(s);
    NextSlot(s.fetched, s.n);
    var r := Step(s, Fetch);
    assert RingHolds(l, v.(wire := r.wire, tdh := Successor(v.tdh, s.n)), r);
  }

  /** What is sent is the first bytes of the packet as accepted. */
  lemma FetchTransmits(l: Layout, v: View, s: State, id: nat)
    requires Inv(s) && Represents(l, v, s) && Enabled(s, Fetch)
    requires v.tdh < |v.desc| && id < s.total && l.DataAddr(id) == v.desc[v.tdh].BufferAddr()
    requires l.Ptr(id) in v.memory && Within(v.desc[v.tdh].DataLength(), v.memory[l.Ptr(id)].data)
    ensures s.fetched < |s.log|
    ensures Transmits(s.log[s.fetched].packet, Sent(v.desc[v.tdh].DataLength(), v.memory[l.Ptr(id)].data))
  {
    hide Inv, Represents, TxDesc.DataLength, TxDesc.BufferAddr, Layout.Ptr, Transmits, Sent, Within;
    HeadDescriptor(l, v, s, id);
    OnWireTransmits(s.log[s.fetched].packet);
  }

  lemma CompletedRing(l: Layout, v: View, v': View, s: State, d: TxDesc)
    requires Inv(s) && Represents(l, v, s) && s.completed < |s.log| && d.Done()
    requires Slot(s.completed, s.n) < |v.desc| && v'.va == v.va
    requires var c := Slot(s.completed, s.n);
      v'.desc == if v.desc[c].ReportsStatus() then v.desc[c := d] else v.desc
    ensures |v'.desc| == |v'.va| == s.n
    ensures RingHolds(l, v', s.(completed := s.completed + 1))
  {
    hide TxData, TxDesc.Done, TxDesc.ReportsStatus, TxDesc.DataLength, Holds, Conserved, Layout.Good, Layout.Ptr;
    var e := s.log[s.completed];
    TxFreshness(l.DataAddr(e.id), e.packet.size, s.report, 0, 0, 0);
    var r := s.(completed := s.completed + 1);
    forall k | 0 <= k < |r.log| <= k + r.n
      ensures SlotHolds(l, v'.desc[Slot(k, r.n)], v'.va[Slot(k, r.n)], r.log[k], k < r.completed, r.report)
    {
      SlotInjective(k, s.completed, s.n);
      assert SlotHolds(l, v.desc[Slot(k, s.n)], v.va[Slot(k, s.n)], s.log[k], k < s.completed, s.report);
    }
  }

  /** The device is done with the oldest descriptor it has read: writing it back, if it asks for
      that, completes its entry and disturbs no other. */
  lemma CompleteSimulates(l: Layout, v: View, v': View, s: State, d: TxDesc)
    requires Inv(s) && Represents(l, v, s) && Enabled(s, Complete) && d.Done()
    requires v.writeBack < |v.desc|
    requires v' == v.(desc := if v.desc[v.writeBack].ReportsStatus() then v.desc[v.writeBack := d] else v.desc,
                      writeBack := Successor(v.writeBack, s.n))
    ensures Represents(l, v', Step(s, Complete))
    ensures DeviceOnly(s, Step(s, Complete))
  {
    hide TxData, TxDesc.Done, TxDesc.ReportsStatus, TxDesc.DataLength, Holds, Layout.Good, Layout.Ptr;
    var c := s.completed;
    NextSlot(c, s.n);
    CompletedRing(l, v, v', s, d);
    assert RingHolds(l, v', Step(s, Complete));
  }

  /** Allocating and freeing by the client do not touch the ring. */
  lemma FreeStackSimulates(l: Layout, v: View, s: State, r: State)
    requires Represents(l, v, s) && r == s.(free := r.free, held := r.held)
    ensures Represents(l, v.(free := r.free), r)
  {
    assert RingHolds(l, v, r);
  }

  lemma FreeIsRepresented(l: Layout, v: View, s: State)
    requires Represents(l, v, s)
    ensures v.free == s.free && l.total == s.total
  {}

  /** Nor does filling a buffer the client holds. */
  lemma WriteSimulates(l: Layout, v: View, s: State, id: nat, p: Packet)
    requires Inv(s) && Represents(l, v, s) && id in s.held
    ensures l.Ptr(id) in v.memory
    ensures var memory := v.memory[l.Ptr(id) := v.memory[l.Ptr(id)].(size := p.size, data := p.data)];
      WellFormed(l, memory) && Represents(l, v.(memory := memory), Step(s, Write(id, p)))
  {
    hide Step, Inv, SlotHolds, Holds, WellFormed, Layout.Good, Layout.Ptr;
    WriteEffect(s, id, p);
    HoldsAfterStore(l, v.memory, s.mem, id, p);
    assert RingHolds(l, v, Step(s, Write(id, p)));
  }
}
