/** How the receive ring, its registers and the pool represent the queue of RxModel, and that each
    atomic action of driver, device and client on them simulates one action of the queue. */
module RxSimulation {
  import opened Descriptors
  import opened Mempool
  import opened RingIndex
  import opened RxModel

  datatype View = View(
    desc: seq<RxDesc>, va: seq<nat>, rdh: nat, rdt: nat,
    free: seq<nat>, memory: map<nat, PktBuf>)

  /** An empty slot holds the descriptor the driver writes for its buffer; a filled one reads as done
      with the packet's length. */
  predicate SlotHolds(l: Layout, d: RxDesc, ptr: nat, id: nat, filled: bool, length: bv32)
  {
    && ptr == l.Ptr(id)
    && (d.Done() <==> filled)
    && (filled ==> d.EndOfPacket() && d.Length() == length)
    && (!filled ==> d == RxEmpty(l.DataAddr(id)))
  }

  /** The length of the k-th packet, once it has arrived. */
  function LengthOf(arrivals: seq<Packet>, k: nat): bv32
  {
    if k < |arrivals| then arrivals[k].size else 0
  }

  ghost predicate RingHolds(l: Layout, v: View, s: State)
    requires s.n > 0 && |v.desc| == |v.va| == s.n && |s.posted| == s.next + s.n
  {
    forall k :: s.next <= k < |s.posted| ==>
      SlotHolds(l, v.desc[Slot(k, s.n)], v.va[Slot(k, s.n)], s.posted[k], k < s.filled, LengthOf(s.arrivals, k))
  }

  ghost predicate Represents(l: Layout, v: View, s: State)
  {
    && l.Good() && l.total == s.total && s.n > 0
    && |v.desc| == |v.va| == s.n && |s.posted| == s.next + s.n
    && Holds(l, v.memory, s.mem)
    && v.free == s.free
    && v.rdh == Slot(s.filled, s.n)
    && v.rdt == Slot(s.saved + s.n - 1, s.n)
    && RingHolds(l, v, s)
  }

  /** The start-up loop after `k` slots: descriptor and pointer of the `k` ids popped so far. */
  ghost predicate PostedTo(l: Layout, desc: seq<RxDesc>, va: seq<nat>, stack: seq<nat>, k: nat)
  {
    && k <= |desc| == |va| && k <= |stack|
    && forall i :: 0 <= i < k ==>
         desc[i] == RxEmpty(l.DataAddr(stack[|stack| - 1 - i])) && va[i] == l.Ptr(stack[|stack| - 1 - i])
  }

  lemma PostedOneMore(l: Layout, desc: seq<RxDesc>, va: seq<nat>, stack: seq<nat>, k: nat)
    requires PostedTo(l, desc, va, stack, k) && k < |desc| && k < |stack|
    ensures var id := stack[|stack| - 1 - k];
      PostedTo(l, desc[k := RxEmpty(l.DataAddr(id))], va[k := l.Ptr(id)], stack, k + 1)
  {}

  /** Start-up overwrites every descriptor, so nothing is left of the memset pattern. */
  lemma StartedRepresented(l: Layout, v: View, stack: seq<nat>, s: State)
    requires 2 <= s.n <= |stack| && s == Started(s.n, s.total, stack, s.mem)
    requires l.Good() && l.total == s.total && Holds(l, v.memory, s.mem) && |v.desc| == |v.va| == s.n
    requires PostedTo(l, v.desc, v.va, stack, s.n)
    requires v.free == s.free && v.rdh == 0 && v.rdt == s.n - 1
    ensures Represents(l, v, s)
  {
    hide Layout.Ptr, Layout.Good, Holds;
    forall k | 0 <= k < s.n
      ensures SlotHolds(l, v.desc[Slot(k, s.n)], v.va[Slot(k, s.n)], s.posted[k], false, 0)
    {
      RxFreshness(l.DataAddr(s.posted[k]), 0, 0, 0, 0);
    }
  }

  /** Which packet the slot the driver polls stands for: the next one to deliver; or, in a lost
      queue, the one a whole lap after the slot it keeps looking at. */
  function Polled(s: State): nat
  {
    if s.lost then s.saved + s.n else s.next
  }

  /** DD freshness over laps: the polled slot reads as done exactly when the next packet has arrived
      and the queue is not lost; not from the initial memset, nor from an earlier lap. */
  lemma PolledDoneIff(l: Layout, v: View, s: State)
    requires Inv(s) && Represents(l, v, s)
    ensures v.desc[Slot(Polled(s), s.n)].Done() <==> !s.lost && s.next < s.filled
  {
    var k := Polled(s);
    assert SlotHolds(l, v.desc[Slot(k, s.n)], v.va[Slot(k, s.n)], s.posted[k], k < s.filled, LengthOf(s.arrivals, k));
  }

  /** The device's test for a slot to fill. */
  lemma DeviceTest(l: Layout, v: View, s: State)
    requires Inv(s) && Represents(l, v, s)
    ensures v.rdh != v.rdt <==> s.filled < s.saved + s.n - 1
  {
    SlotInjective(s.filled, s.saved + s.n - 1, s.n);
  }

  /** Receive ownership, inside calls as well as between them: no slot the device may still fill is
      the one the driver refills next or one it has refilled and not yet published, and its buffer
      is neither with the client nor free. */
  lemma DeviceWindowIsDisjoint(s: State, k: nat, j: nat)
    requires Inv(s) && s.filled <= k < s.saved + s.n - 1 && s.saved <= j <= s.next
    requires j == s.next ==> s.next < s.filled
    ensures Slot(k, s.n) != Slot(j, s.n)
    ensures s.posted[k] !in s.held && s.posted[k] !in s.free
  {
    SlotInjective(k, j, s.n);
    Places(s);
  }

  /** The head descriptor names a buffer of the pool. */
  lemma HeadNamesABuffer(l: Layout, v: View, s: State)
    requires Inv(s) && Represents(l, v, s) && s.filled < s.saved + s.n - 1
    ensures v.rdh < |v.desc| && l.total == s.total
    ensures exists id :: 0 <= id < s.total && l.DataAddr(id) == v.desc[v.rdh].PktAddr()
  {
    var k := s.filled;
    Places(s);
    RxFreshness(l.DataAddr(s.posted[k]), 0, 0, 0, 0);
    assert SlotHolds(l, v.desc[Slot(k, s.n)], v.va[Slot(k, s.n)], s.posted[k], false, LengthOf(s.arrivals, k));
    assert l.DataAddr(s.posted[k]) == v.desc[v.rdh].PktAddr();
  }

  /** The head descriptor names the oldest empty slot's buffer and no other. */
  lemma HeadIsNext(l: Layout, v: View, s: State, id: nat)
    requires Inv(s) && Represents(l, v, s) && s.filled < s.saved + s.n - 1
    requires v.rdh < |v.desc| && id < l.total && l.DataAddr(id) == v.desc[v.rdh].PktAddr()
    ensures s.filled < |s.posted| && |s.arrivals| == s.filled && id == s.posted[s.filled]
  {
    hide RxDesc.Done, RxDesc.EndOfPacket, RxDesc.Length, RxDesc.PktAddr, Conserved, Layout.Ptr;
    Places(s);
    var f := s.filled;
    RxFreshness(l.DataAddr(s.posted[f]), 0, 0, 0, 0);
    assert SlotHolds(l, v.desc[Slot(f, s.n)], v.va[Slot(f, s.n)], s.posted[f], false, LengthOf(s.arrivals, f));
  }

  lemma RingAfterFill(l: Layout, v: View, v': View, s: State, r: State, d: RxDesc)
    requires Inv(s) && Represents(l, v, s) && s.filled < s.saved + s.n - 1
    requires r.n == s.n && r.next == s.next && r.filled == s.filled + 1 && r.posted == s.posted
    requires |r.arrivals| == r.filled && s.arrivals <= r.arrivals
    requires d.Done() && d.EndOfPacket() && d.Length() == r.arrivals[s.filled].size
    requires v'.desc == v.desc[Slot(s.filled, s.n) := d] && v'.va == v.va
    ensures |v'.desc| == |v'.va| == r.n && |r.posted| == r.next + r.n
    ensures RingHolds(l, v', r)
  {
    hide RxDesc.Done, RxDesc.EndOfPacket, RxDesc.Length, RxDesc.PktAddr, Conserved, Layout.Ptr, Layout.Good, Holds;
    forall k | r.next <= k < |r.posted|
      ensures SlotHolds(l, v'.desc[Slot(k, r.n)], v'.va[Slot(k, r.n)], r.posted[k], k < r.filled,
                        LengthOf(r.arrivals, k))
    {
      SlotInjective(k, s.filled, s.n);
      assert SlotHolds(l, v.desc[Slot(k, s.n)], v.va[Slot(k, s.n)], s.posted[k], k < s.filled, LengthOf(s.arrivals, k));
    }
  }

  /** Storing a packet in the buffer the head descriptor names and writing the descriptor back
      fills the oldest empty slot. */
  lemma FillSimulates(l: Layout, v: View, v': View, s: State, id: nat, d: RxDesc, length: bv16, data: seq<byte>)
    requires Inv(s) && Represents(l, v, s) && Enabled(s, Fill(length, data))
    requires v.rdh < |v.desc| && id < l.total && l.DataAddr(id) == v.desc[v.rdh].PktAddr()
    requires l.Ptr(id) in v.memory
    requires d.Done() && d.EndOfPacket() && d.Length() == length as bv32
    requires v' == v.(desc := v.desc[v.rdh := d],
                      memory := v.memory[l.Ptr(id) := v.memory[l.Ptr(id)].(data := data)],
                      rdh := Successor(v.rdh, s.n))
    ensures Represents(l, v', Step(s, Fill(length, data)))
  {
    hide RxDesc.Done, RxDesc.EndOfPacket, RxDesc.Length, RxDesc.PktAddr, Conserved, Step, Layout.Ptr, RingHolds, Inv;
    FillEffect(s, length, data);
    HeadIsNext(l, v, s, id);
    HoldsAfterStore(l, v.memory, s.mem, id, s.mem[id].(data := data));
    NextSlot(s.filled, s.n);
    RingAfterFill(l, v, v', s, Step(s, Fill(length, data)), d);
  }

  /** A filled slot polled by the driver: its pointer, its length, and where they are in memory. */
  lemma WaitingSlot(l: Layout, v: View, s: State)
    requires Inv(s) && Represents(l, v, s) && s.next < s.filled
    ensures var d, ptr, id := v.desc[Slot(s.next, s.n)], v.va[Slot(s.next, s.n)], s.posted[s.next];
      && id < s.total && ptr == l.Ptr(id) && ptr in v.memory
      && d.EndOfPacket() && d.Length() == s.arrivals[s.next].size
  {
    var k := s.next;
    Places(s);
    assert SlotHolds(l, v.desc[Slot(k, s.n)], v.va[Slot(k, s.n)], s.posted[k], true, LengthOf(s.arrivals, k));
  }

  /** Storing the length in the waiting buffer. */
  lemma StampHolds(l: Layout, v: View, s: State)
    requires Inv(s) && Represents(l, v, s) && (Enabled(s, Take) || Enabled(s, GiveUp))
    ensures s.next < |s.posted| && s.next < |s.arrivals| && s.posted[s.next] < |s.mem|
    ensures l.Ptr(s.posted[s.next]) in v.memory
    ensures var id, size := s.posted[s.next], s.arrivals[s.next].size;
      Holds(l, v.memory[l.Ptr(id) := v.memory[l.Ptr(id)].(size := size)], Stamped(s.mem, id, size))
  {
    hide Conserved, RxDesc.Done, RxDesc.EndOfPacket, RxDesc.Length, RxDesc.PktAddr;
    hide RingHolds, Layout.Good, Layout.Ptr, Slot;
    WaitingSlot(l, v, s);
    var id := s.posted[s.next];
    assert v.memory[l.Ptr(id)].Contents() == s.mem[id];
    HoldsAfterStore(l, v.memory, s.mem, id, s.mem[id].(size := s.arrivals[s.next].size));
  }

  /** `w` is `v` after the waiting buffer got its length and the top of the free stack was popped. */
  ghost predicate StampedView(l: Layout, v: View, s: State, w: View)
    requires |s.posted| > s.next && |s.arrivals| > s.next && s.free != []
  {
    && l.Ptr(s.posted[s.next]) in v.memory
    && w == v.(free := s.free[..|s.free| - 1],
               memory := v.memory[l.Ptr(s.posted[s.next]) :=
                                  v.memory[l.Ptr(s.posted[s.next])].(size := s.arrivals[s.next].size)])
  }

  lemma SlotAfterTake(l: Layout, v: View, s: State, k: nat)
    requires Inv(s) && Represents(l, v, s) && Enabled(s, Take) && s.next < k <= |s.posted|
    ensures var spare := s.free[|s.free| - 1];
      var desc, va := v.desc[Slot(s.next, s.n) := RxEmpty(l.DataAddr(spare))], v.va[Slot(s.next, s.n) := l.Ptr(spare)];
      SlotHolds(l, desc[Slot(k, s.n)], va[Slot(k, s.n)], (s.posted + [spare])[k], k < s.filled, LengthOf(s.arrivals, k))
  {
    var spare := s.free[|s.free| - 1];
    RxFreshness(l.DataAddr(spare), 0, 0, 0, 0);
    hide RxDesc.Done, RxDesc.EndOfPacket, RxDesc.Length, RxEmpty, Conserved;
    if k == |s.posted| {
      SlotAdd(s.next, s.n, s.n);
    } else {
      SlotInjective(s.next, k, s.n);
      assert SlotHolds(l, v.desc[Slot(k, s.n)], v.va[Slot(k, s.n)], s.posted[k], k < s.filled, LengthOf(s.arrivals, k));
    }
  }

  lemma RingAfterTake(l: Layout, v: View, v': View, s: State, r: State)
    requires Inv(s) && Represents(l, v, s) && Enabled(s, Take)
    requires r.n == s.n && r.next == s.next + 1 && r.filled == s.filled && r.arrivals == s.arrivals
    requires r.posted == s.posted + [s.free[|s.free| - 1]]
    requires v'.desc == v.desc[Slot(s.next, s.n) := RxEmpty(l.DataAddr(s.free[|s.free| - 1]))]
    requires v'.va == v.va[Slot(s.next, s.n) := l.Ptr(s.free[|s.free| - 1])]
    ensures |v'.desc| == |v'.va| == r.n && |r.posted| == r.next + r.n
    ensures RingHolds(l, v', r)
  {
    hide RxEmpty, Conserved, SlotHolds, Layout.Ptr, Layout.Good, Holds;
    forall k | r.next <= k < |r.posted|
      ensures SlotHolds(l, v'.desc[Slot(k, r.n)], v'.va[Slot(k, r.n)], r.posted[k], k < r.filled,
                        LengthOf(r.arrivals, k))
    {
      SlotAfterTake(l, v, s, k);
    }
  }

  /** Taking the waiting buffer: its length is stored in it, and its slot gets a fresh descriptor
      and pointer for the buffer on top of the free stack. */
  lemma TakeSimulates(l: Layout, v: View, v': View, s: State)
    requires Inv(s) && Represents(l, v, s) && Enabled(s, Take)
    requires |v.desc| == |v.va| && Slot(s.next, s.n) < |v.desc|
    requires var taken, spare := s.posted[s.next], s.free[|s.free| - 1];
      l.Ptr(taken) in v.memory &&
      v' == v.(memory := v.memory[l.Ptr(taken) := v.memory[l.Ptr(taken)].(size := s.arrivals[s.next].size)],
               desc := v.desc[Slot(s.next, s.n) := RxEmpty(l.DataAddr(spare))],
               va := v.va[Slot(s.next, s.n) := l.Ptr(spare)],
               free := s.free[..|s.free| - 1])
    ensures Represents(l, v', Step(s, Take))
  {
    hide Step, Stamped, RxEmpty, Inv, Enabled, Holds, Layout.Good, Layout.Ptr, RingHolds, Slot;
    TakeEffect(s);
    StampHolds(l, v, s);
    RingAfterTake(l, v, v', s, Step(s, Take));
  }

  lemma PublishSimulates(l: Layout, v: View, s: State)
    requires Inv(s) && Represents(l, v, s) && !s.lost
    ensures Step(s, Publish) == s.(saved := s.next)
    ensures Represents(l, v.(rdt := Slot(s.next + s.n - 1, s.n)), Step(s, Publish))
  {
    assert RingHolds(l, v.(rdt := Slot(s.next + s.n - 1, s.n)), Step(s, Publish));
  }

  lemma GiveUpSimulates(l: Layout, v: View, s: State)
    requires Inv(s) && Represents(l, v, s) && Enabled(s, GiveUp)
    requires l.Ptr(s.posted[s.next]) in v.memory
    ensures var p := l.Ptr(s.posted[s.next]);
      Represents(l, v.(memory := v.memory[p := v.memory[p].(size := s.arrivals[s.next].size)]), Step(s, GiveUp))
  {
    StampHolds(l, v, s);
    assert RingHolds(l, v, Step(s, GiveUp));
  }

  lemma FreeIsRepresented(l: Layout, v: View, s: State)
    requires Represents(l, v, s)
    ensures v.free == s.free && l.total == s.total
  {}

  /** Freeing by the client does not touch the ring. */
  lemma FreeStackSimulates(l: Layout, v: View, s: State, r: State)
    requires Represents(l, v, s) && r == s.(free := r.free, held := r.held)
    ensures Represents(l, v.(free := r.free), r)
  {
    assert RingHolds(l, v, r);
  }

  /** Nor does writing to a buffer the client holds. */
  lemma WriteSimulates(l: Layout, v: View, s: State, id: nat, p: Packet)
    requires Inv(s) && Represents(l, v, s) && id in s.held
    ensures l.Ptr(id) in v.memory
    ensures var memory := v.memory[l.Ptr(id) := v.memory[l.Ptr(id)].(size := p.size, data := p.data)];
      WellFormed(l, memory) && Represents(l, v.(memory := memory), Step(s, Write(id, p)))
  {
    hide Step, Inv, SlotHolds, Holds, WellFormed, Layout.Good, Layout.Ptr;
    WriteEffect(s, id, p);
    HoldsAfterStore(l, v.memory, s.mem, id, p);
    assert RingHolds(l, v, Step(s, Write(id, p)));
  }
}
