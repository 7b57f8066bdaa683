/** Where the shipped lines differ from the algorithm modelled here: for each, exactly when the
    difference does no harm. */
module ShippedLines {
  import opened Descriptors
  import opened Mempool
  import opened RingIndex
  import opened TxModel
  import opened TxSimulation
  import TxQueue

  /** send/through.c:146 compares `tx_index` with its own successor: the test fires only on a ring
      of one slot. */
  lemma OwnSuccessorTestIff(i: nat, n: nat)
    requires IsPowerOfTwo(n) && n <= 0x1_0000 && i < n
    ensures WrapRing(i, n) == i <==> n == 1
  {
    WrapSlot(i, n);
    SlotAdd(i, 1, n);
  }

  // ---- Filling without a full test ----

  /** A legal offer: different buffers, held by the client, no packet longer than its buffer. */
  ghost predicate Offer(s: State, ids: seq<nat>)
  {
    && (forall i :: 0 <= i < |ids| ==> ids[i] in s.held && ids[i] < |s.mem| && Fits(s.mem[ids[i]]))
    && (forall i, j :: 0 <= i < j < |ids| ==> ids[i] != ids[j])
  }

  /** The queue after the first `k` of the offered buffers went into the ring, fit or not. */
  ghost function Overfilled(s: State, ids: seq<nat>, k: nat): State
    requires k <= |ids| && forall i :: 0 <= i < |ids| ==> ids[i] < |s.mem|
  {
    s.(log := s.log + Offered(ids, k, s.mem), held := s.held - IdSet(ids[..k]))
  }

  lemma OverfilledNone(s: State, ids: seq<nat>)
    requires forall i :: 0 <= i < |ids| ==> ids[i] < |s.mem|
    ensures Overfilled(s, ids, 0) == s
  {
    assert IdSet(ids[..0]) == {};
  }

  lemma OverfilledNext(s: State, ids: seq<nat>, k: nat)
    requires k < |ids| && forall i :: 0 <= i < |ids| ==> ids[i] < |s.mem|
    ensures Overfilled(s, ids, k + 1) == Appended(Overfilled(s, ids, k), ids[k])
  {
    assert ids[..k + 1] == ids[..k] + [ids[k]];
    IdSetSnoc(ids[..k], ids[k]);
    assert Offered(ids, k + 1, s.mem) == Offered(ids, k, s.mem) + [Entry(ids[k], s.mem[ids[k]])];
  }

  lemma OverfilledSizes(s: State, ids: seq<nat>, k: nat)
    requires k <= |ids| && forall i :: 0 <= i < |ids| ==> ids[i] < |s.mem|
    ensures var r := Overfilled(s, ids, k);
      && r.n == s.n && r.mem == s.mem && r.completed == s.completed && r.cleaned == s.cleaned
      && r.report == s.report && |r.log| == |s.log| + k
  {}

  lemma RepresentedIndex(l: Layout, v: View, r: State)
    requires Represents(l, v, r)
    ensures r.n > 0 && v.txIndex == Slot(|r.log|, r.n) && |v.desc| == |v.va| == r.n && |r.mem| == l.total
  {}

  /** The stores of one iteration, in whatever state the ring is. */
  method StoreSlot(q: TxQueue.TxQueue, buf: nat, next: nat, ghost r: State, ghost id: nat)
    requires q.pool.Valid() && Represents(q.pool.layout, q.CurrentView(), r) && r.completed <= |r.log|
    requires id < |r.mem| && buf == q.pool.layout.Ptr(id) && next == WrapRing(q.txIndex, r.n)
    requires IsPowerOfTwo(r.n) && r.n <= 0x1_0000 && r.report == q.report
    requires q.pool.freeStack != q.virtualAddress
    modifies q`txIndex, q.descriptors, q.virtualAddress
    ensures q.pool.Valid() && Represents(q.pool.layout, q.CurrentView(), Appended(r, id))
  {
    hide Represents, Layout.Ptr, Layout.Good, TxData, AllIds;
    ghost var v, l := q.CurrentView(), q.pool.layout;
    RepresentedIndex(l, v, r);
    WrapSlot(|r.log|, r.n);
    AddressInMemory(l, q.pool.memory, id);
    var b := q.pool.memory[buf];
    ghost var v' := v.(va := v.va[q.txIndex := buf],
                       desc := v.desc[q.txIndex := TxData(b.bufAddrPhy + DATA_OFFSET, b.size, q.report)],
                       txIndex := next);
    AppendSimulates(l, v, v', r, id);
    q.virtualAddress[q.txIndex] := buf;
    var slot := q.txIndex;
    q.txIndex := next;
    q.descriptors[slot] := TxData(b.bufAddrPhy + DATA_OFFSET, b.size, q.report);
    assert q.CurrentView() == v';
  }

  /** The loop of `transmit` with the test of send/through.c:146: it never stops early, and what it
      leaves in memory is the ring of the overfilled queue.  The device is quiet. */
  method FillUnchecked(q: TxQueue.TxQueue, bufs: seq<nat>, ghost ids: seq<nat>) returns (sent: nat)
    requires q.Valid() && q.OffersHeld(bufs, ids)
    modifies q`txIndex, q.descriptors, q.virtualAddress
    ensures sent == |bufs| && forall i :: 0 <= i < |ids| ==> ids[i] < |q.model.mem|
    ensures q.pool.Valid() && Represents(q.pool.layout, q.CurrentView(), Overfilled(q.model, ids, sent))
  {
    hide Inv, Run, Start, Represents, Overfilled, Slot, WrapRing, IsPowerOfTwo, Layout.Ptr;
    q.Bounds();
    q.Parts();
    HeldInRange(q.model);
    OverfilledNone(q.model, ids);
    sent := 0;
    while sent < |bufs|
      invariant sent <= |bufs|
      invariant Represents(q.pool.layout, q.CurrentView(), Overfilled(q.model, ids, sent))
    {
      ghost var r := Overfilled(q.model, ids, sent);
      OverfilledSizes(q.model, ids, sent);
      RepresentedIndex(q.pool.layout, q.CurrentView(), r);
      OwnSuccessorTestIff(q.txIndex, q.numEntries);
      var next := WrapRing(q.txIndex, q.numEntries);
      if q.txIndex == next {
        break;
      }
      StoreSlot(q, bufs[sent], next, r, ids[sent]);
      OverfilledNext(q.model, ids, sent);
      sent := sent + 1;
    }
  }

  /** Every packet in flight is still in its slot. */
  ghost predicate NothingOverwritten(l: Layout, v: View, r: State)
    requires r.n > 0 && |v.desc| == |v.va| == r.n
  {
    forall k :: r.cleaned <= k < |r.log| ==>
      SlotHolds(l, v.desc[Slot(k, r.n)], v.va[Slot(k, r.n)], r.log[k], k < r.completed, r.report)
  }

  lemma EnqueueIsAppended(s: State, id: nat)
    requires Inv(s) && Enabled(s, Enqueue(id))
    ensures id < |s.mem| && Step(s, Enqueue(id)) == Appended(s, id)
  {
    HeldInRange(s);
  }

  lemma {:induction false} FittingFillKeepsInv(s: State, ids: seq<nat>, k: nat)
    requires Inv(s) && k <= |ids| && k <= s.n - 1 - (|s.log| - s.cleaned)
    requires Offer(s, ids)
    ensures Inv(Overfilled(s, ids, k))
  {
    hide Inv, Step;
    if k == 0 {
      OverfilledNone(s, ids);
    } else {
      FittingFillKeepsInv(s, ids, k - 1);
      OverfilledNext(s, ids, k - 1);
      var before := Overfilled(s, ids, k - 1);
      assert ids[k - 1] !in IdSet(ids[..k - 1]);
      StepKeepsInv(before, Enqueue(ids[k - 1]));
      EnqueueIsAppended(before, ids[k - 1]);
    }
  }

  /** The last entry put in the slot of packet `k`. */
  lemma {:induction false} LatestInSlot(k: nat, enqueued: nat, n: nat) returns (latest: nat)
    requires n > 0 && k < enqueued
    ensures k <= latest < enqueued <= latest + n && Slot(latest, n) == Slot(k, n)
    ensures latest > k ==> latest >= k + n
    decreases enqueued - k
  {
    if enqueued <= k + n {
      latest := k;
    } else {
      SlotAdd(k, n, n);
      latest := LatestInSlot(k + n, enqueued, n);
    }
  }

  lemma AtMostALapOverwritesNothing(l: Layout, v: View, r: State)
    requires Represents(l, v, r) && |r.log| - r.cleaned <= r.n
    ensures NothingOverwritten(l, v, r)
  {
    hide SlotHolds;
  }

  /** With more than n packets in flight, the slot of the oldest has been given to another buffer. */
  lemma OverfullOverwrites(l: Layout, v: View, s: State, ids: seq<nat>)
    requires Inv(s) && Offer(s, ids)
    requires Represents(l, v, Overfilled(s, ids, |ids|)) && |s.log| - s.cleaned + |ids| > s.n
    ensures !NothingOverwritten(l, v, Overfilled(s, ids, |ids|))
  {
    hide Conserved, TxDesc.Done, TxDesc.ReportsStatus, TxDesc.DataLength, Layout.Ptr, Holds;
    var r, k := Overfilled(s, ids, |ids|), s.cleaned;
    var latest := LatestInSlot(k, |r.log|, s.n);
    assert SlotHolds(l, v.desc[Slot(latest, r.n)], v.va[Slot(latest, r.n)], r.log[latest], latest < r.completed,
                     r.report);
    assert r.log[latest].id == ids[latest - |s.log|];
    HeldInRange(s);
    if k < |s.log| {
      assert Ids(s.InFlight())[0] == s.log[k].id;
      assert s.log[k].id in Ids(s.InFlight());
    }
    l.PtrInjective(r.log[latest].id, r.log[k].id);
  }

  /** After such a call the queue is in a permitted state, and the index arithmetic of the next clean
      counts what is in flight, exactly when the packets fitted with one slot empty; otherwise it
      counts that less whole laps.  No packet in flight has lost its slot to a newer one exactly when
      at most n are in flight. */
  lemma UncheckedFillIff(l: Layout, v: View, s: State, ids: seq<nat>)
    requires Inv(s) && Offer(s, ids)
    requires Represents(l, v, Overfilled(s, ids, |ids|))
    ensures var r, inFlight := Overfilled(s, ids, |ids|), |s.log| - s.cleaned;
      && (Inv(r) <==> inFlight + |ids| <= s.n - 1)
      && Cleanable(v.txIndex, Slot(r.cleaned, s.n), s.n) == Slot(inFlight + |ids|, s.n)
      && (Cleanable(v.txIndex, Slot(r.cleaned, s.n), s.n) == |r.log| - r.cleaned <==> inFlight + |ids| <= s.n - 1)
      && (NothingOverwritten(l, v, r) <==> inFlight + |ids| <= s.n)
  {
    hide SlotHolds, Holds, Conserved, Layout.Good, Fits, NothingOverwritten, Cleanable, Slot, RingHolds;
    var r, inFlight := Overfilled(s, ids, |ids|), |s.log| - s.cleaned;
    if inFlight + |ids| <= s.n - 1 {
      FittingFillKeepsInv(s, ids, |ids|);
    }
    CleanableLosesLaps(r.cleaned, inFlight + |ids|, s.n);
    SlotIsItselfIff(inFlight + |ids|, s.n);
    if inFlight + |ids| > s.n {
      OverfullOverwrites(l, v, s, ids);
    } else {
      AtMostALapOverwritesNothing(l, v, r);
    }
  }

  lemma AllocatedOffer(s: State, k: nat)
    requires Inv(s) && k <= |s.free| && forall id :: 0 <= id < s.total ==> Fits(s.mem[id])
    ensures Offer(AllocatedMany(s, k), s.free[|s.free| - k..])
  {
    hide Conserved, Fits;
    ExactlyOnePlace(s.total, s.free, Ids(s.InFlight()), s.held);
    var ids := s.free[|s.free| - k..];
    forall i | 0 <= i < |ids|
      ensures ids[i] in s.free && ids[i] in IdSet(ids)
    {
      assert ids[i] == s.free[|s.free| - k + i];
    }
  }

  lemma FullIsNotAllowed(s: State)
    requires s.n > 0 && |s.log| == s.cleaned + s.n
    ensures !Inv(s) && Cleanable(Slot(|s.log|, s.n), Slot(s.cleaned, s.n), s.n) == 0
  {
    SlotAdd(s.cleaned, s.n, s.n);
  }

  /** It happens: a client that allocates n buffers of a fresh queue and offers them all fills the
      ring to the last slot, and to the next clean it looks empty. */
  lemma FullRingLooksEmpty(s: State) returns (q: State, ids: seq<nat>, r: State)
    requires Start(s) && s.n <= |s.free| && |s.mem| == s.total && forall id :: 0 <= id < s.total ==> Fits(s.mem[id])
    ensures Run(s, Allocations(s.n)) == Some(q) && Offer(q, ids) && |ids| == s.n
    ensures r == Overfilled(q, ids, s.n)
    ensures r.n > 0 && !Inv(r) && Cleanable(Slot(|r.log|, r.n), Slot(r.cleaned, r.n), r.n) == 0
  {
    hide Inv, Start, IdSet, Run, Slot, Cleanable, Allocations, Overfilled, Fits;
    StartHolds(s);
    q, ids := AllocatedMany(s, s.n), s.free[|s.free| - s.n..];
    AllocationsRun(s, s.n);
    AllocatedOffer(s, s.n);
    r := Overfilled(q, ids, s.n);
    OverfilledSizes(q, ids, s.n);
    FullIsNotAllowed(r);
  }

  // ---- Cleaning from an index that was not stored back ----

  /** The pointers of these entries, in order. */
  ghost predicate ArePointers(l: Layout, ptrs: seq<nat>, es: seq<Entry>)
  {
    |ptrs| == |es| && forall i :: 0 <= i < |ptrs| ==> ptrs[i] == l.Ptr(es[i].id)
  }

  lemma ArePointersNone(l: Layout, log: seq<Entry>, c: nat)
    requires c <= |log|
    ensures ArePointers(l, [], log[c..c])
  {}

  lemma ArePointersOneMore(l: Layout, log: seq<Entry>, ptrs: seq<nat>, ptr: nat, a: nat, b: nat)
    requires a <= b < |log| && ArePointers(l, ptrs, log[a..b]) && ptr == l.Ptr(log[b].id)
    ensures ArePointers(l, ptrs + [ptr], log[a..b + 1])
  {}

  lemma ArePointersAppend(l: Layout, log: seq<Entry>, p: seq<nat>, q: seq<nat>, a: nat, b: nat, c: nat)
    requires a <= b <= c <= |log| && ArePointers(l, p, log[a..b]) && ArePointers(l, q, log[b..c])
    ensures ArePointers(l, p + q, log[a..c])
  {
    assert log[a..c] == log[a..b] + log[b..c];
  }

  /** The packet a stored index stands for: the last one with that slot before the end of the log. */
  lemma {:induction false} StoredReadsAs(stored: nat, enqueued: nat, n: nat) returns (c: nat)
    requires n > 0 && stored <= enqueued
    ensures stored <= c <= enqueued < c + n && Slot(c, n) == Slot(stored, n)
    decreases enqueued - stored
  {
    if enqueued < stored + n {
      c := stored;
    } else {
      SlotAdd(stored, n, n);
      c := StoredReadsAs(stored + n, enqueued, n);
    }
  }

  lemma SlotPointer(l: Layout, v: View, s: State, k: nat)
    requires Represents(l, v, s) && k < |s.log| <= k + s.n
    ensures v.va[Slot(k, s.n)] == l.Ptr(s.log[k].id)
  {
    assert SlotHolds(l, v.desc[Slot(k, s.n)], v.va[Slot(k, s.n)], s.log[k], k < s.completed, s.report);
  }

  /** The inner loop: the pointers it passes to `buf_free`. */
  method ReadBatch(q: TxQueue.TxQueue, clean: nat, cleanupTo: nat, ghost c: nat) returns (freed: seq<nat>)
    requires q.Running() && c + q.batch <= |q.model.log| < c + q.numEntries
    requires clean == Slot(c, q.numEntries) && cleanupTo == Slot(c + q.batch - 1, q.numEntries)
    ensures ArePointers(q.pool.layout, freed, q.model.log[c..c + q.batch])
  {
    hide Inv, Run, Start, Slot, WrapRing, IsPowerOfTwo, Layout.Ptr, Represents, ArePointers, TxQueue.TxQueue.Running;
    q.Bounds();
    q.Parts();
    var i := clean;
    freed := [];
    ArePointersNone(q.pool.layout, q.model.log, c);
    while true
      invariant |freed| < q.batch && i == Slot(c + |freed|, q.numEntries)
      invariant ArePointers(q.pool.layout, freed, q.model.log[c..c + |freed|])
      decreases q.batch - |freed|
    {
      ghost var k := c + |freed|;
      SlotPointer(q.pool.layout, q.CurrentView(), q.model, k);
      ArePointersOneMore(q.pool.layout, q.model.log, freed, q.virtualAddress[i], c, k);
      freed := freed + [q.virtualAddress[i]];
      SlotInjective(k, c + q.batch - 1, q.numEntries);
      if i == cleanupTo {
        break;
      }
      WrapSlot(k, q.numEntries);
      i := WrapRing(i, q.numEntries);
    }
  }

  /** One turn of the outer loop: the tests and, if they succeed, the inner loop. */
  method ReadNextBatch(q: TxQueue.TxQueue, clean: nat, ghost at: nat)
    returns (ready: bool, next: nat, freed: seq<nat>)
    requires q.Running() && at <= |q.model.log| < at + q.numEntries && clean == Slot(at, q.numEntries)
    ensures q.model.completed <= |q.model.log|
    ensures ready <==> at + q.batch <= q.model.completed && Reports(q.report, q.model.log[at + q.batch - 1])
    ensures ready ==> ArePointers(q.pool.layout, freed, q.model.log[at..at + q.batch])
    ensures ready ==> next == Slot(at + q.batch, q.numEntries)
  {
    hide Inv, Slot, WrapRing, IsPowerOfTwo, Reports, ArePointers, TxQueue.TxQueue.Running;
    q.Bounds();
    var cleanupTo;
    ready, cleanupTo := q.PollBatch(clean, at);
    next, freed := clean, [];
    if ready {
      freed := ReadBatch(q, clean, cleanupTo, at);
      WrapSlot(at + q.batch - 1, q.numEntries);
      next := WrapRing(cleanupTo, q.numEntries);
    }
  }

  /** A walk of the shipped clean from packet `c` has got to packet `at`, in reported batches. */
  ghost predicate Walked(l: Layout, s: State, c: nat, at: nat, batch: nat, freed: seq<nat>)
    requires batch > 0
  {
    c <= at <= |s.log| && InBatches(s, c, at, batch) && ArePointers(l, freed, s.log[c..at])
  }

  lemma WalkStarts(l: Layout, s: State, c: nat, batch: nat)
    requires batch > 0 && c <= |s.log|
    ensures Walked(l, s, c, c, batch, [])
  {}

  lemma WalkOneBatch(l: Layout, s: State, c: nat, at: nat, batch: nat, freed: seq<nat>, more: seq<nat>)
    requires batch > 0 && Walked(l, s, c, at, batch, freed)
    requires at + batch <= |s.log| && Reports(s.report, s.log[at + batch - 1])
    requires ArePointers(l, more, s.log[at..at + batch])
    ensures Walked(l, s, c, at + batch, batch, freed + more)
  {
    hide InBatches, ArePointers, Reports;
    OneMoreBatch(s, c, at, batch);
    ArePointersAppend(l, s.log, freed, more, c, at, at + batch);
  }

  lemma WalkDone(l: Layout, s: State, r: State, c: nat, at: nat, batch: nat, freed: seq<nat>)
    requires batch > 0 && Walked(l, s, c, at, batch, freed) && r.log == s.log && r.report == s.report
    requires r.completed <= |r.log| && (at == c || at <= r.completed) && ReportedBatches(r, at, batch) == 0
    ensures ReportedBatches(r, c, batch) == at - c && ArePointers(l, freed, r.log[c..at])
  {
    hide InBatches, ReportedBatches;
    InBatchesKept(s, r, c, at, batch);
    NoMoreBatches(r, c, at, batch);
  }

  /** `tx_clean` of send/through.c:99-133 started from an index stored long ago, that of packet `c`,
      whatever client, driver and device have done since: the pointers it passes to `buf_free`. */
  method CleanFromStored(q: TxQueue.TxQueue, stored: nat, ghost c: nat) returns (freed: seq<nat>)
    requires q.Running() && c <= |q.model.log| < c + q.numEntries && stored == Slot(c, q.numEntries)
    modifies q`wire, q`tdh, q`writeBack, q`trace, q`model, q.descriptors
    ensures q.Running() && old(q.trace) <= q.trace && DeviceOnly(old(q.model), q.model)
    ensures q.batch > 0 && q.model.completed <= |q.model.log|
    ensures var w := ReportedBatches(q.model, c, q.batch);
      c + w <= |q.model.log| && ArePointers(q.pool.layout, freed, q.model.log[c..c + w])
  {
    hide Inv, Slot, IsPowerOfTwo, ReportedBatches, Reports, DeviceOnly, Walked, ArePointers, TxQueue.TxQueue.Running;
    q.Bounds();
    var clean := stored;
    ghost var s, at := q.model, c;
    freed := [];
    DeviceNone(s);
    WalkStarts(q.pool.layout, s, c, q.batch);
    while true
      invariant q.Running() && old(q.trace) <= q.trace && DeviceOnly(s, q.model)
      invariant c <= at <= |s.log| < at + q.numEntries && (at == c || at <= q.model.completed)
      invariant clean == Slot(at, q.numEntries) && Walked(q.pool.layout, s, c, at, q.batch, freed)
      decreases |s.log| - at
    {
      ghost var before := q.model;
      q.DeviceRuns();
      DeviceThenDevice(s, before, q.model);
      q.Bounds();
      var ready, next, more := ReadNextBatch(q, clean, at);
      if !ready {
        break;
      }
      WalkOneBatch(q.pool.layout, s, c, at, q.batch, freed, more);
      clean, freed := next, freed + more;
      at := at + q.batch;
    }
    WalkDone(q.pool.layout, s, q.model, c, at, q.batch, freed);
  }

  /** The entries in flight that a clean over packets `c..c + w` does not visit. */
  function Unvisited(s: State, c: nat, w: nat): seq<Entry>
    requires s.cleaned <= |s.log| && c + w <= |s.log|
  {
    if c + w <= s.cleaned then s.log[s.cleaned..]
    else if c <= s.cleaned then s.log[c + w..]
    else s.log[s.cleaned..c] + s.log[c + w..]
  }

  /** Who has which buffer after the buffers of packets `c..c + w` have been pushed: the free stack
      longer, the visited entries out of the ring, the client's buffers where they are. */
  ghost predicate ConservedAfter(s: State, c: nat, w: nat)
    requires s.cleaned <= |s.log| && c + w <= |s.log|
  {
    Conserved(s.total, s.free + Ids(s.log[c..c + w]), Ids(Unvisited(s, c, w)), s.held)
  }

  lemma VisitedTwice(s: State, c: nat, w: nat)
    requires 0 < w && c < s.cleaned <= |s.log| && c + w <= |s.log|
    ensures w + |Unvisited(s, c, w)| > |s.InFlight()|
  {}

  /** Pushing from before the end of the last clean leaves too many ids. */
  lemma StaleCleanBreaks(s: State, c: nat, w: nat)
    requires Inv(s) && 0 < w && c < s.cleaned && c + w <= |s.log|
    ensures !ConservedAfter(s, c, w)
  {
    hide Conserved, Ids, Unvisited;
    ConservedCount(s.total, s.free, Ids(s.InFlight()), s.held);
    VisitedTwice(s, c, w);
    if ConservedAfter(s, c, w) {
      ConservedCount(s.total, s.free + Ids(s.log[c..c + w]), Ids(Unvisited(s, c, w)), s.held);
      assert false;
    }
  }

  lemma IdsConcat(a: seq<Entry>, b: seq<Entry>)
    ensures Ids(a + b) == Ids(a) + Ids(b)
  {}

  lemma MoveMiddleToFree(total: nat, free: seq<nat>, a: seq<nat>, b: seq<nat>, c: seq<nat>, held: set<nat>)
    requires Conserved(total, free, a + b + c, held)
    ensures Conserved(total, free + b, a + c, held)
  {
    hide AllIds;
  }

  lemma LaterCleanConserves(s: State, c: nat, w: nat)
    requires Inv(s) && (w == 0 || s.cleaned <= c) && c + w <= |s.log|
    ensures ConservedAfter(s, c, w)
  {
    hide Conserved, Ids, Wire, Fits;
    var pushed := s.log[c..c + w];
    if w == 0 {
      assert s.free + Ids(pushed) == s.free;
      assert Unvisited(s, c, w) == s.InFlight();
    } else {
      var skipped, rest := s.log[s.cleaned..c], s.log[c + w..];
      assert s.InFlight() == skipped + pushed + rest;
      assert Unvisited(s, c, w) == skipped + rest;
      IdsConcat(skipped, pushed);
      IdsConcat(skipped + pushed, rest);
      IdsConcat(skipped, rest);
      MoveMiddleToFree(s.total, s.free, Ids(skipped), Ids(pushed), Ids(rest), s.held);
    }
  }

  /** The queue `r` is `s` after some Reclaims that pushed just these buffers. */
  ghost predicate Reclaims(s: State, c: nat, w: nat, r: State)
    requires s.cleaned <= |s.log| && c + w <= |s.log|
  {
    && CleanedFrom(s, r) && r.log == s.log
    && r.free == s.free + Ids(s.log[c..c + w])
    && r.InFlight() == Unvisited(s, c, w)
  }

  lemma CleanInPlaceReclaims(s: State, c: nat, w: nat)
    requires Inv(s) && (w == 0 || s.cleaned == c) && c + w <= |s.log| && s.cleaned + w <= |s.log|
    ensures Reclaims(s, c, w, s.(free := s.free + Ids(s.log[c..c + w]), cleaned := s.cleaned + w))
  {
    hide Conserved, Ids;
    var r := s.(free := s.free + Ids(s.log[c..c + w]), cleaned := s.cleaned + w);
    if w == 0 {
      assert s.log[c..c] == s.log[s.cleaned..s.cleaned] == [];
    }
    assert r.InFlight() == Unvisited(s, c, w);
  }

  lemma CleanElsewhereDoesNot(s: State, c: nat, w: nat, r: State)
    requires Inv(s) && w > 0 && s.cleaned != c && c + w <= |s.log|
    ensures !Reclaims(s, c, w, r)
  {
    if Reclaims(s, c, w, r) {
      assert |r.free| == |s.free| + w && r.cleaned == s.cleaned + w;
      assert |Unvisited(s, c, w)| == |s.log| - s.cleaned - w;
      assert c > s.cleaned;
      assert Unvisited(s, c, w)[0] == s.log[s.cleaned] && r.InFlight()[0] == s.log[s.cleaned + w];
      assert Ids(s.InFlight())[0] == Ids(s.InFlight())[w];
      ExactlyOnePlace(s.total, s.free, Ids(s.InFlight()), s.held);
      assert false;
    }
  }

  /** The tests of a clean that starts at packet `c` succeed at least once. */
  predicate FindsABatch(s: State, c: nat, batch: nat)
    requires batch > 0 && s.completed <= |s.log|
  {
    c + batch <= s.completed && Reports(s.report, s.log[c + batch - 1])
  }

  /** send/through.c:99-133 does not store `clean_index` back, so a later call starts again from
      packet `c`, whatever has been cleaned meanwhile.  Unless its tests fail at once, so that it
      pushes nothing, it leaves each id in one place exactly when nothing from `c` on has been
      cleaned, and does what the driver should, reclaim the oldest buffers in flight, exactly when
      `c` is where the last clean ended. */
  lemma UnsavedCleanIff(s: State, c: nat, batch: nat)
    requires Inv(s) && batch > 0 && c <= |s.log|
    ensures s.completed <= |s.log|
    ensures var w := ReportedBatches(s, c, batch);
      && c + w <= |s.log|
      && (ConservedAfter(s, c, w) <==> s.cleaned <= c || !FindsABatch(s, c, batch))
      && ((exists r :: Reclaims(s, c, w, r)) <==> s.cleaned == c || !FindsABatch(s, c, batch))
  {
    hide Conserved, ConservedAfter, Reclaims, Fits, Wire, Reports;
    var w := ReportedBatches(s, c, batch);
    if w == 0 || s.cleaned <= c {
      LaterCleanConserves(s, c, w);
    } else {
      StaleCleanBreaks(s, c, w);
    }
    if w == 0 || s.cleaned == c {
      CleanInPlaceReclaims(s, c, w);
    } else {
      forall r
        ensures !Reclaims(s, c, w, r)
      {
        CleanElsewhereDoesNot(s, c, w, r);
      }
    }
  }

  lemma OneBatchOfOne(r: State)
    requires |r.log| == 1 == r.completed && Reports(r.report, r.log[0])
    ensures ReportedBatches(r, 0, 1) == 1 && Ids(r.log[0..1]) == [r.log[0].id]
  {
    hide Reports;
  }

  /** It happens: a client that sends one packet and allocates again holds the very buffer that the
      second clean pushes on the free stack. */
  lemma UnsavedCleanFreesHeldBuffer(s: State, id: nat)
    requires Start(s) && s.free != [] && id == s.free[|s.free| - 1]
    requires id < |s.mem| && Fits(s.mem[id]) && Reporting(s.report, s.mem[id].size)
    ensures var r := Run(s, [Alloc, Enqueue(id), Publish, Fetch, Complete, Reclaim, Alloc]);
      && r.Some? && id in r.value.held
      && |r.value.log| == 1 == r.value.completed && ReportedBatches(r.value, 0, 1) == 1
      && Ids(r.value.log[0..1]) == [id]
      && !ConservedAfter(r.value, 0, 1)
  {
    hide Run, Inv, Start, ConservedAfter, Fits, OnWire, Reporting;
    var sent := [] + [Alloc] + [Enqueue(id)] + [Publish] + [Fetch];
    var t := sent + [Complete] + [Reclaim];
    assert t + [Alloc] == [Alloc, Enqueue(id), Publish, Fetch, Complete, Reclaim, Alloc];
    StartHolds(s);
    RunNothing(s);
    RunSnoc(s, [], Alloc);
    SendOne(s, [] + [Alloc], id);
    FinishOne(s, sent);
    RunSnoc(s, t, Alloc);
    var r := Step(Run(s, t).value, Alloc);
    OneBatchOfOne(r);
    StaleCleanBreaks(r, 0, 1);
  }

  function EntryAddress(base: nat, id: nat, size: nat): nat
  {
    base + id * size
  }

  /** send/lib.c:95-96 never assigns `buf_size`: with any value there, allocation returns the
      buffers that were initialised exactly when the value is the entry size, or there is at most
      one buffer. */
  lemma UnassignedBufSizeIff(l: Layout, bufSize: nat)
    ensures (forall id :: 0 <= id < l.total ==> EntryAddress(l.base, id, bufSize) == l.Ptr(id))
            <==> bufSize == l.entrySize || l.total <= 1
  {
    forall id | 0 <= id < l.total
      ensures l.Ptr(id) == EntryAddress(l.base, id, l.entrySize)
    {
      l.PtrIsOffset(id);
    }
    if l.total >= 2 && bufSize != l.entrySize {
      assert EntryAddress(l.base, 1, bufSize) != l.Ptr(1);
    }
  }
}
