/** The transmit side as a FIFO queue: what driver, device and client do to it, one atomic action
    at a time, and what every run keeps.  Packets are numbered from 0 without wrapping; there are
    no rings, slots or registers here. */
module TxModel {
  import opened Descriptors
  import opened Mempool
  import RingIndex

  /** An accepted packet: its buffer, and the contents the buffer had when it was accepted. */
  datatype Entry = Entry(id: nat, packet: Packet)

  /** Entries `log[cleaned..]` are in flight.  The device has read those below `fetched` and has
      finished with those below `completed`, reporting those that asked for it; the driver has told
      it about those below `published`.  `report` says whether the driver asks in every descriptor. */
  datatype State = State(
    n: nat, total: nat, report: bool,
    free: seq<nat>, held: set<nat>, mem: seq<Packet>,
    log: seq<Entry>, cleaned: nat, completed: nat, fetched: nat, published: nat,
    wire: seq<Packet>)
  {
    function InFlight(): seq<Entry>
      requires cleaned <= |log|
    {
      log[cleaned..]
    }
  }

  datatype Event =
    | Alloc                                // the client takes the top of the free stack
    | Release(id: nat)                     // the client frees a buffer
    | Write(id: nat, packet: Packet)       // the client fills a buffer
    | Enqueue(id: nat)                     // the driver accepts a buffer
    | Publish                              // the driver writes the tail register
    | Fetch                                // the device reads the oldest unread packet
    | Complete                             // the device is done with the oldest packet it has read
    | Reclaim                              // the driver frees the oldest buffer in flight

  function Ids(es: seq<Entry>): (ids: seq<nat>)
    ensures |ids| == |es|
    ensures forall i :: 0 <= i < |es| ==> ids[i] == es[i].id
  {
    seq(|es|, i requires 0 <= i < |es| => es[i].id)
  }

  /** No packet is longer than its buffer. */
  ghost predicate AllFit(es: seq<Entry>)
  {
    forall i :: 0 <= i < |es| ==> Fits(es[i].packet)
  }

  ghost function Wire(es: seq<Entry>): (ps: seq<Packet>)
    requires AllFit(es)
    ensures |ps| == |es|
    ensures forall i :: 0 <= i < |es| ==> ps[i] == OnWire(es[i].packet)
  {
    seq(|es|, i requires 0 <= i < |es| => OnWire(es[i].packet))
  }

  predicate Reports(report: bool, e: Entry)
  {
    Reporting(report, e.packet.size)
  }

  ghost predicate Inv(s: State)
  {
    && s.n >= 2 && |s.mem| == s.total
    && s.cleaned <= s.completed <= s.fetched <= s.published <= |s.log| < s.cleaned + s.n
    && Conserved(s.total, s.free, Ids(s.InFlight()), s.held)
    && AllFit(s.log) && s.wire == Wire(s.log[..s.fetched])
    && forall k :: s.fetched <= k < |s.log| ==> s.log[k].id < s.total && s.mem[s.log[k].id] == s.log[k].packet
  }

  /** The device has reported an entry in flight. */
  ghost predicate ReportSeen(s: State)
  {
    exists k :: s.cleaned <= k < s.completed && k < |s.log| && Reports(s.report, s.log[k])
  }

  /** When an action may happen: the client touches only buffers it holds and offers no packet
      longer than its buffer; the driver keeps one slot empty and frees only what the device has
      reported, or passed on the way to something it has reported; and the device works in order. */
  ghost predicate Enabled(s: State, e: Event)
  {
    match e
    case Alloc => s.free != []
    case Release(id) => id in s.held
    case Write(id, _) => id in s.held
    case Enqueue(id) => id in s.held && |s.log| - s.cleaned < s.n - 1 && id < |s.mem| && Fits(s.mem[id])
    case Publish => true
    case Fetch => s.fetched < s.published
    case Complete => s.completed < s.fetched
    case Reclaim => s.cleaned < s.completed && ReportSeen(s)
  }

  lemma HeldInRange(s: State)
    requires Inv(s)
    ensures forall id :: id in s.held ==> id < |s.mem|
    ensures forall id :: id in s.held ==> id !in Ids(s.InFlight()) && id !in s.free
  {
    ExactlyOnePlace(s.total, s.free, Ids(s.InFlight()), s.held);
  }

  ghost function Step(s: State, e: Event): State
    requires Inv(s) && Enabled(s, e)
  {
    HeldInRange(s);
    match e
    case Alloc => s.(free := s.free[..|s.free| - 1], held := s.held + {s.free[|s.free| - 1]})
    case Release(id) => s.(free := s.free + [id], held := s.held - {id})
    case Write(id, p) => s.(mem := s.mem[id := p])
    case Enqueue(id) => s.(log := s.log + [Entry(id, s.mem[id])], held := s.held - {id})
    case Publish => s.(published := |s.log|)
    case Fetch => s.(wire := s.wire + [OnWire(s.mem[s.log[s.fetched].id])], fetched := s.fetched + 1)
    case Complete => s.(completed := s.completed + 1)
    case Reclaim => s.(free := s.free + [s.log[s.cleaned].id], cleaned := s.cleaned + 1)
  }

  lemma WriteEffect(s: State, id: nat, p: Packet)
    requires Inv(s) && Enabled(s, Write(id, p))
    ensures id < |s.mem| == s.total && Step(s, Write(id, p)) == s.(mem := s.mem[id := p])
  {
    HeldInRange(s);
  }

  lemma WriteKeepsInv(s: State, id: nat, p: Packet)
    requires Inv(s) && Enabled(s, Write(id, p))
    ensures Inv(Step(s, Write(id, p)))
  {
    hide Conserved;
    HeldInRange(s);
    var r := Step(s, Write(id, p));
    forall k | s.fetched <= k < |s.log|
      ensures r.mem[s.log[k].id] == s.log[k].packet
    {
      assert Ids(s.InFlight())[k - s.cleaned] == s.log[k].id;
    }
  }

  lemma EnqueueKeepsInv(s: State, id: nat)
    requires Inv(s) && Enabled(s, Enqueue(id))
    ensures Inv(Step(s, Enqueue(id)))
  {
    hide Conserved;
    HeldInRange(s);
    var r := Step(s, Enqueue(id));
    MoveHeldToRing(s.total, s.free, Ids(s.InFlight()), s.held, id);
    assert Ids(r.InFlight()) == Ids(s.InFlight()) + [id];
    assert r.log[..s.fetched] == s.log[..s.fetched];
  }

  lemma ReclaimKeepsInv(s: State)
    requires Inv(s) && Enabled(s, Reclaim)
    ensures Inv(Step(s, Reclaim))
  {
    hide Conserved;
    MoveRingToFree(s.total, s.free, Ids(s.InFlight()), s.held);
    assert Ids(Step(s, Reclaim).InFlight()) == Ids(s.InFlight())[1..];
  }

  lemma AllocKeepsInv(s: State)
    requires Inv(s) && Enabled(s, Alloc)
    ensures Inv(Step(s, Alloc))
  {
    hide Conserved;
    MoveFreeToHeld(s.total, s.free, Ids(s.InFlight()), s.held);
    assert Step(s, Alloc).InFlight() == s.InFlight();
  }

  lemma ReleaseKeepsInv(s: State, id: nat)
    requires Inv(s) && Enabled(s, Release(id))
    ensures Inv(Step(s, Release(id)))
  {
    hide Conserved;
    MoveHeldToFree(s.total, s.free, Ids(s.InFlight()), s.held, id);
    assert Step(s, Release(id)).InFlight() == s.InFlight();
  }

  lemma FetchKeepsInv(s: State)
    requires Inv(s) && Enabled(s, Fetch)
    ensures Inv(Step(s, Fetch))
  {
    hide Conserved;
    assert Step(s, Fetch).wire == Wire(s.log[..s.fetched + 1]);
  }

  /** Every action keeps the invariant: the heart of the FIFO and conservation results. */
  lemma StepKeepsInv(s: State, e: Event)
    requires Inv(s) && Enabled(s, e)
    ensures Inv(Step(s, e))
  {
    hide Conserved;
    match e
    case Alloc =>
      AllocKeepsInv(s);
    case Release(id) =>
      ReleaseKeepsInv(s, id);
    case Write(id, p) =>
      WriteKeepsInv(s, id, p);
    case Enqueue(id) =>
      EnqueueKeepsInv(s, id);
    case Publish =>
    case Fetch =>
      FetchKeepsInv(s);
    case Complete =>
    case Reclaim =>
      ReclaimKeepsInv(s);
  }

  /** Running a sequence of actions; None when one of them may not happen. */
  ghost function Run(s: State, t: seq<Event>): (r: Option<State>)
    requires Inv(s)
    ensures r.Some? ==> Inv(r.value)
  {
    if t == [] then Some(s)
    else
      var r := Run(s, t[..|t| - 1]);
      var e := t[|t| - 1];
      if r.Some? && Enabled(r.value, e) then StepKeepsInv(r.value, e); Some(Step(r.value, e)) else None
  }

  lemma RunNothing(s: State)
    requires Inv(s)
    ensures Run(s, []) == Some(s)
  {}

  /** The last action of a run happened, in the state reached by the rest. */
  lemma LastStep(s: State, t: seq<Event>) returns (before: State)
    requires Inv(s) && t != [] && Run(s, t).Some?
    ensures var u, e := t[..|t| - 1], t[|t| - 1];
      && Run(s, u) == Some(before) && Inv(before) && Enabled(before, e) && Run(s, t) == Some(Step(before, e))
  {
    before := Run(s, t[..|t| - 1]).value;
  }

  lemma RunSnoc(s: State, t: seq<Event>, e: Event)
    requires Inv(s) && Run(s, t).Some? && Enabled(Run(s, t).value, e)
    ensures Run(s, t + [e]) == Some(Step(Run(s, t).value, e))
  {
    assert (t + [e])[..|t + [e]| - 1] == t;
  }

  // ---- What every run keeps ----

  /** A queue on which nothing has happened yet. */
  ghost predicate Start(s: State)
  {
    Inv(s) && s.log == [] && s.held == {}
  }

  lemma StartHolds(s: State)
    requires Start(s)
    ensures Inv(s) && s.n >= 2 && s.log == []
    ensures s.cleaned == s.completed == s.fetched == s.published == 0
  {}

  /** The packets accepted during a run, with the contents each had at that moment. */
  ghost function Accepted(s: State, t: seq<Event>): seq<Packet>
    requires Inv(s) && Run(s, t).Some?
  {
    if t == [] then []
    else
      var u, e := t[..|t| - 1], t[|t| - 1];
      var before := Run(s, u).value;
      HeldInRange(before);
      Accepted(s, u) + if e.Enqueue? then [before.mem[e.id]] else []
  }

  lemma {:induction false} LogRecordsAccepted(s: State, t: seq<Event>)
    requires Start(s) && Run(s, t).Some?
    ensures |Accepted(s, t)| == |Run(s, t).value.log|
    ensures forall k :: 0 <= k < |Accepted(s, t)| ==> Run(s, t).value.log[k].packet == Accepted(s, t)[k]
  {
    if t != [] {
      LogRecordsAccepted(s, t[..|t| - 1]);
      var before := LastStep(s, t);
    }
  }

  lemma WireShows(s: State)
    requires Inv(s)
    ensures |s.wire| <= |s.log|
    ensures forall k :: 0 <= k < |s.wire| ==> Fits(s.log[k].packet) && s.wire[k] == OnWire(s.log[k].packet)
  {
    hide Conserved, Fits, OnWire;
    forall k | 0 <= k < |s.wire|
      ensures Fits(s.log[k].packet) && s.wire[k] == OnWire(s.log[k].packet)
    {
      assert s.log[..s.fetched][k] == s.log[k];
    }
  }

  /** Transmit is a FIFO: in every run, what the device has put on the wire is the accepted packets
      in order of acceptance, up to where the device has read, each with its contents as accepted up
      to its length, whatever the client has written, freed or allocated since. */
  lemma TransmitIsFifo(s: State, t: seq<Event>)
    requires Start(s) && Run(s, t).Some?
    ensures var wire, accepted := Run(s, t).value.wire, Accepted(s, t);
      && |wire| <= |accepted|
      && (forall k :: 0 <= k < |wire| ==> Fits(accepted[k]) && wire[k] == OnWire(accepted[k]))
      && (forall k :: 0 <= k < |wire| ==> Transmits(accepted[k], wire[k]))
      && (forall k :: 0 <= k < |wire| && accepted[k].size <= 0xFFFF ==> wire[k].size == accepted[k].size)
  {
    hide Fits, OnWire, Transmits, Accepted, Inv, Run;
    LogRecordsAccepted(s, t);
    var r := Run(s, t).value;
    WireShows(r);
    forall k | 0 <= k < |r.wire|
      ensures Transmits(r.log[k].packet, r.wire[k])
      ensures r.log[k].packet.size <= 0xFFFF ==> r.wire[k].size == r.log[k].packet.size
    {
      OnWireTransmits(r.log[k].packet);
    }
  }

  /** What an action of the driver adds to the free stack. */
  ghost function PushedByDriver(s: State, e: Event): seq<nat>
    requires Inv(s) && Enabled(s, e)
  {
    if e.Reclaim? then Step(s, e).free[|s.free|..] else []
  }

  /** The ids pushed on the free stack by the driver during a run. */
  ghost function Reclaimed(s: State, t: seq<Event>): seq<nat>
    requires Inv(s) && Run(s, t).Some?
  {
    if t == [] then []
    else
      var u := t[..|t| - 1];
      Reclaimed(s, u) + PushedByDriver(Run(s, u).value, t[|t| - 1])
  }

  lemma ReclaimStep(s: State, e: Event)
    requires Inv(s) && Enabled(s, e)
    ensures var r := Step(s, e);
      && r.cleaned <= |r.log|
      && r.completed == s.completed + (if e.Complete? then 1 else 0)
      && Ids(r.log[..r.cleaned]) == Ids(s.log[..s.cleaned]) + PushedByDriver(s, e)
  {
    var r := Step(s, e);
    if e.Reclaim? {
      assert r.free[|s.free|..] == [s.log[s.cleaned].id];
      assert Ids(r.log[..r.cleaned]) == Ids(s.log[..s.cleaned]) + [s.log[s.cleaned].id];
    } else {
      assert r.log[..r.cleaned] == s.log[..s.cleaned];
    }
  }

  function Completions(t: seq<Event>): nat
  {
    if t == [] then 0 else Completions(t[..|t| - 1]) + if t[|t| - 1].Complete? then 1 else 0
  }

  /** Reclaim is safe: at every point of every run the buffers freed by the driver are those of the
      accepted packets, oldest first and each once, and never more than the device has completed. */
  lemma {:induction false} ReclaimFollowsCompletion(s: State, t: seq<Event>)
    requires Start(s) && Run(s, t).Some?
    ensures var r := Run(s, t).value;
      && r.cleaned == |Reclaimed(s, t)|
      && r.completed == Completions(t)
      && |Reclaimed(s, t)| <= Completions(t)
      && Reclaimed(s, t) == Ids(r.log[..r.cleaned])
  {
    if t != [] {
      var u := t[..|t| - 1];
      ReclaimFollowsCompletion(s, u);
      var before := LastStep(s, t);
      ReclaimStep(before, t[|t| - 1]);
    }
  }

  lemma {:induction false} SizesNeverChange(s: State, t: seq<Event>)
    requires Inv(s) && Run(s, t).Some?
    ensures Run(s, t).value.n == s.n && Run(s, t).value.total == s.total && Run(s, t).value.report == s.report
  {
    if t != [] {
      SizesNeverChange(s, t[..|t| - 1]);
      var before := LastStep(s, t);
    }
  }

  /** Conservation and no starvation: in every run each id is in exactly one place, and at most
      n - 1 of those the client does not hold are missing from the free stack. */
  lemma BuffersAreConserved(s: State, t: seq<Event>)
    requires Inv(s) && Run(s, t).Some?
    ensures var r := Run(s, t).value;
      && (forall id :: id in r.free || id in Ids(r.InFlight()) || id in r.held <==> 0 <= id < s.total)
      && (forall id :: !(id in r.free && id in Ids(r.InFlight())) && !(id in r.free && id in r.held)
                       && !(id in Ids(r.InFlight()) && id in r.held))
      && |r.free| + |r.InFlight()| + |r.held| == s.total
      && |r.free| >= s.total - (s.n - 1) - |r.held|
  {
    SizesNeverChange(s, t);
    var r := Run(s, t).value;
    ExactlyOnePlace(r.total, r.free, Ids(r.InFlight()), r.held);
    ConservedCount(r.total, r.free, Ids(r.InFlight()), r.held);
  }

  lemma {:induction false} ContentsKeep(s: State, t: seq<Event>, good: Packet -> bool)
    requires Start(s) && Run(s, t).Some?
    requires forall id :: 0 <= id < s.total ==> good(s.mem[id])
    requires forall i :: 0 <= i < |t| && t[i].Write? ==> good(t[i].packet)
    ensures var r := Run(s, t).value;
      && (forall id :: 0 <= id < r.total ==> good(r.mem[id]))
      && (forall k :: 0 <= k < |r.log| ==> good(r.log[k].packet))
  {
    hide Conserved, Fits, OnWire, Wire, ReportSeen;
    if t != [] {
      ContentsKeep(s, t[..|t| - 1], good);
      var before := LastStep(s, t);
      HeldInRange(before);
    }
  }

  /** If every buffer satisfies `good` at the start and the client only writes contents that do, so do
      the contents of every accepted packet, and what the device puts on the wire is sent from such. */
  lemma WireKeeps(s: State, t: seq<Event>, good: Packet -> bool)
    requires Start(s) && Run(s, t).Some?
    requires forall id :: 0 <= id < s.total ==> good(s.mem[id])
    requires forall i :: 0 <= i < |t| && t[i].Write? ==> good(t[i].packet)
    ensures var r := Run(s, t).value;
      && (forall id :: 0 <= id < r.total ==> good(r.mem[id]))
      && (forall k :: 0 <= k < |r.log| ==> good(r.log[k].packet))
      && |r.wire| <= |r.log|
      && (forall k :: 0 <= k < |r.wire| ==> Fits(r.log[k].packet) && r.wire[k] == OnWire(r.log[k].packet))
  {
    hide Inv, Run, Fits, OnWire;
    ContentsKeep(s, t, good);
    WireShows(Run(s, t).value);
  }

  // ---- Whole batches ----

  function Min(a: int, b: int): int
  {
    if a <= b then a else b
  }

  /** The largest multiple of `batch` not above `done`. */
  function WholeBatches(done: nat, batch: nat): (r: nat)
    requires batch > 0
    ensures r <= done < r + batch
  {
    if done < batch then 0 else batch + WholeBatches(done - batch, batch)
  }

  lemma {:induction false} WholeBatchesIsFloor(done: nat, batch: nat)
    requires batch > 0
    ensures WholeBatches(done, batch) == batch * (done / batch)
  {
    if done < batch {
      RingIndex.QuotientAndRemainder(done, batch, 0, done);
    } else {
      WholeBatchesIsFloor(done - batch, batch);
      var q := (done - batch) / batch;
      assert done == (q + 1) * batch + (done - batch) % batch;
      RingIndex.QuotientAndRemainder(done, batch, q + 1, (done - batch) % batch);
      assert batch * (q + 1) == batch + batch * q;
    }
  }

  /** The batches from entry `c` on whose last entry the device has reported, up to the first
      whose last entry it has not. */
  function ReportedBatches(s: State, c: nat, batch: nat): (w: nat)
    requires batch > 0 && s.completed <= |s.log|
    ensures w > 0 <==> c + batch <= s.completed && Reports(s.report, s.log[c + batch - 1])
    ensures w > 0 ==> c + w <= s.completed
    decreases |s.log| - c
  {
    if c + batch <= s.completed && Reports(s.report, s.log[c + batch - 1])
    then batch + ReportedBatches(s, c + batch, batch)
    else 0
  }

  /** From `a` to `b` there are only such batches. */
  predicate InBatches(s: State, a: nat, b: nat, batch: nat)
    requires batch > 0
    decreases b - a
  {
    || a == b
    || (a + batch <= b <= |s.log| && Reports(s.report, s.log[a + batch - 1]) && InBatches(s, a + batch, b, batch))
  }

  lemma {:induction false} OneMoreBatch(s: State, a: nat, b: nat, batch: nat)
    requires batch > 0 && InBatches(s, a, b, batch) && a <= b
    requires b + batch <= |s.log| && Reports(s.report, s.log[b + batch - 1])
    ensures InBatches(s, a, b + batch, batch)
    decreases b - a
  {
    if a < b {
      OneMoreBatch(s, a + batch, b, batch);
    }
  }

  lemma {:induction false} InBatchesKept(s: State, r: State, a: nat, b: nat, batch: nat)
    requires batch > 0 && r.log == s.log && r.report == s.report && InBatches(s, a, b, batch)
    ensures InBatches(r, a, b, batch)
    decreases b - a
  {
    if a != b {
      InBatchesKept(s, r, a + batch, b, batch);
    }
  }

  /** A walk in batches that stops where no further batch is reported has found them all. */
  lemma {:induction false} NoMoreBatches(s: State, a: nat, b: nat, batch: nat)
    requires batch > 0 && s.completed <= |s.log| && a <= b && (a == b || b <= s.completed)
    requires InBatches(s, a, b, batch) && ReportedBatches(s, b, batch) == 0
    ensures ReportedBatches(s, a, batch) == b - a
    decreases b - a
  {
    if a < b {
      NoMoreBatches(s, a + batch, b, batch);
    }
  }

  /** More entries and more completions can only add to it. */
  lemma {:induction false} ReportedBatchesMonotone(s: State, r: State, c: nat, batch: nat)
    requires batch > 0 && s.completed <= |s.log| && r.completed <= |r.log|
    requires s.completed <= r.completed && s.log <= r.log && s.report == r.report
    ensures ReportedBatches(s, c, batch) <= ReportedBatches(r, c, batch)
    ensures s.completed == r.completed ==> ReportedBatches(s, c, batch) == ReportedBatches(r, c, batch)
    decreases |s.log| - c
  {
    if ReportedBatches(s, c, batch) > 0 {
      ReportedBatchesMonotone(s, r, c + batch, batch);
    }
  }

  /** If every descriptor asks for a report, they are the whole batches among what is completed. */
  lemma {:induction false} AllReported(s: State, c: nat, batch: nat)
    requires batch > 0 && s.completed <= |s.log| && c <= s.completed
    requires forall k :: 0 <= k < |s.log| ==> Reports(s.report, s.log[k])
    ensures ReportedBatches(s, c, batch) == WholeBatches(s.completed - c, batch)
    decreases |s.log| - c
  {
    if c + batch <= s.completed {
      AllReported(s, c + batch, batch);
    }
  }

  // ---- Single packets ----

/** After `k` allocations in a row. */
  ghost function AllocatedMany(s: State, k: nat): State
    requires k <= |s.free|
  {
    s.(free := s.free[..|s.free| - k], held := s.held + IdSet(s.free[|s.free| - k..]))
  }

  lemma AllocatedNone(s: State)
    ensures AllocatedMany(s, 0) == s
  {
    assert IdSet(s.free[|s.free|..]) == {};
  }

  lemma TopIds(free: seq<nat>, k: nat)
    requires k < |free|
    ensures IdSet(free[|free| - k - 1..]) == IdSet(free[|free| - k..]) + {free[|free| - k - 1]}
    ensures free[..|free| - k][..|free| - k - 1] == free[..|free| - (k + 1)]
  {
    assert free[|free| - k - 1..] == [free[|free| - k - 1]] + free[|free| - k..];
  }

  lemma AllocateOneMore(s: State, r: State, k: nat)
    requires Inv(r) && k < |s.free| && r == AllocatedMany(s, k)
    ensures Enabled(r, Alloc) && Step(r, Alloc) == AllocatedMany(s, k + 1)
  {
    hide Inv, IdSet;
    TopIds(s.free, k);
  }

  function Allocations(k: nat): seq<Event>
  {
    seq(k, i requires 0 <= i < k => Alloc)
  }

  lemma {:induction false} AllocationsRun(s: State, k: nat)
    requires Inv(s) && k <= |s.free|
    ensures Run(s, Allocations(k)) == Some(AllocatedMany(s, k))
  {
    hide Inv, Step, AllocatedMany;
    if k == 0 {
      assert Allocations(0) == [];
      RunNothing(s);
      AllocatedNone(s);
    } else {
      AllocationsRun(s, k - 1);
      assert Allocations(k) == Allocations(k - 1) + [Alloc];
      AllocateOneMore(s, Run(s, Allocations(k - 1)).value, k - 1);
      hide Run, Allocations;
      RunSnoc(s, Allocations(k - 1), Alloc);
    }
  }

  lemma NothingYet(s: State)
    requires Inv(s) && s.log == []
    ensures s.cleaned == s.completed == s.fetched == s.published == 0 && s.wire == [] && s.n >= 2
  {}

  /** The first packet: accepted, published and sent. */
  lemma SendOne(s: State, t: seq<Event>, id: nat)
    requires Inv(s) && Run(s, t).Some?
    requires var q := Run(s, t).value; q.log == [] && id in q.held && id < |q.mem| && Fits(q.mem[id])
    ensures var q, r := Run(s, t).value, Run(s, t + [Enqueue(id)] + [Publish] + [Fetch]);
      && r.Some? && r.value.log == [Entry(id, q.mem[id])] && r.value.wire == [OnWire(q.mem[id])]
      && r.value.free == q.free && r.value.report == q.report
      && r.value.cleaned == r.value.completed == 0 && r.value.fetched == 1
  {
    hide Inv, Run, Fits, OnWire;
    NothingYet(Run(s, t).value);
    RunSnoc(s, t, Enqueue(id));
    RunSnoc(s, t + [Enqueue(id)], Publish);
    RunSnoc(s, t + [Enqueue(id)] + [Publish], Fetch);
  }

  /** And reported and reclaimed, if it asked for a report: its buffer is on top of the stack. */
  lemma FinishOne(s: State, t: seq<Event>)
    requires Inv(s) && Run(s, t).Some?
    requires var r := Run(s, t).value;
      |r.log| == 1 == r.fetched && r.cleaned == r.completed == 0 && Reports(r.report, r.log[0])
    ensures var q, r := Run(s, t).value, Run(s, t + [Complete] + [Reclaim]);
      && r.Some? && r.value.log == q.log && r.value.cleaned == r.value.completed == 1
      && r.value.free == q.free + [q.log[0].id] && r.value.report == q.report
  {
    hide Inv, Run, Reports;
    RunSnoc(s, t, Complete);
    assert Reports(Run(s, t).value.report, Run(s, t).value.log[0]);
    RunSnoc(s, t + [Complete], Reclaim);
  }

  // ---- Without reports ----

  lemma LogOnlyGrows(s: State, e: Event)
    requires Inv(s) && Enabled(s, e)
    ensures s.log <= Step(s, e).log && Step(s, e).report == s.report
  {}

  /** If no accepted packet asked for a report, the driver has freed nothing. */
  lemma {:induction false} SilentRunReclaimsNothing(s: State, t: seq<Event>)
    requires Start(s) && Run(s, t).Some?
    requires var r := Run(s, t).value; forall k :: 0 <= k < |r.log| ==> !Reports(r.report, r.log[k])
    ensures Run(s, t).value.cleaned == 0 && Reclaimed(s, t) == []
  {
    hide Inv, Reports;
    if t == [] {
      StartHolds(s);
    } else {
      var before := LastStep(s, t);
      var e := t[|t| - 1];
      LogOnlyGrows(before, e);
      forall k | 0 <= k < |before.log|
        ensures !Reports(before.report, before.log[k])
      {
        assert before.log[k] == Run(s, t).value.log[k];
      }
      SilentRunReclaimsNothing(s, t[..|t| - 1]);
      assert e != Reclaim;
    }
  }

  predicate NoWrites(t: seq<Event>)
  {
    forall i :: 0 <= i < |t| ==> !t[i].Write?
  }

  /** A queue whose flags leave report-status out, with sizes that do not set that bit, is stuck:
      nothing is ever freed by the driver, and it accepts at most n - 1 packets in all. */
  lemma SilentQueueIsStuck(s: State, t: seq<Event>)
    requires Start(s) && Run(s, t).Some?
    requires forall id :: 0 <= id < s.total ==> !Reporting(s.report, s.mem[id].size)
    requires forall i :: 0 <= i < |t| && t[i].Write? ==> !Reporting(s.report, t[i].packet.size)
    ensures var r := Run(s, t).value;
      && (forall k :: 0 <= k < |r.log| ==> !Reports(r.report, r.log[k]))
      && r.cleaned == 0 && Reclaimed(s, t) == [] && |r.log| <= s.n - 1
  {
    hide Reporting;
    WireKeeps(s, t, (p: Packet) => !Reporting(s.report, p.size));
    SizesNeverChange(s, t);
    SilentRunReclaimsNothing(s, t);
  }

  lemma FreeAtStart(s: State, id: nat)
    requires Start(s) && id < s.total
    ensures id < |s.mem| && id in s.free
  {
    hide Conserved, Fits, Wire;
    assert Ids(s.InFlight()) == [];
    ExactlyOnePlace(s.total, s.free, Ids(s.InFlight()), s.held);
  }

  lemma AllFree(s: State, id: nat)
    requires Start(s) && id < s.total
    ensures id < |s.mem| && id in AllocatedMany(s, |s.free|).held
  {
    hide Inv, Start;
    FreeAtStart(s, id);
    assert s.free[0..] == s.free;
  }

  lemma OnlyAllocations(k: nat)
    ensures NoWrites(Allocations(k))
  {}

  lemma ReclaimingRun(s: State, id: nat) returns (t: seq<Event>)
    requires Start(s) && id < s.total && Fits(s.mem[id]) && Reporting(s.report, s.mem[id].size)
    ensures NoWrites(t) && Run(s, t).Some? && Reclaimed(s, t) != []
  {
    hide Inv, Run, Start, Fits, Reporting, OnWire, Reclaimed, Allocations;
    StartHolds(s);
    AllFree(s, id);
    var u := Allocations(|s.free|);
    AllocationsRun(s, |s.free|);
    SendOne(s, u, id);
    FinishOne(s, u + [Enqueue(id)] + [Publish] + [Fetch]);
    t := u + [Enqueue(id)] + [Publish] + [Fetch] + [Complete] + [Reclaim];
    ReclaimFollowsCompletion(s, t);
    OnlyAllocations(|s.free|);
  }

  /** With the contents the buffers have at the start, some run gets a buffer back from the device
      exactly when some buffer's descriptor would ask for a report. */
  lemma ReclaimPossibleIff(s: State)
    requires Start(s) && forall id :: 0 <= id < s.total ==> Fits(s.mem[id])
    ensures (exists t :: NoWrites(t) && Run(s, t).Some? && Reclaimed(s, t) != [])
            <==> exists id :: 0 <= id < s.total && Reporting(s.report, s.mem[id].size)
  {
    if id: nat :| id < s.total && Reporting(s.report, s.mem[id].size) {
      var t := ReclaimingRun(s, id);
    } else {
      forall t | NoWrites(t) && Run(s, t).Some?
        ensures Reclaimed(s, t) == []
      {
        SilentQueueIsStuck(s, t);
      }
    }
  }

  // ---- Stretches of a run ----

  /** Only the device has acted between `s` and `r`. */
  ghost predicate DeviceOnly(s: State, r: State)
  {
    && r == s.(completed := r.completed, fetched := r.fetched, wire := r.wire)
    && s.completed <= r.completed && s.fetched <= r.fetched
  }

  lemma DeviceNone(s: State)
    ensures DeviceOnly(s, s)
  {}

  lemma DeviceThenDevice(s: State, r: State, q: State)
    requires DeviceOnly(s, r) && DeviceOnly(r, q)
    ensures DeviceOnly(s, q) && q.log == r.log == s.log && q.report == s.report && r.completed <= q.completed
  {}

  /** Between `s` and `r` the driver has only freed the buffers of the oldest entries in flight,
      oldest first, and the device may have acted. */
  ghost predicate CleanedFrom(s: State, r: State)
  {
    && s.cleaned <= r.cleaned <= |s.log|
    && r.free == s.free + Ids(s.log[s.cleaned..r.cleaned])
    && DeviceOnly(s.(cleaned := r.cleaned, free := r.free), r)
  }

  lemma CleanedRefl(s: State)
    requires Inv(s)
    ensures CleanedFrom(s, s)
  {
    assert Ids(s.log[s.cleaned..s.cleaned]) == [];
  }

  lemma CleanedThenDevice(s: State, r: State, q: State)
    requires CleanedFrom(s, r) && DeviceOnly(r, q)
    ensures CleanedFrom(s, q) && q.cleaned == r.cleaned && r.completed <= q.completed && q.log == s.log
  {}

  lemma CleanedThenReclaim(s: State, r: State)
    requires CleanedFrom(s, r) && Inv(r) && Enabled(r, Reclaim)
    ensures CleanedFrom(s, Step(r, Reclaim)) && Step(r, Reclaim).cleaned == r.cleaned + 1
    ensures Step(r, Reclaim).completed == r.completed
  {
    hide Conserved, ReportSeen, Wire, Fits;
    assert Ids(s.log[s.cleaned..r.cleaned + 1]) == Ids(s.log[s.cleaned..r.cleaned]) + [r.log[r.cleaned].id];
  }

  /** While a reported batch is being freed there is a report to rely on. */
  lemma StillReported(s: State, r: State, k: nat)
    requires CleanedFrom(s, r) && Inv(r) && r.cleaned <= k < r.completed <= |r.log| == |s.log|
    requires Reports(s.report, s.log[k])
    ensures Enabled(r, Reclaim)
  {
    hide Inv;
    assert r.log[k] == s.log[k];
  }

  lemma CleanedThenCleaned(s: State, r: State, q: State)
    requires CleanedFrom(s, r) && CleanedFrom(r, q)
    ensures CleanedFrom(s, q) && q.log == s.log
    ensures r.cleaned <= q.cleaned <= |s.log| && r.completed <= q.completed
  {
    assert Ids(s.log[s.cleaned..q.cleaned]) == Ids(s.log[s.cleaned..r.cleaned]) + Ids(r.log[r.cleaned..q.cleaned]);
  }

  /** A clean under way: whole reported batches have been freed, and the device may have acted. */
  ghost predicate CleanedInBatches(s: State, r: State, batch: nat)
    requires batch > 0
  {
    && CleanedFrom(s, r) && InBatches(s, s.cleaned, r.cleaned, batch)
    && (r.cleaned == s.cleaned || r.cleaned <= r.completed)
  }

  lemma CleaningStarts(s: State, batch: nat)
    requires Inv(s) && batch > 0
    ensures CleanedInBatches(s, s, batch)
  {
    CleanedRefl(s);
  }

  lemma CleaningThenDevice(s: State, r: State, q: State, batch: nat)
    requires batch > 0 && CleanedInBatches(s, r, batch) && DeviceOnly(r, q)
    ensures CleanedInBatches(s, q, batch) && q.cleaned == r.cleaned && q.log == s.log && q.report == s.report
  {}

  lemma CleaningOneBatch(s: State, r: State, q: State, batch: nat)
    requires batch > 0 && CleanedInBatches(s, r, batch) && CleanedFrom(r, q)
    requires r.cleaned + batch == q.cleaned <= r.completed <= |r.log|
    requires Reports(r.report, r.log[r.cleaned + batch - 1])
    ensures CleanedInBatches(s, q, batch) && q.cleaned <= |s.log|
  {
    hide InBatches, Reports;
    CleanedThenCleaned(s, r, q);
    OneMoreBatch(s, s.cleaned, r.cleaned, batch);
  }

  lemma CleaningDone(s: State, r: State, batch: nat)
    requires batch > 0 && CleanedInBatches(s, r, batch) && r.completed <= |r.log|
    requires ReportedBatches(r, r.cleaned, batch) == 0
    ensures CleanedFrom(s, r) && InBatches(r, s.cleaned, r.cleaned, batch)
    ensures s.cleaned <= r.cleaned && r.cleaned - s.cleaned == ReportedBatches(r, s.cleaned, batch)
  {
    hide InBatches, ReportedBatches;
    InBatchesKept(s, r, s.cleaned, r.cleaned, batch);
    NoMoreBatches(r, s.cleaned, r.cleaned, batch);
  }

  lemma CleanedKeeps(s: State, r: State)
    requires CleanedFrom(s, r)
    ensures r.log == s.log && r.held == s.held && r.mem == s.mem && r.n == s.n && r.report == s.report
    ensures s.cleaned <= r.cleaned && s.completed <= r.completed
    ensures r.cleaned <= |s.log| && r.free == s.free + Ids(s.log[s.cleaned..r.cleaned])
  {}

  /** The entries for the first `k` of the offered buffers, with their contents. */
  function Offered(ids: seq<nat>, k: nat, mem: seq<Packet>): (es: seq<Entry>)
    requires k <= |ids| && forall i :: 0 <= i < |ids| ==> ids[i] < |mem|
    ensures |es| == k && forall i :: 0 <= i < k ==> es[i] == Entry(ids[i], mem[ids[i]])
  {
    seq(k, i requires 0 <= i < k => Entry(ids[i], mem[ids[i]]))
  }

  /** Between `s` and `r` the driver has only accepted the first `k` of the offered buffers, in
      order, and the device may have acted. */
  ghost predicate AcceptedFrom(s: State, r: State, ids: seq<nat>, k: nat)
    requires k <= |ids| && forall i :: 0 <= i < |ids| ==> ids[i] < |s.mem|
  {
    && r.log == s.log + Offered(ids, k, s.mem)
    && r.held == s.held - IdSet(ids[..k])
    && DeviceOnly(s.(log := r.log, held := r.held), r)
  }

  lemma AcceptedNone(s: State, ids: seq<nat>)
    requires forall i :: 0 <= i < |ids| ==> ids[i] < |s.mem|
    ensures AcceptedFrom(s, s, ids, 0)
  {
    assert IdSet(ids[..0]) == {};
  }

  lemma AcceptedThenDevice(s: State, r: State, q: State, ids: seq<nat>, k: nat)
    requires k <= |ids| && forall i :: 0 <= i < |ids| ==> ids[i] < |s.mem|
    requires AcceptedFrom(s, r, ids, k) && DeviceOnly(r, q)
    ensures AcceptedFrom(s, q, ids, k)
    ensures q.cleaned == r.cleaned == s.cleaned && |q.log| == |r.log| == |s.log| + k
  {}

  lemma NotYetOffered(ids: seq<nat>, k: nat)
    requires k < |ids| && forall i, j :: 0 <= i < j < |ids| ==> ids[i] != ids[j]
    ensures ids[k] !in IdSet(ids[..k])
    ensures IdSet(ids[..k + 1]) == IdSet(ids[..k]) + {ids[k]}
  {
    assert ids[..k + 1] == ids[..k] + [ids[k]];
    IdSetSnoc(ids[..k], ids[k]);
  }

  lemma AcceptedThenEnqueue(s: State, r: State, ids: seq<nat>, k: nat)
    requires k < |ids| && forall i :: 0 <= i < |ids| ==> ids[i] < |s.mem| && ids[i] in s.held && Fits(s.mem[ids[i]])
    requires forall i, j :: 0 <= i < j < |ids| ==> ids[i] != ids[j]
    requires AcceptedFrom(s, r, ids, k) && Inv(r) && |r.log| - r.cleaned < r.n - 1
    ensures Enabled(r, Enqueue(ids[k]))
    ensures AcceptedFrom(s, Step(r, Enqueue(ids[k])), ids, k + 1)
    ensures Step(r, Enqueue(ids[k])).cleaned == s.cleaned && |Step(r, Enqueue(ids[k])).log| == |s.log| + k + 1
  {
    hide Inv, Fits, IdSet;
    NotYetOffered(ids, k);
    assert Offered(ids, k + 1, s.mem) == Offered(ids, k, s.mem) + [Entry(ids[k], s.mem[ids[k]])];
  }

  /** The whole state after a call that freed up to `r.cleaned` and accepted `sent` buffers. */
  ghost predicate Replaced(s: State, r: State, ids: seq<nat>, sent: nat)
    requires s.cleaned <= r.cleaned <= |s.log|
    requires sent <= |ids| && forall i :: 0 <= i < |ids| ==> ids[i] < |s.mem|
  {
    r == s.(
      free := s.free + Ids(s.log[s.cleaned..r.cleaned]),
      held := s.held - IdSet(ids[..sent]),
      log := s.log + Offered(ids, sent, s.mem),
      cleaned := r.cleaned,
      published := |s.log| + sent,
      completed := r.completed, fetched := r.fetched, wire := r.wire)
  }

  /** What one call of `transmit` does to the queue: it frees the oldest entries in flight, whole
      reported batches of them, at least those there when it was called and at most those there by
      the end; it accepts, in order, as many of the offered buffers as fit beside what is left with
      one slot empty; it publishes everything; nothing else changes but the device's progress. */
  ghost predicate Transmitted(s: State, r: State, ids: seq<nat>, sent: nat, batch: nat)
    requires batch > 0
  {
    && s.cleaned <= r.cleaned <= |s.log| && s.cleaned <= s.completed <= r.completed
    && sent <= |ids| && (forall i :: 0 <= i < |ids| ==> ids[i] < |s.mem|)
    && sent == Min(|ids|, s.n - 1 - (|s.log| - r.cleaned))
    && s.completed <= |s.log| && r.completed <= |r.log| && InBatches(s, s.cleaned, r.cleaned, batch)
    && ReportedBatches(s, s.cleaned, batch) <= r.cleaned - s.cleaned <= ReportedBatches(r, s.cleaned, batch)
    && Replaced(s, r, ids, sent)
  }

  lemma TransmittedState(s0: State, s: State, full: State, published: State, r: State, ids: seq<nat>, sent: nat)
    requires s0.cleaned <= s0.completed && Inv(full)
    requires sent <= |ids| && forall i :: 0 <= i < |ids| ==> ids[i] < |s0.mem|
    requires CleanedFrom(s0, s) && |s.mem| == |s0.mem| && AcceptedFrom(s, full, ids, sent)
    requires published == Step(full, Publish) && DeviceOnly(published, r)
    ensures s0.cleaned <= s.cleaned == full.cleaned == r.cleaned <= |s0.log| && full.n == s0.n
    ensures |full.log| < full.cleaned + full.n
    ensures |full.log| == |s0.log| + sent && s0.completed <= s.completed <= r.completed
    ensures s.log == s0.log <= r.log && r.report == s.report == s0.report
    ensures Replaced(s0, r, ids, sent)
  {}

  lemma TransmittedInParts(s0: State, s: State, full: State, published: State, r: State,
                           ids: seq<nat>, sent: nat, batch: nat)
    requires batch > 0 && s0.cleaned <= s0.completed <= |s0.log| && Inv(full)
    requires sent <= |ids| && forall i :: 0 <= i < |ids| ==> ids[i] < |s0.mem|
    requires CleanedFrom(s0, s) && s.completed <= |s.log| && InBatches(s, s0.cleaned, s.cleaned, batch)
    requires s.cleaned - s0.cleaned == ReportedBatches(s, s0.cleaned, batch)
    requires |s.mem| == |s0.mem| && AcceptedFrom(s, full, ids, sent)
    requires sent == |ids| || |full.log| - full.cleaned == full.n - 1
    requires published == Step(full, Publish) && DeviceOnly(published, r) && r.completed <= |r.log|
    ensures Transmitted(s0, r, ids, sent, batch)
    ensures r.cleaned == s.cleaned
  {
    hide Inv, ReportedBatches, InBatches, CleanedFrom, AcceptedFrom, DeviceOnly, Step, Replaced;
    TransmittedState(s0, s, full, published, r, ids, sent);
    InBatchesKept(s, s0, s0.cleaned, s.cleaned, batch);
    ReportedBatchesMonotone(s0, s, s0.cleaned, batch);
    ReportedBatchesMonotone(s, r, s0.cleaned, batch);
  }

  lemma {:induction false} NoSilentBatches(s: State, a: nat, b: nat, batch: nat)
    requires batch > 0 && InBatches(s, a, b, batch)
    requires forall k :: 0 <= k < |s.log| ==> !Reports(s.report, s.log[k])
    ensures a == b
  {}

  /** Exact reclaim: if the device completes nothing during the call, `transmit` frees exactly the
      reported batches; with every descriptor asking for a report, these are the whole batches among
      the completed entries, and less than one batch of them is left. */
  lemma QuietReclaimIsExact(s: State, r: State, ids: seq<nat>, sent: nat, batch: nat)
    requires batch > 0 && Transmitted(s, r, ids, sent, batch) && r.completed == s.completed
    ensures r.cleaned - s.cleaned == ReportedBatches(s, s.cleaned, batch)
    ensures s.report ==> r.cleaned - s.cleaned == batch * ((s.completed - s.cleaned) / batch)
    ensures s.report ==> r.completed - r.cleaned < batch
  {
    hide ReportedBatches, InBatches;
    ReportedBatchesMonotone(s, r, s.cleaned, batch);
    if s.report {
      AllReported(s, s.cleaned, batch);
      WholeBatchesIsFloor(s.completed - s.cleaned, batch);
    }
  }

  /** Once n - 1 packets that ask for no report are in flight, no call frees or accepts any. */
  lemma SilentCallAcceptsNone(s: State, r: State, ids: seq<nat>, sent: nat, batch: nat)
    requires batch > 0 && Transmitted(s, r, ids, sent, batch) && |s.log| - s.cleaned == s.n - 1
    requires forall k :: 0 <= k < |s.log| ==> !Reports(s.report, s.log[k])
    ensures sent == 0 && r.log == s.log && r.cleaned == s.cleaned && r.free == s.free
  {
    NoSilentBatches(s, s.cleaned, r.cleaned, batch);
    hide ReportedBatches, InBatches, Reports;
    assert Ids(s.log[s.cleaned..s.cleaned]) == [];
    assert Offered(ids, 0, s.mem) == [];
  }

  /** No starvation: with every descriptor asking for a report, once everything in flight is
      completed, a call offering up to n - batch packets accepts them all. */
  lemma DrainedRingAcceptsAll(s: State, r: State, ids: seq<nat>, sent: nat, batch: nat)
    requires batch > 0 && Transmitted(s, r, ids, sent, batch) && s.report
    requires s.completed == |s.log| && |ids| <= s.n - batch
    ensures sent == |ids|
  {
    hide ReportedBatches, InBatches;
    AllReported(s, s.cleaned, batch);
  }
}
