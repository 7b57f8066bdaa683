/** The receive side as a FIFO queue of arriving packets, one atomic action at a time, and what
    every run keeps.  Ring slots are numbered from 0 without wrapping: the buffer posted as the
    k-th receives the k-th packet. */
module RxModel {
  import opened Descriptors
  import opened Mempool

  /** A buffer handed to the client, with its contents at that moment. */
  datatype Delivery = Delivery(id: nat, packet: Packet)

  /** `posted[next..]` are in the ring: those below `filled` hold packets, and the device may fill
      those below `saved + n - 1`.  `saved` is what the queue remembers between calls; `next` is how
      far slots have really been refilled.  `lost` is set when a call gives up after refilling. */
  datatype State = State(
    n: nat, total: nat,
    free: seq<nat>, held: set<nat>, mem: seq<Packet>,
    posted: seq<nat>, saved: nat, next: nat, filled: nat,
    arrivals: seq<Packet>, delivered: seq<Delivery>, lost: bool)
  {
    function InRing(): seq<nat>
      requires next <= |posted|
    {
      posted[next..]
    }
  }

  datatype Event =
    | Alloc                                      // the client takes the top of the free stack
    | Release(id: nat)                           // the client frees a buffer
    | Write(id: nat, packet: Packet)             // the client writes to a buffer
    | Fill(length: bv16, data: seq<byte>)        // the device stores an arriving packet
    | Take                                       // the driver hands the oldest packet over and refills
    | Publish                                    // the driver writes the tail register
    | GiveUp                                     // the driver finds the pool empty and returns

  ghost predicate Inv(s: State)
  {
    && s.n >= 2 && |s.mem| == s.total
    && s.saved <= s.next <= s.filled <= s.saved + s.n - 1
    && |s.posted| == s.next + s.n && |s.arrivals| == s.filled && |s.delivered| == s.next
    && Conserved(s.total, s.free, s.InRing(), s.held)
    && (forall k :: 0 <= k < s.next ==> s.delivered[k] == Delivery(s.posted[k], s.arrivals[k]))
    && (forall k :: s.next <= k < s.filled ==> s.posted[k] < s.total && s.mem[s.posted[k]].data == s.arrivals[k].data)
    && (s.lost ==> s.saved < s.next)
  }

  /** A packet arrives, no longer than the bytes of its buffer. */
  predicate Arrives(e: Event)
  {
    e.Fill? && Within(e.length as bv32, e.data)
  }

  ghost predicate Enabled(s: State, e: Event)
  {
    match e
    case Alloc => s.free != []
    case Release(id) => id in s.held
    case Write(id, _) => id in s.held
    case Fill(_, _) => s.filled < s.saved + s.n - 1 && Arrives(e)
    case Take => !s.lost && s.next < s.filled && s.free != []
    case Publish => !s.lost
    case GiveUp => !s.lost && s.next < s.filled && s.free == []
  }

  lemma Places(s: State)
    requires Inv(s)
    ensures forall id :: id in s.held ==> id < |s.mem|
    ensures forall k :: s.next <= k < |s.posted| ==>
      s.posted[k] < |s.mem| && s.posted[k] !in s.held && s.posted[k] !in s.free
    ensures forall j, k :: s.next <= j < |s.posted| && s.next <= k < |s.posted| && s.posted[j] == s.posted[k] ==> j == k
  {
    var ring := s.InRing();
    ExactlyOnePlace(s.total, s.free, ring, s.held);
    forall k | s.next <= k < |s.posted|
      ensures s.posted[k] == ring[k - s.next]
      ensures s.posted[k] in ring
    {}
    forall j, k | s.next <= j < |s.posted| && s.next <= k < |s.posted| && s.posted[j] == s.posted[k]
      ensures j == k
    {
      assert ring[j - s.next] == ring[k - s.next];
    }
  }

  lemma HeldNotFree(s: State, id: nat)
    requires Inv(s) && id in s.held
    ensures id < s.total && id !in s.free
  {
    ExactlyOnePlace(s.total, s.free, s.InRing(), s.held);
  }

  lemma FreeInRange(s: State)
    requires Inv(s)
    ensures forall i :: 0 <= i < |s.free| ==> s.free[i] < s.total
  {
    ExactlyOnePlace(s.total, s.free, s.InRing(), s.held);
    forall i | 0 <= i < |s.free|
      ensures s.free[i] in s.free
    {}
  }

  /** `buf->size = desc.wb.upper.length` */
  function Stamped(mem: seq<Packet>, id: nat, size: bv32): (r: seq<Packet>)
    requires id < |mem|
    ensures |r| == |mem|
  {
    mem[id := mem[id].(size := size)]
  }

  ghost function Step(s: State, e: Event): State
    requires Inv(s) && Enabled(s, e)
  {
    Places(s);
    match e
    case Alloc => s.(free := s.free[..|s.free| - 1], held := s.held + {s.free[|s.free| - 1]})
    case Release(id) => s.(free := s.free + [id], held := s.held - {id})
    case Write(id, p) => s.(mem := s.mem[id := p])
    case Fill(length, data) =>
      var id := s.posted[s.filled];
      s.(mem := s.mem[id := s.mem[id].(data := data)],
         arrivals := s.arrivals + [Packet(length as bv32, data)], filled := s.filled + 1)
    case Take =>
      var id := s.posted[s.next];
      var mem := Stamped(s.mem, id, s.arrivals[s.next].size);
      s.(mem := mem, delivered := s.delivered + [Delivery(id, mem[id])],
         held := s.held + {id}, posted := s.posted + [s.free[|s.free| - 1]],
         free := s.free[..|s.free| - 1], next := s.next + 1)
    case Publish => s.(saved := s.next)
    case GiveUp =>
      s.(mem := Stamped(s.mem, s.posted[s.next], s.arrivals[s.next].size), lost := s.saved < s.next)
  }

  lemma WriteEffect(s: State, id: nat, p: Packet)
    requires Inv(s) && Enabled(s, Write(id, p))
    ensures id < |s.mem| == s.total && Step(s, Write(id, p)) == s.(mem := s.mem[id := p])
  {
    Places(s);
  }

  lemma FillEffect(s: State, length: bv16, data: seq<byte>)
    requires Inv(s) && Enabled(s, Fill(length, data))
    ensures var id, r := s.posted[s.filled], Step(s, Fill(length, data));
      && id < |s.mem| && id !in s.held
      && r == s.(mem := s.mem[id := s.mem[id].(data := data)],
                 arrivals := s.arrivals + [Packet(length as bv32, data)], filled := s.filled + 1)
  {
    Places(s);
  }

  lemma TakeEffect(s: State)
    requires Inv(s) && Enabled(s, Take)
    ensures var id, r := s.posted[s.next], Step(s, Take);
      && id < |s.mem| && id !in s.held
      && r == s.(mem := Stamped(s.mem, id, s.arrivals[s.next].size),
                 delivered := s.delivered + [Delivery(id, Stamped(s.mem, id, s.arrivals[s.next].size)[id])],
                 held := s.held + {id}, posted := s.posted + [s.free[|s.free| - 1]],
                 free := s.free[..|s.free| - 1], next := s.next + 1)
  {
    Places(s);
  }

  lemma TakeKeepsInv(s: State)
    requires Inv(s) && Enabled(s, Take)
    ensures Inv(Step(s, Take))
  {
    hide Conserved;
    Places(s);
    ExchangeRingBuffer(s.total, s.free, s.InRing(), s.held);
    var r := Step(s, Take);
    assert r.InRing() == s.InRing()[1..] + [s.free[|s.free| - 1]];
    assert r.delivered[s.next] == Delivery(s.posted[s.next], s.arrivals[s.next]);
  }

  lemma StepKeepsInv(s: State, e: Event)
    requires Inv(s) && Enabled(s, e)
    ensures Inv(Step(s, e))
  {
    hide Conserved;
    Places(s);
    match e
    case Alloc =>
      MoveFreeToHeld(s.total, s.free, s.InRing(), s.held);
    case Release(id) =>
      MoveHeldToFree(s.total, s.free, s.InRing(), s.held, id);
    case Write(id, p) =>
    case Fill(length, data) =>
    case Take =>
      TakeKeepsInv(s);
    case Publish =>
    case GiveUp =>
  }

  /** Running a sequence of actions; None when one of them may not happen. */
  ghost function Run(s: State, t: seq<Event>): (r: Option<State>)
    requires Inv(s)
    ensures r.Some? ==> Inv(r.value)
  {
    if t == [] then Some(s)
    else
      var r := Run(s, t[..|t| - 1]);
      var e := t[|t| - 1];
      if r.Some? && Enabled(r.value, e) then StepKeepsInv(r.value, e); Some(Step(r.value, e)) else None
  }

  lemma RunNothing(s: State)
    requires Inv(s)
    ensures Run(s, []) == Some(s)
  {}

  lemma LastStep(s: State, t: seq<Event>) returns (before: State)
    requires Inv(s) && t != [] && Run(s, t).Some?
    ensures var u, e := t[..|t| - 1], t[|t| - 1];
      && Run(s, u) == Some(before) && Inv(before) && Enabled(before, e) && Run(s, t) == Some(Step(before, e))
  {
    before := Run(s, t[..|t| - 1]).value;
  }

  lemma RunSnoc(s: State, t: seq<Event>, e: Event)
    requires Inv(s) && Run(s, t).Some? && Enabled(Run(s, t).value, e)
    ensures Run(s, t + [e]) == Some(Step(Run(s, t).value, e))
  {
    assert (t + [e])[..|t + [e]| - 1] == t;
  }

  // ---- What every run keeps ----

  /** A freshly started queue: no packet has arrived and the client holds nothing. */
  ghost predicate Start(s: State)
  {
    Inv(s) && s.filled == 0 && s.held == {}
  }

  lemma StartHolds(s: State)
    requires Start(s)
    ensures Inv(s) && s.saved == s.next == 0
  {}

  /** The top `k` ids of a free stack, in the order they are popped. */
  function Popped(stack: seq<nat>, k: nat): (ids: seq<nat>)
    requires k <= |stack|
    ensures |ids| == k && forall i :: 0 <= i < k ==> ids[i] == stack[|stack| - 1 - i]
  {
    seq(k, i requires 0 <= i < k => stack[|stack| - 1 - i])
  }

  lemma PoppedOneMore(stack: seq<nat>, k: nat)
    requires k < |stack|
    ensures Popped(stack, k + 1) == Popped(stack, k) + [stack[|stack| - k - 1]]
    ensures stack[..|stack| - k][..|stack| - k - 1] == stack[..|stack| - (k + 1)]
  {}

  /** The state `start_rx_queue` leaves: the first `n` ids popped off the free stack are posted. */
  ghost function Started(n: nat, total: nat, stack: seq<nat>, mem: seq<Packet>): State
    requires n <= |stack|
  {
    State(n, total, stack[..|stack| - n], {}, mem, Popped(stack, n), 0, 0, 0, [], [], false)
  }

  lemma {:induction false} PoppedIsRest(stack: seq<nat>, k: nat)
    requires k <= |stack|
    ensures multiset(stack) == multiset(stack[..|stack| - k]) + multiset(Popped(stack, k))
  {
    if k == 0 {
      assert stack[..|stack|] == stack;
    } else {
      PoppedIsRest(stack, k - 1);
      var top := stack[|stack| - k];
      assert stack[..|stack| - (k - 1)] == stack[..|stack| - k] + [top];
      PoppedOneMore(stack, k - 1);
    }
  }

  lemma StartedIsStart(n: nat, total: nat, stack: seq<nat>, mem: seq<Packet>)
    requires 2 <= n <= |stack| && |mem| == total && multiset(stack) == multiset(AllIds(total))
    ensures Start(Started(n, total, stack, mem))
    ensures var s := Started(n, total, stack, mem);
      && s.n == n && s.total == total && s.mem == mem && s.free == stack[..|stack| - n]
      && s.saved == s.next == 0 && !s.lost
  {
    PoppedIsRest(stack, n);
    var s := Started(n, total, stack, mem);
    assert s.InRing() == Popped(stack, n);
    assert multiset(s.free) + multiset(s.InRing()) + multiset(s.held) == multiset(AllIds(total));
  }

  /** The packets the device has stored during a run. */
  function Arrived(t: seq<Event>): seq<Packet>
  {
    if t == [] then []
    else
      var e := t[|t| - 1];
      Arrived(t[..|t| - 1]) + if e.Fill? then [Packet(e.length as bv32, e.data)] else []
  }

  lemma {:induction false} ArrivalsRecordFills(s: State, t: seq<Event>)
    requires Start(s) && Run(s, t).Some?
    ensures Run(s, t).value.arrivals == Arrived(t)
  {
    if t != [] {
      ArrivalsRecordFills(s, t[..|t| - 1]);
      var before := LastStep(s, t);
    }
  }

  lemma {:induction false} ArrivalsFit(s: State, t: seq<Event>)
    requires Inv(s) && Run(s, t).Some?
    ensures forall k :: 0 <= k < |Arrived(t)| ==> Within(Arrived(t)[k].size, Arrived(t)[k].data)
  {
    hide Inv, Step, Within;
    if t != [] {
      ArrivalsFit(s, t[..|t| - 1]);
      var before := LastStep(s, t);
    }
  }

  /** Receive is a FIFO: in every run, the packets handed to the client are the packets the device
      has stored, in order of arrival, none lost, repeated or altered, up to where the driver is; and
      none is longer than the bytes handed over. */
  lemma ReceiveIsFifo(s: State, t: seq<Event>)
    requires Start(s) && Run(s, t).Some?
    ensures var delivered := Run(s, t).value.delivered;
      && |delivered| <= |Arrived(t)|
      && forall k :: 0 <= k < |delivered| ==>
           delivered[k].packet == Arrived(t)[k] && Within(delivered[k].packet.size, delivered[k].packet.data)
  {
    hide Within, Arrived;
    ArrivalsRecordFills(s, t);
    ArrivalsFit(s, t);
  }

  function Takes(t: seq<Event>): nat
  {
    if t == [] then 0 else Takes(t[..|t| - 1]) + if t[|t| - 1].Take? then 1 else 0
  }

  lemma {:induction false} TakesAreDeliveries(s: State, t: seq<Event>)
    requires Start(s) && Run(s, t).Some?
    ensures |Run(s, t).value.delivered| == Takes(t)
  {
    if t != [] {
      TakesAreDeliveries(s, t[..|t| - 1]);
      var before := LastStep(s, t);
    }
  }

  /** The client frees or overwrites this buffer. */
  predicate Touches(e: Event, id: nat)
  {
    (e.Release? || e.Write?) && e.id == id
  }

  /** The action at `i` is a hand-over: how many there were before it. */
  lemma {:induction false} TakesBefore(t: seq<Event>, i: nat)
    requires i < |t| && t[i].Take?
    ensures Takes(t[..i]) < Takes(t)
  {
    var u := t[..|t| - 1];
    if i < |u| {
      assert u[..i] == t[..i];
      TakesBefore(u, i);
    }
  }

  /** The client has this buffer, and this is in it. */
  ghost predicate WithClient(s: State, d: Delivery)
  {
    d.id in s.held && d.id < |s.mem| && s.mem[d.id] == d.packet
  }

  lemma TakenIsWithClient(s: State)
    requires Inv(s) && Enabled(s, Take)
    ensures Step(s, Take).delivered == s.delivered + [Delivery(s.posted[s.next], s.arrivals[s.next])]
    ensures WithClient(Step(s, Take), Delivery(s.posted[s.next], s.arrivals[s.next]))
  {
    Places(s);
  }

  lemma WithClientUntilTouched(s: State, e: Event, d: Delivery)
    requires Inv(s) && Enabled(s, e) && WithClient(s, d) && !Touches(e, d.id)
    ensures WithClient(Step(s, e), d)
  {
    Places(s);
  }

  lemma DeliveredOnlyGrow(s: State, e: Event)
    requires Inv(s) && Enabled(s, e)
    ensures s.delivered <= Step(s, e).delivered
  {}

  lemma {:induction false} StaysWithClient(s: State, t: seq<Event>, i: nat, d: Delivery)
    requires Start(s) && Run(s, t).Some? && i < |t| && t[i].Take?
    requires Takes(t[..i]) < |Run(s, t).value.delivered| && d == Run(s, t).value.delivered[Takes(t[..i])]
    requires forall j :: i < j < |t| ==> !Touches(t[j], d.id)
    ensures WithClient(Run(s, t).value, d)
  {
    hide Run, Step, Inv, Start, WithClient, Takes;
    StartHolds(s);
    var u, e := t[..|t| - 1], t[|t| - 1];
    var before := LastStep(s, t);
    TakesAreDeliveries(s, u);
    if i == |u| {
      TakenIsWithClient(before);
    } else {
      assert u[..i] == t[..i];
      TakesBefore(u, i);
      DeliveredOnlyGrow(before, e);
      StaysWithClient(s, u, i, d);
      WithClientUntilTouched(before, e, d);
    }
  }

  /** The buffer of a hand-over is the client's, with the packet in it, from that moment until the
      client itself frees it or writes to it, whatever else happens; and the k-th hand-over is of the
      k-th packet to arrive. */
  lemma {:induction false} DeliveredStaysUntilTouched(s: State, t: seq<Event>, i: nat)
    requires Start(s) && Run(s, t).Some? && i < |t| && t[i].Take?
    ensures var r, k := Run(s, t).value, Takes(t[..i]);
      && k < |r.delivered| && k < |Arrived(t)| && r.delivered[k].packet == Arrived(t)[k]
      && ((forall j :: i < j < |t| ==> !Touches(t[j], r.delivered[k].id)) ==> WithClient(r, r.delivered[k]))
  {
    var r, k := Run(s, t).value, Takes(t[..i]);
    TakesBefore(t, i);
    TakesAreDeliveries(s, t);
    ReceiveIsFifo(s, t);
    if forall j :: i < j < |t| ==> !Touches(t[j], r.delivered[k].id) {
      StaysWithClient(s, t, i, r.delivered[k]);
    }
  }

  lemma {:induction false} SizesNeverChange(s: State, t: seq<Event>)
    requires Inv(s) && Run(s, t).Some?
    ensures Run(s, t).value.n == s.n && Run(s, t).value.total == s.total
  {
    if t != [] {
      SizesNeverChange(s, t[..|t| - 1]);
      var before := LastStep(s, t);
    }
  }

  /** Conservation: in every run each id is in exactly one place, and n of them are in the ring. */
  lemma BuffersAreConserved(s: State, t: seq<Event>)
    requires Inv(s) && Run(s, t).Some?
    ensures var r := Run(s, t).value;
      && (forall id :: id in r.free || id in r.InRing() || id in r.held <==> 0 <= id < s.total)
      && (forall id :: !(id in r.free && id in r.InRing()) && !(id in r.free && id in r.held)
                       && !(id in r.InRing() && id in r.held))
      && |r.free| == s.total - s.n - |r.held|
  {
    SizesNeverChange(s, t);
    var r := Run(s, t).value;
    ExactlyOnePlace(r.total, r.free, r.InRing(), r.held);
    ConservedCount(r.total, r.free, r.InRing(), r.held);
  }

  // ---- Running out of buffers ----

  lemma {:induction false} LostStaysLost(s: State, t: seq<Event>)
    requires Inv(s) && s.lost && Run(s, t).Some?
    ensures Run(s, t).value.lost && Run(s, t).value.delivered == s.delivered
  {
    if t != [] {
      LostStaysLost(s, t[..|t| - 1]);
      var before := LastStep(s, t);
    }
  }

  lemma {:induction false} NoBuffersNoDelivery(s: State, t: seq<Event>)
    requires Inv(s) && s.free == [] && s.held == {} && Run(s, t).Some?
    ensures var r := Run(s, t).value; r.free == [] && r.held == {} && r.delivered == s.delivered
  {
    if t != [] {
      NoBuffersNoDelivery(s, t[..|t| - 1]);
      var before := LastStep(s, t);
    }
  }

  lemma GivingUpAfterRefilling(s: State)
    requires Inv(s) && Enabled(s, GiveUp) && s.saved < s.next
    ensures Step(s, GiveUp).lost
  {}

  /** Queues do get lost: when a freshly started queue has one spare buffer, two packets arrive, the
      first is handed over, and no buffer is left for the second. */
  lemma OneSpareBufferLoses(s: State, p: Event, q: Event)
    requires Start(s) && s.n >= 3 && |s.free| == 1 && !s.lost && Arrives(p) && Arrives(q)
    ensures Run(s, [p, q, Take, GiveUp]).Some? && Run(s, [p, q, Take, GiveUp]).value.lost
  {
    hide Run, Step, Inv, Stamped;
    StartHolds(s);
    RunNothing(s);
    FillEffect(s, p.length, p.data);
    RunSnoc(s, [], p);
    assert [] + [p] == [p];
    var filled := Step(s, p);
    FillEffect(filled, q.length, q.data);
    RunSnoc(s, [p], q);
    var waiting := Step(filled, q);
    TakeEffect(waiting);
    RunSnoc(s, [p] + [q], Take);
    RunSnoc(s, [p] + [q] + [Take], GiveUp);
    GivingUpAfterRefilling(Step(waiting, Take));
    assert [p] + [q] + [Take] + [GiveUp] == [p, q, Take, GiveUp];
  }

  /** For instance on four slots and five buffers. */
  lemma LostIsReached(mem: seq<Packet>, p: Event, q: Event)
    requires |mem| == 5 && Arrives(p) && Arrives(q)
    ensures var s, t := Started(4, 5, Identity(5), mem), [p, q, Take, GiveUp];
      Start(s) && Run(s, t).Some? && Run(s, t).value.lost
  {
    hide Run, Inv, Step, AllIds;
    IdentityIsAllIds(5);
    StartedIsStart(4, 5, Identity(5), mem);
    OneSpareBufferLoses(Started(4, 5, Identity(5), mem), p, q);
  }

  lemma GivenUp(s: State)
    requires Inv(s) && Enabled(s, GiveUp)
    ensures var r := Step(s, GiveUp);
      && Inv(r) && r.lost == (s.saved < s.next) && s.saved <= s.next < s.filled
      && r.next == s.next && r.filled == s.filled && r.held == s.held && r.free == s.free == []
  {
    hide Conserved, Stamped;
    StepKeepsInv(s, GiveUp);
  }

  lemma DeliversAfterRelease(r: State, id: nat)
    requires Inv(r) && !r.lost && r.next < r.filled && r.free == [] && id in r.held
    ensures var t := [] + [Release(id)] + [Take];
      Run(r, t).Some? && |Run(r, t).value.delivered| > |r.delivered|
  {
    hide Run, Inv, Stamped;
    RunNothing(r);
    RunSnoc(r, [], Release(id));
    RunSnoc(r, [] + [Release(id)], Take);
  }

  /** After a call has given up on an empty pool, another packet can ever be delivered exactly when
      that call had refilled no slot before and the client still holds a buffer to give back. */
  lemma DeliversAfterGivingUpIff(s: State)
    requires Inv(s) && Enabled(s, GiveUp)
    ensures Inv(Step(s, GiveUp))
    ensures var r := Step(s, GiveUp);
      (exists t :: Run(r, t).Some? && |Run(r, t).value.delivered| > |r.delivered|)
      <==> s.saved == s.next && s.held != {}
  {
    hide Run, Step, Inv, Enabled;
    GivenUp(s);
    var r := Step(s, GiveUp);
    if s.saved == s.next && s.held != {} {
      var id :| id in s.held;
      DeliversAfterRelease(r, id);
    } else {
      forall t | Run(r, t).Some?
        ensures Run(r, t).value.delivered == r.delivered
      {
        if r.lost { LostStaysLost(r, t); } else { NoBuffersNoDelivery(r, t); }
      }
    }
  }

  // ---- Stretches of a run ----

  /** The buffers in `ids` have the same contents. */
  ghost predicate SameOn(ids: set<nat>, mem: seq<Packet>, mem': seq<Packet>)
  {
    |mem'| == |mem| && forall id :: id in ids && 0 <= id < |mem| ==> mem'[id] == mem[id]
  }

  /** The buffers handed over from packet `first` on still hold what was handed over. */
  ghost predicate Intact(s: State, first: nat)
  {
    && s.next <= |s.posted| && s.next <= |s.delivered|
    && forall k :: first <= k < s.next ==> s.posted[k] < |s.mem| && s.mem[s.posted[k]] == s.delivered[k].packet
  }

  /** Only the device has acted between `s` and `r`: packets have arrived in buffers of the ring,
      and the client's buffers are as they were. */
  ghost predicate DeviceOnly(s: State, r: State)
  {
    && r == s.(mem := r.mem, arrivals := r.arrivals, filled := r.filled)
    && s.filled <= r.filled && s.arrivals <= r.arrivals
    && SameOn(s.held, s.mem, r.mem)
  }

  lemma DeviceNone(s: State)
    ensures DeviceOnly(s, s)
  {}

  lemma DeviceThenDevice(s: State, r: State, q: State)
    requires DeviceOnly(s, r) && DeviceOnly(r, q)
    ensures DeviceOnly(s, q)
  {}

  lemma FillIsDeviceOnly(s: State, length: bv16, data: seq<byte>)
    requires Inv(s) && Enabled(s, Fill(length, data))
    ensures DeviceOnly(s, Step(s, Fill(length, data)))
  {
    Places(s);
  }

  /** Between `s` and `r` the driver has handed over the buffers of slots `s.next..r.next`, oldest
      first, replacing each by the next buffer popped off the free stack; the device may have acted;
      the buffers the client already held are as they were, and those handed over still hold the
      packets they were handed over with. */
  ghost predicate TakenFrom(s: State, r: State)
    requires |s.posted| == s.next + s.n
  {
    && 0 <= r.next - s.next <= |s.free| && r.next <= |r.posted|
    && r == s.(
         free := s.free[..|s.free| - (r.next - s.next)],
         posted := s.posted + Popped(s.free, r.next - s.next),
         held := s.held + IdSet(r.posted[s.next..r.next]),
         next := r.next,
         mem := r.mem, arrivals := r.arrivals, filled := r.filled, delivered := r.delivered)
    && s.filled <= r.filled && s.arrivals <= r.arrivals && s.delivered <= r.delivered
    && SameOn(s.held, s.mem, r.mem) && Intact(r, s.next)
  }

  /** The buffers handed over are with the client. */
  lemma TakenIsHeld(s: State, r: State, k: nat)
    requires |s.posted| == s.next + s.n && TakenFrom(s, r) && s.next <= k < r.next
    ensures r.posted[k] in r.held
  {
    assert r.posted[s.next..r.next][k - s.next] == r.posted[k];
    assert r.posted[k] in IdSet(r.posted[s.next..r.next]);
  }

  lemma TakenNone(s: State)
    requires Inv(s)
    ensures TakenFrom(s, s)
  {
    assert Popped(s.free, 0) == [];
    assert IdSet(s.posted[s.next..s.next]) == {};
  }

  lemma IntactElsewhere(r: State, q: State, first: nat)
    requires Intact(r, first) && q.next == r.next && q.posted == r.posted && q.delivered == r.delivered
    requires |q.mem| == |r.mem|
    requires forall k :: first <= k < r.next && r.posted[k] < |r.mem| ==> q.mem[r.posted[k]] == r.mem[r.posted[k]]
    ensures Intact(q, first)
  {}

  lemma TakenThenDevice(s: State, r: State, q: State)
    requires |s.posted| == s.next + s.n && TakenFrom(s, r) && DeviceOnly(r, q)
    ensures TakenFrom(s, q) && q.next == r.next && q.saved == r.saved == s.saved && q.lost == r.lost == s.lost
    ensures q.free == r.free && r.filled <= q.filled && s.filled <= q.filled
  {
    hide Popped, IdSet, Intact;
    forall k | s.next <= k < r.next && k < |r.posted| && r.posted[k] < |q.mem|
      ensures q.mem[r.posted[k]] == r.mem[r.posted[k]]
    {
      TakenIsHeld(s, r, k);
    }
    IntactElsewhere(r, q, s.next);
  }

  /** Storing a length in a buffer the client does not hold leaves what was handed over intact. */
  lemma StampKeepsIntact(s: State, r: State, id: nat, size: bv32)
    requires |s.posted| == s.next + s.n && TakenFrom(s, r) && id < |r.mem| && id !in r.held
    ensures Intact(r.(mem := Stamped(r.mem, id, size)), s.next)
  {
    hide Popped, IdSet, SameOn, Intact;
    var mem := Stamped(r.mem, id, size);
    forall k | s.next <= k < r.next && k < |r.posted| && r.posted[k] < |mem|
      ensures mem[r.posted[k]] == r.mem[r.posted[k]]
    {
      TakenIsHeld(s, r, k);
    }
    IntactElsewhere(r, r.(mem := mem), s.next);
  }

  lemma TakenBounds(s: State, r: State)
    requires Inv(s) && TakenFrom(s, r) && Inv(r)
    ensures |s.posted| == s.next + s.n && |r.posted| == r.next + r.n
    ensures s.next <= r.next == |r.delivered| < |r.posted| && r.filled == |r.arrivals| && r.n == s.n > 0
    ensures r.saved == s.saved && r.lost == s.lost && SameOn(s.held, s.mem, r.mem) && s.held <= r.held
    ensures Intact(r, s.next)
  {}

  lemma IntactOneMore(r: State, q: State, first: nat)
    requires Intact(r, first) && r.next < |q.posted| && r.next < |q.delivered|
    requires q.next == r.next + 1 && q.mem == r.mem && r.posted <= q.posted && r.delivered <= q.delivered
    requires q.posted[r.next] < |q.mem| && q.delivered[r.next].packet == q.mem[q.posted[r.next]]
    ensures Intact(q, first)
  {}

  lemma StampedElsewhere(ids: set<nat>, was: seq<Packet>, mem: seq<Packet>, id: nat, size: bv32)
    requires id < |mem| && id !in ids && SameOn(ids, was, mem)
    ensures SameOn(ids, was, Stamped(mem, id, size))
  {}

  lemma SliceSnoc(s: seq<nat>, x: nat, lo: nat, hi: nat)
    requires lo <= hi < |s|
    ensures (s + [x])[lo..hi + 1] == s[lo..hi] + [s[hi]]
  {}

  lemma TakenSnoc(s: State, r: State, q: State)
    requires |s.posted| == s.next + s.n && TakenFrom(s, r) && r.free != [] && |r.posted| == r.next + r.n
    requires r.n > 0
    requires q == r.(mem := q.mem, delivered := q.delivered,
                     held := r.held + {r.posted[r.next]}, posted := r.posted + [r.free[|r.free| - 1]],
                     free := r.free[..|r.free| - 1], next := r.next + 1)
    requires r.delivered <= q.delivered && SameOn(s.held, s.mem, q.mem) && Intact(q, s.next)
    ensures TakenFrom(s, q)
  {
    hide SameOn, Intact, Popped, IdSet;
    var k := r.next - s.next;
    PoppedOneMore(s.free, k);
    SliceSnoc(r.posted, r.free[|r.free| - 1], s.next, r.next);
    IdSetSnoc(r.posted[s.next..r.next], r.posted[r.next]);
    assert q.posted == s.posted + Popped(s.free, k + 1);
    assert q.free == s.free[..|s.free| - (k + 1)];
    assert q.held == s.held + IdSet(q.posted[s.next..q.next]);
  }

  lemma TakenThenTake(s: State, r: State)
    requires Inv(s) && TakenFrom(s, r) && Inv(r) && Enabled(r, Take)
    ensures var q := Step(r, Take);
      TakenFrom(s, q) && q.next == r.next + 1 && q.saved == s.saved && q.lost == s.lost
      && |q.posted| == |r.posted| + 1 && q.posted[r.next] == r.posted[r.next]
  {
    hide Step, Inv, SameOn, Intact, TakenFrom, Stamped;
    TakenBounds(s, r);
    TakeEffect(r);
    var q, id, size := Step(r, Take), r.posted[r.next], r.arrivals[r.next].size;
    StampedElsewhere(s.held, s.mem, r.mem, id, size);
    StampKeepsIntact(s, r, id, size);
    IntactOneMore(r.(mem := q.mem), q, s.next);
    TakenSnoc(s, r, q);
  }

  /** After `i` polls of one call: packets taken as TakenFrom says, at least as many as were waiting
      when it began, as far as `i` reaches; a lost queue has yielded nothing. */
  ghost predicate AfterPolls(s: State, r: State, i: nat)
    requires |s.posted| == s.next + s.n
  {
    && TakenFrom(s, r) && r.next - s.next <= i
    && (s.lost ==> r.next == s.next)
    && (!s.lost ==> r.next - s.next == i || s.filled <= r.next)
  }

  lemma NoPollsYet(s: State)
    requires Inv(s)
    ensures AfterPolls(s, s, 0)
  {
    TakenNone(s);
  }

  lemma DeviceBetweenPolls(s: State, r: State, q: State, i: nat)
    requires |s.posted| == s.next + s.n && AfterPolls(s, r, i) && DeviceOnly(r, q)
    ensures AfterPolls(s, q, i) && q.next == r.next && q.posted == r.posted && s.filled <= r.filled <= q.filled
    ensures q.lost == s.lost && q.saved == r.saved == s.saved
  {
    TakenThenDevice(s, r, q);
  }

  lemma AfterPollsBounds(s: State, r: State, i: nat)
    requires |s.posted| == s.next + s.n && AfterPolls(s, r, i)
    ensures s.next <= r.next && r.saved == s.saved && r.lost == s.lost && (s.lost ==> r.next == s.next)
    ensures Intact(r, s.next)
  {}

  lemma PollBounds(s: State, r: State, i: nat)
    requires Inv(s) && AfterPolls(s, r, i) && Inv(r)
    ensures s.next <= r.next < |r.posted| && r.lost == s.lost
    ensures |s.posted| == s.next + s.n
  {}

  lemma PollMisses(s: State, r: State, i: nat)
    requires |s.posted| == s.next + s.n && AfterPolls(s, r, i) && Inv(r) && (r.lost || r.next >= r.filled)
    ensures AfterPolls(s, r, i + 1)
  {}

  lemma PollHits(s: State, r: State, i: nat)
    requires Inv(s) && AfterPolls(s, r, i) && Inv(r) && Enabled(r, Take)
    ensures var q := Step(r, Take);
      && AfterPolls(s, q, i + 1)
      && q.next == r.next + 1 && q.filled == r.filled && q.saved == s.saved && q.lost == s.lost && q.n == r.n
      && s.next <= r.next < |r.posted| <= |q.posted|
      && q.posted[s.next..q.next] == r.posted[s.next..r.next] + [r.posted[r.next]]
  {
    hide Inv, Step, Stamped, TakenFrom;
    PollBounds(s, r, i);
    TakenThenTake(s, r);
    TakeEffect(r);
    SliceSnoc(r.posted, r.free[|r.free| - 1], s.next, r.next);
  }

  /** It gives up in state `q`: after fewer than `num` deliveries every free buffer has been used and
      a packet is still waiting. */
  ghost predicate GaveUpAt(s: State, q: State, r: State, num: nat)
    requires |s.posted| == s.next + s.n
  {
    TakenFrom(s, q) && q.next - s.next < num && Inv(q) && Enabled(q, GiveUp) && r == Step(q, GiveUp)
  }

  /** What a call does when it gives up: the length of the waiting packet has been stored in its
      buffer, and nothing has been published. */
  ghost predicate GaveUp(s: State, r: State, num: nat)
    requires |s.posted| == s.next + s.n
  {
    exists q :: GaveUpAt(s, q, r, num)
  }

  lemma PollFails(s: State, r: State, i: nat, num: nat)
    requires Inv(s) && i < num && AfterPolls(s, r, i) && Inv(r) && Enabled(r, GiveUp)
    ensures var q := Step(r, GiveUp);
      && GaveUp(s, q, num)
      && q.next == r.next && q.posted == r.posted && q.saved == s.saved && (!q.lost ==> q.saved == q.next)
      && q.filled == r.filled
  {
    hide Intact, SameOn, Conserved;
    assert GaveUpAt(s, r, Step(r, GiveUp), num);
  }

  /** What one call of `rx_batch(num)` does to the queue when it does not give up: `num` polls, and
      everything taken is published. */
  ghost predicate Received(s: State, r: State, num: nat)
    requires |s.posted| == s.next + s.n
  {
    && AfterPolls(s, r.(saved := s.saved), num)
    && r.saved == if s.lost then s.saved else r.next
  }

  lemma GaveUpEffect(s: State, q: State, r: State, num: nat)
    requires |s.posted| == s.next + s.n && GaveUpAt(s, q, r, num)
    ensures r.saved == s.saved && (!r.lost ==> r.saved == r.next) && Intact(r, s.next)
  {
    hide Conserved, Intact, SameOn, Popped, IdSet;
    Places(q);
    var id, size := q.posted[q.next], q.arrivals[q.next].size;
    StampKeepsIntact(s, q, id, size);
    IntactElsewhere(q.(mem := Stamped(q.mem, id, size)), r, s.next);
  }

  lemma GaveUpBounds(s: State, r: State, num: nat)
    requires |s.posted| == s.next + s.n && GaveUp(s, r, num)
    ensures r.saved == s.saved && (!r.lost ==> r.saved == r.next)
    ensures Intact(r, s.next)
  {
    hide GaveUpAt, Intact;
    var q :| GaveUpAt(s, q, r, num);
    GaveUpEffect(s, q, r, num);
  }

  /** With a quiet device, a call on a healthy queue with enough free buffers delivers exactly what
      is waiting, up to `num` packets. */
  lemma QuietCallDeliversWaiting(s: State, r: State, num: nat)
    requires Inv(s) && Inv(r) && !s.lost && s.saved == s.next && Received(s, r, num) && r.filled == s.filled
    ensures r.next - s.next == if num <= s.filled - s.next then num else s.filled - s.next
    ensures r.delivered == s.delivered
              + seq(r.next - s.next, i requires 0 <= i < r.next - s.next =>
                      Delivery(s.posted[s.next + i], s.arrivals[s.next + i]))
  {
    hide Conserved, Popped, IdSet, SameOn, Intact;
    forall k | s.next <= k < r.next
      ensures r.delivered[k] == Delivery(s.posted[k], s.arrivals[k])
    {
      assert r.posted[k] == s.posted[k];
    }
  }

  /** Giving up happens only when every free buffer has been used and there were fewer than `num`; it
      is harmless exactly when there was none to begin with. */
  lemma GivingUpIsHarmlessIff(s: State, r: State, num: nat)
    requires Inv(s) && !s.lost && s.saved == s.next && GaveUp(s, r, num)
    ensures Inv(r) && r.free == [] && r.next - s.next == |s.free| < num
    ensures !r.lost <==> s.free == []
  {
    hide Conserved, Popped, IdSet, SameOn, Intact, Stamped;
    var q :| GaveUpAt(s, q, r, num);
    StepKeepsInv(q, GiveUp);
  }
}
