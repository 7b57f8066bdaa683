/** `init_mempool`: every buffer of the transmit pool is given the same packet, with its IPv4 header
    checksum, before anything is sent. */
module Template {
  import opened Checksum
  import opened Descriptors
  import opened Mempool
  import RingIndex
  import TxQueue
  import TxModel

  const PKT_SIZE: nat := 1210
  const HEADER_OFFSET: nat := 14
  const HEADER_LENGTH: nat := 20
  const HEADER_END: nat := HEADER_OFFSET + HEADER_LENGTH
  const CHECKSUM_OFFSET: nat := 24

  const IP_LENGTH_HIGH: byte := (PKT_SIZE - 14) / 0x100
  const IP_LENGTH_LOW: byte := (PKT_SIZE - 14) % 0x100
  const UDP_LENGTH_HIGH: byte := (PKT_SIZE - 20 - 14) / 0x100
  const UDP_LENGTH_LOW: byte := (PKT_SIZE - 20 - 14) % 0x100

  const ETHERNET_HEADER: seq<byte> := [
    0x01, 0x02, 0x03, 0x04, 0x05, 0x06,
    0x07, 0x08, 0x09, 0x10, 0x11, 0x12,
    0x08, 0x13]

  const IPV4_HEADER: seq<byte> :=
    [0x45, 0x00, IP_LENGTH_HIGH, IP_LENGTH_LOW, 0x00, 0x00, 0x00, 0x00]
    + [0x40, 0x11, 0x00, 0x00, 0x0A, 0x00, 0x00, 0x01]
    + [0x0A, 0x00, 0x00, 0x02]

  /** The UDP header and the first payload bytes. */
  const UDP_DATA: seq<byte> := [
    0x00, 0x2A, 0x05, 0x39,
    UDP_LENGTH_HIGH, UDP_LENGTH_LOW,
    0x00, 0x00,
    0x73, 0x69, 0x69, 0x62]

  const PKT_DATA: seq<byte> := ETHERNET_HEADER + IPV4_HEADER + UDP_DATA

  /** A packet whose IPv4 header verifies. */
  predicate Verifies(p: Packet)
  {
    |p.data| >= HEADER_END
    && ChecksumOf(p.data[HEADER_OFFSET..HEADER_END]) == 0
  }

  /** The buffer after `memcpy` of the template and the store of the checksum. */
  function Filled(data: seq<byte>): (r: seq<byte>)
    requires |data| >= |PKT_DATA|
    ensures |r| == |data|
  {
    var copied := PKT_DATA + data[|PKT_DATA|..];
    StoreWord(copied, CHECKSUM_OFFSET, ChecksumOf(copied[HEADER_OFFSET..HEADER_END]))
  }

  /** The template in numbers, but for the header checksum, which is zero: IPv4 (0x45 in byte 14) with
      the total length, 1210 - 14, in network order in bytes 16 and 17, and UDP with its length in
      bytes 38 and 39. */
  lemma TemplateBytes()
    ensures PKT_DATA
      == [1, 2, 3, 4, 5, 6, 7, 8, 9, 16, 17, 18, 8, 19]
         + ([69, 0, 4, 172, 0, 0, 0, 0] + [64, 17, 0, 0, 10, 0, 0, 1] + [10, 0, 0, 2])
         + [0, 42, 5, 57, 4, 152, 0, 0, 115, 105, 105, 98]
    ensures |PKT_DATA| == 46 && PKT_SIZE == 1210
    ensures 0x100 * 4 + 172 == 1210 - 14 && 0x100 * 4 + 152 == 1210 - 34
    ensures DEFAULT_ENTRY_SIZE >= 64 + |PKT_DATA|
  {}

  lemma TemplateHeader()
    ensures |PKT_DATA| == 46
    ensures PKT_DATA[14..34] == [69, 0, 4, 172, 0, 0, 0, 0] + [64, 17, 0, 0, 10, 0, 0, 1] + [10, 0, 0, 2]
  {
    assert PKT_DATA[14..34] == IPV4_HEADER;
  }

  lemma HeaderWords()
    ensures Words([69, 0, 4, 172, 0, 0, 0, 0]) == [69, 44036, 0, 0]
    ensures Words([64, 17, 0, 0, 10, 0, 0, 1]) == [4416, 0, 10, 256]
    ensures Words([10, 0, 0, 2]) == [10, 512]
  {}

  /** The checksum of the template's header: its ten words add up to 49309. */
  lemma TemplateChecksum()
    ensures |PKT_DATA| == 46 && ChecksumOf(PKT_DATA[14..34]) == 0x3F62
  {
    hide PKT_DATA, Words;
    TemplateHeader();
    var a: seq<byte>, b: seq<byte>, c: seq<byte> :=
      [69, 0, 4, 172, 0, 0, 0, 0], [64, 17, 0, 0, 10, 0, 0, 1], [10, 0, 0, 2];
    HeaderWords();
    WordsAppend(a + b, c);
    WordsAppend(a, b);
    SumAppend(Words(a) + Words(b), Words(c));
    SumAppend(Words(a), Words(b));
    SumOfFour(69, 44036, 0, 0);
    SumOfFour(4416, 0, 10, 256);
    SumOfTwo(10, 512);
  }

  /** What initialisation makes of a buffer, in numbers: the 20-byte IPv4 header starts at byte 14, and
      its checksum field, bytes 10 and 11 of it in section 3.1 of RFC 791, holds the checksum of the
      header with that field zero, low byte first; every other byte is the template's or as before. */
  lemma FilledBytes(data: seq<byte>)
    requires |data| >= |PKT_DATA|
    ensures |PKT_DATA| == 46 && |Filled(data)| == |data|
    ensures forall i :: 0 <= i < |data| && i != 24 && i != 25 ==>
              Filled(data)[i] == if i < |PKT_DATA| then PKT_DATA[i] else data[i]
    ensures var c := ChecksumOf(PKT_DATA[14..34]); Filled(data)[24] == c % 0x100 && Filled(data)[25] == c / 0x100
    ensures Filled(data)[24] == 0x62 && Filled(data)[25] == 0x3F
  {
    hide ChecksumOf;
    TemplateChecksum();
    var copied := PKT_DATA + data[|PKT_DATA|..];
    assert copied[14..34] == PKT_DATA[14..34];
  }

  /** The checksum lands in the header, so the stored packet verifies; the rest of the buffer is
      the template followed by what was there. */
  lemma FilledVerifies(data: seq<byte>, size: bv32)
    requires |data| >= |PKT_DATA|
    ensures Verifies(Packet(size, Filled(data)))
    ensures |PKT_DATA| == 46 && ChecksumOf(Filled(data)[14..34]) == 0
    ensures forall i :: 0 <= i < |data| && i != 24 && i != 25 ==>
      Filled(data)[i] == if i < |PKT_DATA| then PKT_DATA[i] else data[i]
  {
    var copied := PKT_DATA + data[|PKT_DATA|..];
    var header := copied[HEADER_OFFSET..HEADER_END];
    var at := CHECKSUM_OFFSET - HEADER_OFFSET;
    assert header[at] == PKT_DATA[CHECKSUM_OFFSET] == 0;
    assert header[at + 1] == PKT_DATA[CHECKSUM_OFFSET + 1] == 0;
    StoredChecksumVerifies(header, at);
    assert Filled(data)[HEADER_OFFSET..HEADER_END] == StoreWord(header, at, ChecksumOf(header));
  }

  /** These contents are the template over `data`, with the checksum in bytes 24 and 25, and `size`. */
  ghost predicate FilledInPlace(p: Packet, data: seq<byte>, size: bv32)
  {
    && p.size == size && |p.data| == |data| >= |PKT_DATA| == 46
    && p.data[24] == 0x62 && p.data[25] == 0x3F
    && (forall i :: 0 <= i < 46 && i != 24 && i != 25 ==> p.data[i] == PKT_DATA[i])
    && (forall i :: 46 <= i < |data| ==> p.data[i] == data[i])
  }

  lemma FilledIsInPlace(data: seq<byte>, size: bv32)
    requires |data| >= |PKT_DATA|
    ensures FilledInPlace(Packet(size, Filled(data)), data, size)
  {
    hide Filled, PKT_DATA;
    FilledBytes(data);
  }

  /** Buffers have room for the template. */
  ghost predicate LongEnough(n: nat, garbage: nat -> seq<byte>)
  {
    forall id :: 0 <= id < n ==> |garbage(id)| >= |PKT_DATA|
  }

  /** The buffers while the pool is being filled: the last `k` ids are done. */
  ghost function Progress(n: nat, k: nat, garbage: nat -> seq<byte>, size: bv32): seq<Packet>
    requires k <= n && LongEnough(n, garbage)
  {
    seq(n, id requires 0 <= id < n => if id >= n - k then Packet(size, Filled(garbage(id))) else Packet(0, garbage(id)))
  }

  /** The first `k` pushes of ids n - 1, n - 2, ... */
  function Reversed(n: nat, k: nat): (r: seq<nat>)
    requires k <= n
    ensures |r| == k
    ensures forall i :: 0 <= i < k ==> r[i] == n - 1 - i
  {
    seq(k, i requires 0 <= i < k => n - 1 - i)
  }

  lemma ReversedNone(n: nat)
    ensures Reversed(n, 0) == []
  {}

  lemma ReversedNext(n: nat, k: nat)
    requires k < n
    ensures n - 1 - k !in Reversed(n, k)
    ensures Reversed(n, k + 1) == Reversed(n, k) + [n - 1 - k]
  {}

  lemma ReversedFirst(n: nat)
    requires n > 0
    ensures Reversed(n, n) == [n - 1] + Reversed(n - 1, n - 1)
  {}

  lemma {:induction false} ReversedIsAllIds(n: nat)
    ensures multiset(Reversed(n, n)) == multiset(AllIds(n))
  {
    hide Reversed;
    if n == 0 {
      ReversedNone(0);
      assert AllIds(0) == {};
    } else {
      ReversedIsAllIds(n - 1);
      ReversedFirst(n);
      AllIdsNext(n);
    }
  }

  lemma ProgressStep(n: nat, k: nat, garbage: nat -> seq<byte>, size: bv32)
    requires k < n && LongEnough(n, garbage)
    ensures |Progress(n, k, garbage, size)| == n
    ensures var id, mem := n - 1 - k, Progress(n, k, garbage, size);
      && |mem[id].data| >= |PKT_DATA|
      && Progress(n, k + 1, garbage, size) == mem[id := Packet(size, Filled(mem[id].data))]
  {}

  /** The stores to one buffer: size, template bytes, checksum. */
  method FillBuffer(pool: Pool, buf: nat, ghost id: nat, size: bv32, ghost mem: seq<Packet>)
    requires pool.Valid() && id < pool.layout.total && buf == pool.layout.Ptr(id)
    requires Holds(pool.layout, pool.memory, mem) && |mem[id].data| >= |PKT_DATA|
    modifies pool`memory
    ensures pool.Valid()
    ensures buf in pool.memory && FilledInPlace(pool.memory[buf].Contents(), mem[id].data, size)
    ensures Holds(pool.layout, pool.memory, mem[id := Packet(size, Filled(mem[id].data))])
  {
    var before := pool.memory[buf];
    var data := PKT_DATA + before.data[|PKT_DATA|..];
    var header := data[HEADER_OFFSET..HEADER_END];
    var cs := CalcIpChecksum(header, HEADER_LENGTH);
    assert header[..HEADER_LENGTH] == header;
    assert before.Contents() == mem[id];
    data := data[CHECKSUM_OFFSET := cs % 0x100][CHECKSUM_OFFSET + 1 := cs / 0x100];
    assert data == Filled(mem[id].data);
    FilledIsInPlace(mem[id].data, size);
    HoldsAfterStore(pool.layout, pool.memory, mem, id, Packet(size, data));
    pool.memory := pool.memory[buf := before.(size := size, data := data)];
  }

  /** One iteration: allocates the next buffer and fills it. */
  method FillNext(pool: Pool, ghost k: nat, ghost garbage: nat -> seq<byte>, size: bv32) returns (buf: nat)
    requires k < pool.layout.total && LongEnough(pool.layout.total, garbage)
    requires pool.HasFree(Identity(pool.layout.total - k))
    requires Holds(pool.layout, pool.memory, Progress(pool.layout.total, k, garbage, size))
    modifies pool`freeStackTop, pool`memory
    ensures pool.HasFree(Identity(pool.layout.total - (k + 1)))
    ensures buf == pool.layout.Ptr(pool.layout.total - 1 - k)
    ensures Holds(pool.layout, pool.memory, Progress(pool.layout.total, k + 1, garbage, size))
  {
    hide Filled, Holds, WellFormed, AllIds, Progress, LongEnough, Layout.Ptr, Layout.Good;
    ghost var n := pool.layout.total;
    ghost var mem, mem' := Progress(n, k, garbage, size), Progress(n, k + 1, garbage, size);
    ProgressStep(n, k, garbage, size);
    var pb := pool.AllocPktBuf();
    assert pool.Free() == Identity(n - (k + 1));
    buf := pb.value;
    FillBuffer(pool, buf, n - 1 - k, size, mem);
  }

  lemma EmptyIdentity()
    ensures Identity(0) == []
  {}

  /** The first loop: allocate a buffer, fill it, remember it. */
  method FillAll(pool: Pool, bufs: array<nat>, garbage: nat -> seq<byte>, size: bv32)
    requires bufs != pool.freeStack && bufs.Length == pool.layout.total
    requires LongEnough(pool.layout.total, garbage)
    requires pool.HasFree(Identity(pool.layout.total))
    requires Holds(pool.layout, pool.memory, Progress(pool.layout.total, 0, garbage, size))
    modifies pool`freeStackTop, pool`memory, bufs
    ensures pool.HasFree([])
    ensures forall j :: 0 <= j < bufs.Length ==> bufs[j] == pool.layout.Ptr(bufs.Length - 1 - j)
    ensures Holds(pool.layout, pool.memory, Progress(bufs.Length, bufs.Length, garbage, size))
  {
    hide Filled, Holds, Identity, Progress, LongEnough, Pool.HasFree, Layout.Ptr;
    EmptyIdentity();
    var n := bufs.Length;
    for k := 0 to n
      invariant pool.HasFree(Identity(n - k))
      invariant forall j :: 0 <= j < k ==> bufs[j] == pool.layout.Ptr(n - 1 - j)
      invariant Holds(pool.layout, pool.memory, Progress(n, k, garbage, size))
    {
      bufs[k] := FillNext(pool, k, garbage, size);
    }
  }

  /** The second loop: free them in the same order. */
  method FreeAll(pool: Pool, bufs: array<nat>)
    requires pool.HasFree([]) && bufs != pool.freeStack && bufs.Length == pool.layout.total
    requires forall j :: 0 <= j < bufs.Length ==> bufs[j] == pool.layout.Ptr(bufs.Length - 1 - j)
    modifies pool`freeStackTop, pool.freeStack
    ensures pool.Valid() && pool.Free() == Reversed(bufs.Length, bufs.Length)
  {
    hide Holds, WellFormed, AllIds, Layout.Ptr, Layout.Good, Pool.Valid, Reversed;
    ReversedNone(bufs.Length);
    for k := 0 to bufs.Length
      invariant pool.HasFree(Reversed(bufs.Length, k))
    {
      ReversedNext(bufs.Length, k);
      pool.PktBufFree(bufs[k], bufs.Length - 1 - k);
    }
  }

  lemma NoProgress(n: nat, garbage: nat -> seq<byte>, size: bv32)
    requires LongEnough(n, garbage)
    ensures Progress(n, 0, garbage, size) == Blank(n, garbage)
  {}

  lemma AllVerify(n: nat, garbage: nat -> seq<byte>, size: bv32)
    requires LongEnough(n, garbage)
    ensures |Progress(n, n, garbage, size)| == n
    ensures forall id :: 0 <= id < n ==> Verifies(Progress(n, n, garbage, size)[id])
  {
    hide Filled, Verifies;
    forall id | 0 <= id < n
      ensures Verifies(Progress(n, n, garbage, size)[id])
    {
      FilledVerifies(garbage(id), size);
    }
  }

  lemma AllFilledInPlace(l: Layout, memory: map<nat, PktBuf>, garbage: nat -> seq<byte>, size: bv32)
    requires LongEnough(l.total, garbage) && Holds(l, memory, Progress(l.total, l.total, garbage, size))
    ensures forall id :: 0 <= id < l.total ==>
              l.Ptr(id) in memory && FilledInPlace(memory[l.Ptr(id)].Contents(), garbage(id), size)
  {
    hide FilledInPlace, Filled, Layout.Ptr;
    forall id | 0 <= id < l.total
      ensures l.Ptr(id) in memory && FilledInPlace(memory[l.Ptr(id)].Contents(), garbage(id), size)
    {
      FilledIsInPlace(garbage(id), size);
    }
  }

  /** Allocates every buffer, fills each, and frees them in the order they were allocated: all ids
      are free exactly once, in reversed stack order, and every buffer has the requested size and a
      verifying header. */
  method InitMempool(numBufs: nat, base: nat, virtToPhys: nat -> nat, garbage: nat -> seq<byte>, size: bv32)
    returns (pool: Pool)
    requires Layout(base, DEFAULT_ENTRY_SIZE, numBufs, virtToPhys).Good()
    requires LongEnough(numBufs, garbage)
    ensures fresh(pool) && fresh(pool.freeStack) && pool.Valid()
    ensures pool.layout == Layout(base, DEFAULT_ENTRY_SIZE, numBufs, virtToPhys) && pool.layout.entrySize == 2048
    ensures pool.Free() == Reversed(numBufs, numBufs)
    ensures multiset(pool.Free()) == multiset(AllIds(numBufs))
    ensures Holds(pool.layout, pool.memory, Progress(numBufs, numBufs, garbage, size))
    ensures forall id :: 0 <= id < numBufs ==> Verifies(Progress(numBufs, numBufs, garbage, size)[id])
    ensures forall id :: 0 <= id < numBufs ==>
              && pool.layout.Ptr(id) in pool.memory
              && FilledInPlace(pool.memory[pool.layout.Ptr(id)].Contents(), garbage(id), size)
  {
    hide FilledInPlace, Filled, Verifies, Holds, WellFormed, AllIds, Layout.Ptr, Layout.Good, Reversed, Progress, Blank;
    pool := new Pool(numBufs, 0, base, virtToPhys, garbage);
    NoProgress(numBufs, garbage, size);
    var bufs := new nat[numBufs];
    FillAll(pool, bufs, garbage, size);
    FreeAll(pool, bufs);
    ReversedIsAllIds(numBufs);
    AllVerify(numBufs, garbage, size);
    AllFilledInPlace(pool.layout, pool.memory, garbage, size);
  }

  // ---- What reaches the wire ----

  /** A verifying buffer gives a verifying packet exactly when the header is within the length. */
  lemma SentVerifiesIff(p: Packet)
    requires Fits(p) && Verifies(p)
    ensures Verifies(OnWire(p)) <==> HEADER_END <= Bytes(p.size & DTALEN_MASK)
  {
    hide Bytes;
    var length := Bytes(p.size & DTALEN_MASK);
    if HEADER_END <= length {
      assert p.data[..length][HEADER_OFFSET..HEADER_END] == p.data[HEADER_OFFSET..HEADER_END];
    }
  }

  /** If every buffer verifies at the start and the client writes only contents that do, a packet the
      device puts on the wire verifies exactly when it is long enough to contain the header. */
  lemma WireVerifiesIff(s: TxModel.State, t: seq<TxModel.Event>)
    requires TxModel.Start(s) && TxModel.Run(s, t).Some?
    requires forall id :: 0 <= id < s.total ==> Verifies(s.mem[id])
    requires forall i :: 0 <= i < |t| && t[i].Write? ==> Verifies(t[i].packet)
    ensures var wire := TxModel.Run(s, t).value.wire;
      forall k :: 0 <= k < |wire| ==> (Verifies(wire[k]) <==> HEADER_END <= Bytes(wire[k].size))
  {
    hide Verifies, Bytes, Fits, TxModel.Inv, TxModel.Run;
    TxModel.WireKeeps(s, t, Verifies);
    var r := TxModel.Run(s, t).value;
    forall k | 0 <= k < |r.wire|
      ensures Verifies(r.wire[k]) <==> HEADER_END <= Bytes(r.wire[k].size)
    {
      SentVerifiesIff(r.log[k].packet);
    }
  }

  /** Contents whose transmission verifies. */
  predicate Sendable(p: Packet)
  {
    Verifies(p) && HEADER_END <= Bytes(p.size & DTALEN_MASK)
  }

  /** End to end: with sizes that reach past the header in all those contents, every packet the device
      ever puts on the wire verifies. */
  lemma EveryPacketOnTheWireVerifies(s: TxModel.State, t: seq<TxModel.Event>)
    requires TxModel.Start(s) && TxModel.Run(s, t).Some?
    requires forall id :: 0 <= id < s.total ==> Sendable(s.mem[id])
    requires forall i :: 0 <= i < |t| && t[i].Write? ==> Sendable(t[i].packet)
    ensures forall k :: 0 <= k < |TxModel.Run(s, t).value.wire| ==> Verifies(TxModel.Run(s, t).value.wire[k])
  {
    hide Verifies, Bytes, Fits, TxModel.Inv, TxModel.Run;
    TxModel.WireKeeps(s, t, Sendable);
    WireVerifiesIff(s, t);
  }

  /** The same for the queue class: in every state its methods reach, if the buffers verified when
      the queue was set up and every packet the client wrote since verifies, a packet on the real
      wire verifies exactly when it is long enough. */
  lemma QueueSendsVerifyingIff(q: TxQueue.TxQueue)
    requires q.Running()
    requires forall id :: 0 <= id < q.start.total ==> Verifies(q.start.mem[id])
    requires forall i :: 0 <= i < |q.trace| && q.trace[i].Write? ==> Verifies(q.trace[i].packet)
    ensures forall k :: 0 <= k < |q.wire| ==> (Verifies(q.wire[k]) <==> HEADER_END <= Bytes(q.wire[k].size))
  {
    hide Verifies, Bytes;
    WireVerifiesIff(q.start, q.trace);
  }

  /** With the template and nothing else written: the size given to `init_mempool` decides. */
  lemma TemplateVerifiesIff(q: TxQueue.TxQueue, size: bv32)
    requires q.Running() && TxModel.NoWrites(q.trace)
    requires forall id :: 0 <= id < q.start.total ==> Verifies(q.start.mem[id]) && q.start.mem[id].size == size
    ensures forall k :: 0 <= k < |q.wire| ==> (Verifies(q.wire[k]) <==> HEADER_END <= Bytes(size & DTALEN_MASK))
  {
    hide Verifies, Bytes, Fits, TxModel.Inv, TxModel.Run;
    TxModel.WireKeeps(q.start, q.trace, (p: Packet) => p.size == size);
    QueueSendsVerifyingIff(q);
  }

  /** A failing size: of a verifying buffer with size 20 the device sends 20 bytes, which end before
      the checksum. */
  lemma ShortPacketDoesNotVerify(s: TxModel.State, id: nat)
    requires TxModel.Start(s) && s.free != [] && id == s.free[|s.free| - 1] < |s.mem|
    requires Verifies(s.mem[id]) && s.mem[id].size == 20
    ensures var r := TxModel.Run(s, [] + [TxModel.Alloc] + [TxModel.Enqueue(id)] + [TxModel.Publish] + [TxModel.Fetch]);
      r.Some? && |r.value.wire| == 1 && |r.value.wire[0].data| == 20 && !Verifies(r.value.wire[0])
  {
    hide TxModel.Inv, TxModel.Run, TxModel.Start;
    assert s.mem[id].size & DTALEN_MASK == 20 && Bytes(20) == 20;
    TxModel.StartHolds(s);
    TxModel.RunNothing(s);
    TxModel.RunSnoc(s, [], TxModel.Alloc);
    TxModel.SendOne(s, [] + [TxModel.Alloc], id);
  }

  /** `init_mempool` followed by the set-up of a transmit queue over its pool: the queue starts with
      every buffer free and verifying, and with nothing written by the client; the buffers may be
      offered exactly when the size is within them. */
  method StartSender(numBufs: nat, base: nat, virtToPhys: nat -> nat, garbage: nat -> seq<byte>, size: bv32,
                     numEntries: nat, batch: nat, report: bool)
    returns (q: TxQueue.TxQueue)
    requires Layout(base, DEFAULT_ENTRY_SIZE, numBufs, virtToPhys).Good()
    requires LongEnough(numBufs, garbage)
    requires RingIndex.IsPowerOfTwo(numEntries) && 2 <= numEntries <= 0x1_0000 && 1 <= batch < numEntries
    ensures fresh(q) && q.Valid() && q.trace == [] && q.model == q.start
    ensures q.numEntries == numEntries && q.batch == batch && q.report == report
    ensures q.pool.layout.total == numBufs == q.start.total
    ensures q.pool.Free() == Reversed(numBufs, numBufs)
    ensures forall id :: 0 <= id < numBufs ==> q.start.mem[id] == Packet(size, Filled(garbage(id)))
    ensures forall id :: 0 <= id < numBufs ==> Verifies(q.start.mem[id])
    ensures forall id :: 0 <= id < numBufs ==>
              (Fits(q.start.mem[id]) <==> Bytes(size & DTALEN_MASK) <= |garbage(id)|)
  {
    hide Filled, Verifies, Holds, WellFormed, AllIds, Layout.Ptr, Layout.Good, Bytes;
    var pool := InitMempool(numBufs, base, virtToPhys, garbage, size);
    q := new TxQueue.TxQueue(pool, numEntries, batch, report, Progress(numBufs, numBufs, garbage, size));
  }
}
