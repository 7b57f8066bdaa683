/** The packet-buffer pool: a LIFO stack of free buffer ids over one DMA region. */
module Mempool {
  import opened Descriptors
  import RingIndex

  datatype Option<+T> = None | Some(value: T)

  // ---- Where buffers live ----

  /** The header and bytes of one `struct pkt_buf`; its `mempool` pointer is the pool itself. */
  datatype PktBuf = PktBuf(bufAddrPhy: nat, mempoolIdx: nat, size: bv32, data: seq<byte>) {
    function Contents(): Packet { Packet(size, data) }
  }

  /** `offsetof(struct pkt_buf, data)`, from the 64-byte alignment of `data`. */
  const DATA_OFFSET: nat := 64

  const DEFAULT_ENTRY_SIZE: nat := 2048

  /** The region handed out by the system: its address, and the virtual-to-physical translation. */
  datatype Layout = Layout(base: nat, entrySize: nat, total: nat, virtToPhys: nat -> nat) {

    /** The pointer to buffer `id`: `base` plus `id` entries. */
    function Ptr(id: nat): nat
    {
      if id == 0 then base else Ptr(id - 1) + entrySize
    }

    /** The bus address of the data of buffer `id`, as written into descriptors. */
    function DataAddr(id: nat): nat
    {
      virtToPhys(Ptr(id)) + DATA_OFFSET
    }

    /** What the environment provides: entries that take up room, and distinct physical addresses
        for distinct buffers. */
    ghost predicate Good()
    {
      && entrySize > 0
      && forall i, j :: 0 <= i < total && 0 <= j < total && DataAddr(i) == DataAddr(j) ==> i == j
    }

    lemma {:induction false} PtrIsOffset(id: nat)
      ensures Ptr(id) == base + id * entrySize
    {
      if id > 0 {
        PtrIsOffset(id - 1);
        assert id * entrySize == (id - 1) * entrySize + entrySize;
      }
    }

    /** The header takes 64 bytes, and the data follows it. */
    lemma DataFollowsHeader(id: nat)
      ensures DataAddr(id) == virtToPhys(base + id * entrySize) + 64
    {
      PtrIsOffset(id);
    }

    /** Buffers occupy pairwise disjoint regions, in id order. */
    lemma {:induction false} PtrDisjoint(i: nat, j: nat)
      requires i < j
      ensures Ptr(i) + entrySize <= Ptr(j)
    {
      if i + 1 < j {
        PtrDisjoint(i, j - 1);
      }
    }

    lemma PtrInjective(i: nat, j: nat)
      requires entrySize > 0
      ensures Ptr(i) == Ptr(j) <==> i == j
    {
      if i < j {
        PtrDisjoint(i, j);
      } else if j < i {
        PtrDisjoint(j, i);
      }
    }
  }

  /** The frame a pagemap entry names: its bits 0-54. */
  function Frame(pagemap: nat -> nat, page: nat): nat
  {
    pagemap(page) % 0x80_0000_0000_0000
  }

  /** `virt_to_phys` */
  function VirtToPhys(pagemap: nat -> nat, pageSize: nat, virt: nat): nat
    requires pageSize > 0
  {
    Frame(pagemap, virt / pageSize) * pageSize + virt % pageSize
  }

  /** With the frame in bits 0-54 of the pagemap entry of an address's page, whatever is in the bits
      above, the physical address is the same offset in that frame. */
  lemma VirtToPhysIs(pagemap: nat -> nat, pageSize: nat, virt: nat, frame: nat, flags: nat)
    requires pageSize > 0 && frame < 0x80_0000_0000_0000
    requires pagemap(virt / pageSize) == flags * 0x80_0000_0000_0000 + frame
    ensures VirtToPhys(pagemap, pageSize, virt) == frame * pageSize + virt % pageSize
  {
    RingIndex.QuotientAndRemainder(pagemap(virt / pageSize), 0x80_0000_0000_0000, flags, frame);
  }

  lemma PagePosition(q: nat, r: nat, pageSize: nat)
    requires r < pageSize
    ensures (q * pageSize + r) / pageSize == q && (q * pageSize + r) % pageSize == r
  {
    RingIndex.QuotientAndRemainder(q * pageSize + r, pageSize, q, r);
  }

  lemma UniquePosition(q: nat, r: nat, q': nat, r': nat, pageSize: nat)
    requires r < pageSize && r' < pageSize && q * pageSize + r == q' * pageSize + r'
    ensures q == q' && r == r'
  {
    PagePosition(q, r, pageSize);
    PagePosition(q', r', pageSize);
  }

  lemma SamePhysicalAddress(pagemap: nat -> nat, pageSize: nat, a: nat, b: nat)
    requires pageSize > 0 && VirtToPhys(pagemap, pageSize, a) == VirtToPhys(pagemap, pageSize, b)
    ensures Frame(pagemap, a / pageSize) == Frame(pagemap, b / pageSize)
    ensures a / pageSize == b / pageSize ==> a == b
  {
    UniquePosition(Frame(pagemap, a / pageSize), a % pageSize, Frame(pagemap, b / pageSize), b % pageSize, pageSize);
  }

  /** The page the header of buffer `id` starts on. */
  function PageOf(l: Layout, pageSize: nat, id: nat): nat
    requires pageSize > 0
  {
    l.Ptr(id) / pageSize
  }

  /** A page table that maps the pages of the pool to different frames gives different buffers
      different physical addresses. */
  lemma DistinctFramesAreGood(l: Layout, pagemap: nat -> nat, pageSize: nat)
    requires l.entrySize > 0 && pageSize > 0
    requires forall v: nat :: l.virtToPhys(v) == VirtToPhys(pagemap, pageSize, v)
    requires forall i, j :: 0 <= i < l.total && 0 <= j < l.total
               && Frame(pagemap, PageOf(l, pageSize, i)) == Frame(pagemap, PageOf(l, pageSize, j))
               ==> PageOf(l, pageSize, i) == PageOf(l, pageSize, j)
    ensures l.Good()
  {
    forall i, j | 0 <= i < l.total && 0 <= j < l.total && l.DataAddr(i) == l.DataAddr(j)
      ensures i == j
    {
      SamePhysicalAddress(pagemap, pageSize, l.Ptr(i), l.Ptr(j));
      assert PageOf(l, pageSize, i) == PageOf(l, pageSize, j);
      l.PtrInjective(i, j);
    }
  }

  lemma ScaledPosition(a: nat, b: nat, c: nat, d: nat)
    ensures (a * b + c) * d == a * (b * d) + c * d
  {}

  lemma RoomForOneMore(entry: nat, perPage: nat, entrySize: nat)
    requires entry < perPage
    ensures entry * entrySize + entrySize <= perPage * entrySize
  {
    assert (entry + 1) * entrySize <= perPage * entrySize;
  }

  /** Entry `id`, counted in pages and entries within a page, starts at a multiple of the entry
      size inside its page and ends before the page does. */
  lemma EntryWithinPage(firstPage: nat, perPage: nat, entrySize: nat, id: nat) returns (page: nat, offset: nat)
    requires perPage > 0 && entrySize > 0
    ensures firstPage * (perPage * entrySize) + id * entrySize == page * (perPage * entrySize) + offset
    ensures offset + entrySize <= perPage * entrySize
  {
    var p, entry := id / perPage, id % perPage;
    page, offset := firstPage + p, entry * entrySize;
    assert id == p * perPage + entry;
    ScaledPosition(p, perPage, entry, entrySize);
    ScaledPosition(firstPage, 1, p, perPage * entrySize);
    RoomForOneMore(entry, perPage, entrySize);
  }

  /** When the entry size divides the page size and the region starts on a page, no buffer crosses
      a page: under any page table, byte `k` of a buffer is at its physical address plus `k`. */
  lemma BuffersArePhysicallyContiguous(l: Layout, pagemap: nat -> nat, pageSize: nat, id: nat, k: nat)
    requires l.entrySize > 0 && pageSize > 0 && k < l.entrySize
    requires l.base % pageSize == 0 && pageSize % l.entrySize == 0
    ensures VirtToPhys(pagemap, pageSize, l.Ptr(id) + k) == VirtToPhys(pagemap, pageSize, l.Ptr(id)) + k
  {
    var perPage := pageSize / l.entrySize;
    assert pageSize == perPage * l.entrySize;
    assert l.base == (l.base / pageSize) * pageSize;
    var page, offset := EntryWithinPage(l.base / pageSize, perPage, l.entrySize, id);
    l.PtrIsOffset(id);
    PagePosition(page, offset, pageSize);
    PagePosition(page, offset + k, pageSize);
  }

  const HUGE_PAGE_SIZE: nat := 0x20_0000

  /** The size `allocate_dma_address` maps: whole huge pages. */
  function RoundToHugePages(size: nat): nat
  {
    if size % HUGE_PAGE_SIZE != 0 then (size / HUGE_PAGE_SIZE + 1) * HUGE_PAGE_SIZE else size
  }

  lemma RoundingBound(size: nat)
    ensures size <= RoundToHugePages(size % 0x1_0000_0000) <==> size < 0x1_0000_0000
  {
    var wrapped := size % 0x1_0000_0000;
    assert RoundToHugePages(wrapped) <= 0x1_0000_0000;
    assert wrapped <= RoundToHugePages(wrapped);
    assert wrapped == 0 ==> RoundToHugePages(wrapped) == 0;
  }

  /** That is the least multiple of 2 MiB that is not below the size. */
  lemma RoundedIsLeast(size: nat)
    ensures size <= RoundToHugePages(size) < size + 0x20_0000
    ensures RoundToHugePages(size) % 0x20_0000 == 0
    ensures forall m: nat :: size <= m && m % 0x20_0000 == 0 ==> RoundToHugePages(size) <= m
  {}

  /** The mapped region covers all the entries exactly when the 32-bit product
      `num_entries * entry_size` does not wrap. */
  lemma RegionCoversPoolIff(numEntries: nat, entrySize: nat)
    ensures numEntries * entrySize <= RoundToHugePages((numEntries * entrySize) % 0x1_0000_0000)
            <==> numEntries * entrySize < 0x1_0000_0000
  {
    RoundingBound(numEntries * entrySize);
  }

  // ---- Who has which buffer ----

  ghost function AllIds(total: nat): (ids: set<nat>)
    ensures forall id :: id in ids <==> 0 <= id < total
    ensures |ids| == total
  {
    if total == 0 then {} else AllIds(total - 1) + {total - 1}
  }

  lemma AllIdsNext(n: nat)
    requires n > 0
    ensures multiset(AllIds(n)) == multiset(AllIds(n - 1)) + multiset([n - 1])
  {}

  ghost function IdSet(ids: seq<nat>): set<nat>
  {
    set id | id in ids
  }

  lemma IdSetSnoc(ids: seq<nat>, id: nat)
    ensures IdSet(ids + [id]) == IdSet(ids) + {id}
  {}

  /** Every id is in exactly one place: the free stack, a ring slot, or the client's hands. */
  ghost predicate Conserved(total: nat, free: seq<nat>, ring: seq<nat>, held: set<nat>)
  {
    multiset(free) + multiset(ring) + multiset(held) == multiset(AllIds(total))
  }

  lemma ConservedCount(total: nat, free: seq<nat>, ring: seq<nat>, held: set<nat>)
    requires Conserved(total, free, ring, held)
    ensures |free| + |ring| + |held| == total
  {
    assert |multiset(free) + multiset(ring) + multiset(held)| == |free| + |ring| + |held|;
  }

  lemma NoRepeats(s: seq<nat>, i: nat, j: nat)
    requires i < j < |s| && s[i] == s[j]
    ensures multiset(s)[s[i]] >= 2
  {
    assert s == s[..j] + [s[j]] + s[j + 1..];
    assert s[i] in s[..j];
  }

  /** What conservation says of one id, and of two places of one sequence. */
  lemma ExactlyOnePlace(total: nat, free: seq<nat>, ring: seq<nat>, held: set<nat>)
    requires Conserved(total, free, ring, held)
    ensures forall id :: id in free || id in ring || id in held <==> 0 <= id < total
    ensures forall id :: !(id in free && id in ring) && !(id in free && id in held) && !(id in ring && id in held)
    ensures forall i, j :: 0 <= i < j < |free| ==> free[i] != free[j]
    ensures forall i, j :: 0 <= i < j < |ring| ==> ring[i] != ring[j]
  {
    var all := multiset(AllIds(total));
    forall id
      ensures multiset(free)[id] + multiset(ring)[id] + multiset(held)[id] == all[id]
      ensures all[id] == if 0 <= id < total then 1 else 0
    {
      assert (multiset(free) + multiset(ring) + multiset(held))[id] == all[id];
    }
    forall id
      ensures id in free <==> multiset(free)[id] > 0
      ensures id in ring <==> multiset(ring)[id] > 0
      ensures id in held <==> multiset(held)[id] > 0
    {}
    forall i, j | 0 <= i < j < |free|
      ensures free[i] != free[j]
    {
      if free[i] == free[j] { NoRepeats(free, i, j); }
    }
    forall i, j | 0 <= i < j < |ring|
      ensures ring[i] != ring[j]
    {
      if ring[i] == ring[j] { NoRepeats(ring, i, j); }
    }
  }

  /** The top of the free stack moves to the client. */
  lemma MoveFreeToHeld(total: nat, free: seq<nat>, ring: seq<nat>, held: set<nat>)
    requires Conserved(total, free, ring, held) && free != []
    ensures Conserved(total, free[..|free| - 1], ring, held + {free[|free| - 1]})
  {
    var id := free[|free| - 1];
    ExactlyOnePlace(total, free, ring, held);
    assert free == free[..|free| - 1] + [id];
    assert multiset(held + {id}) == multiset(held) + multiset{id};
  }

  /** A client buffer is pushed on the free stack. */
  lemma MoveHeldToFree(total: nat, free: seq<nat>, ring: seq<nat>, held: set<nat>, id: nat)
    requires Conserved(total, free, ring, held) && id in held
    ensures Conserved(total, free + [id], ring, held - {id})
  {
    assert multiset(held) == multiset(held - {id}) + multiset{id};
  }

  /** A client buffer is appended to the ring. */
  lemma MoveHeldToRing(total: nat, free: seq<nat>, ring: seq<nat>, held: set<nat>, id: nat)
    requires Conserved(total, free, ring, held) && id in held
    ensures Conserved(total, free, ring + [id], held - {id})
  {
    assert multiset(held) == multiset(held - {id}) + multiset{id};
  }

  /** The oldest buffer of the ring is pushed on the free stack. */
  lemma MoveRingToFree(total: nat, free: seq<nat>, ring: seq<nat>, held: set<nat>)
    requires Conserved(total, free, ring, held) && ring != []
    ensures Conserved(total, free + [ring[0]], ring[1..], held)
  {
    assert ring == [ring[0]] + ring[1..];
  }

  /** The oldest buffer of the ring goes to the client and the top of the free stack replaces it. */
  lemma ExchangeRingBuffer(total: nat, free: seq<nat>, ring: seq<nat>, held: set<nat>)
    requires Conserved(total, free, ring, held) && ring != [] && free != []
    ensures Conserved(total, free[..|free| - 1], ring[1..] + [free[|free| - 1]], held + {ring[0]})
  {
    var id := free[|free| - 1];
    ExactlyOnePlace(total, free, ring, held);
    assert ring == [ring[0]] + ring[1..];
    assert free == free[..|free| - 1] + [id];
    assert multiset(held + {ring[0]}) == multiset(held) + multiset{ring[0]};
  }

  // ---- The pool itself ----

  /** The memory of the pool holds, at the pointer of every id, that id and its physical address. */
  ghost predicate WellFormed(l: Layout, memory: map<nat, PktBuf>)
  {
    forall id :: 0 <= id < l.total ==>
      && l.Ptr(id) in memory
      && memory[l.Ptr(id)].mempoolIdx == id
      && memory[l.Ptr(id)].bufAddrPhy == l.virtToPhys(l.Ptr(id))
  }

  /** `mem` lists the contents of the buffers by id. */
  ghost predicate Holds(l: Layout, memory: map<nat, PktBuf>, mem: seq<Packet>)
  {
    && WellFormed(l, memory)
    && |mem| == l.total
    && forall id :: 0 <= id < l.total ==> memory[l.Ptr(id)].Contents() == mem[id]
  }

  /** Overwriting the size and bytes of one buffer changes that buffer only. */
  lemma HoldsAfterStore(l: Layout, memory: map<nat, PktBuf>, mem: seq<Packet>, id: nat, p: Packet)
    requires l.Good() && Holds(l, memory, mem) && id < l.total
    ensures l.Ptr(id) in memory && id < |mem| && memory[l.Ptr(id)].Contents() == mem[id]
    ensures var buf := memory[l.Ptr(id)].(size := p.size, data := p.data);
      WellFormed(l, memory[l.Ptr(id) := buf]) && Holds(l, memory[l.Ptr(id) := buf], mem[id := p])
  {
    forall j | 0 <= j < l.total
      ensures l.Ptr(j) == l.Ptr(id) <==> j == id
    {
      l.PtrInjective(j, id);
    }
  }

  /** The addresses a device transfer of `length` bytes touches in buffer `id`. */
  ghost predicate InTransfer(l: Layout, id: nat, length: nat, address: nat)
  {
    l.Ptr(id) + DATA_OFFSET <= address < l.Ptr(id) + DATA_OFFSET + length
  }

  ghost predicate InEntry(l: Layout, id: nat, address: nat)
  {
    l.Ptr(id) <= address < l.Ptr(id) + l.entrySize
  }

  /** A transfer reaches into some other entry exactly when it is longer than the room after the
      header of its own. */
  lemma TransferLeavesEntryIff(l: Layout, id: nat, length: nat)
    requires l.entrySize >= DATA_OFFSET
    ensures (exists j: nat, address: nat :: j != id && InTransfer(l, id, length, address) && InEntry(l, j, address))
            <==> DATA_OFFSET + length > l.entrySize
  {
    if DATA_OFFSET + length > l.entrySize {
      assert InTransfer(l, id, length, l.Ptr(id + 1)) && InEntry(l, id + 1, l.Ptr(id + 1));
    } else {
      forall j: nat, address: nat | j != id && InTransfer(l, id, length, address)
        ensures !InEntry(l, j, address)
      {
        if j < id { l.PtrDisjoint(j, id); } else { l.PtrDisjoint(id, j); }
      }
    }
  }

  /** `((uint8_t *)base_addr) + id * entry_size` */
  method EntryAt(l: Layout, id: nat) returns (buf: nat)
    ensures buf == l.Ptr(id)
  {
    l.PtrIsOffset(id);
    buf := l.base + id * l.entrySize;
  }

  function Identity(n: nat): seq<nat>
  {
    seq(n, i requires 0 <= i < n => i)
  }

  function Blank(n: nat, garbage: nat -> seq<byte>): seq<Packet>
  {
    seq(n, id requires 0 <= id < n => Packet(0, garbage(id)))
  }

  /** The state of the initialisation loop: the first `n` buffers are set up. */
  ghost predicate InitialisedTo(l: Layout, memory: map<nat, PktBuf>, garbage: nat -> seq<byte>, n: nat)
  {
    forall j :: 0 <= j < n ==>
      l.Ptr(j) in memory && memory[l.Ptr(j)] == PktBuf(l.virtToPhys(l.Ptr(j)), j, 0, garbage(j))
  }

  lemma InitialisedNone(l: Layout, memory: map<nat, PktBuf>, garbage: nat -> seq<byte>)
    ensures InitialisedTo(l, memory, garbage, 0)
  {}

  lemma InitialisedAll(l: Layout, memory: map<nat, PktBuf>, garbage: nat -> seq<byte>)
    requires InitialisedTo(l, memory, garbage, l.total)
    ensures WellFormed(l, memory) && Holds(l, memory, Blank(l.total, garbage))
    ensures forall j :: 0 <= j < l.total ==>
              l.Ptr(j) in memory && memory[l.Ptr(j)] == PktBuf(l.virtToPhys(l.Ptr(j)), j, 0, garbage(j))
  {}

  lemma InitialiseNext(l: Layout, memory: map<nat, PktBuf>, garbage: nat -> seq<byte>, n: nat)
    requires l.entrySize > 0 && InitialisedTo(l, memory, garbage, n)
    ensures InitialisedTo(l, memory[l.Ptr(n) := PktBuf(l.virtToPhys(l.Ptr(n)), n, 0, garbage(n))], garbage, n + 1)
  {
    forall j | 0 <= j < n
      ensures l.Ptr(j) != l.Ptr(n)
    {
      l.PtrInjective(j, n);
    }
  }

  /** The header of a buffer of the pool gives the bus address of its data. */
  lemma AddressInMemory(l: Layout, memory: map<nat, PktBuf>, id: nat)
    requires WellFormed(l, memory) && id < l.total
    ensures l.Ptr(id) in memory && memory[l.Ptr(id)].bufAddrPhy + DATA_OFFSET == l.DataAddr(id)
    ensures memory[l.Ptr(id)].mempoolIdx == id && memory[l.Ptr(id)].bufAddrPhy == l.virtToPhys(l.Ptr(id))
  {}

  lemma StoreKeepsWellFormed(l: Layout, memory: map<nat, PktBuf>, id: nat, buf: PktBuf)
    requires l.Good() && WellFormed(l, memory) && id < l.total
    requires buf.mempoolIdx == id && buf.bufAddrPhy == l.virtToPhys(l.Ptr(id))
    ensures WellFormed(l, memory[l.Ptr(id) := buf])
  {
    forall j | 0 <= j < l.total
      ensures l.Ptr(j) == l.Ptr(id) <==> j == id
    {
      l.PtrInjective(j, id);
    }
  }

  lemma {:induction false} IdentityIsAllIds(n: nat)
    ensures multiset(Identity(n)) == multiset(AllIds(n))
  {
    if n == 0 {
      assert Identity(0) == [];
    } else {
      IdentityIsAllIds(n - 1);
      AllIdsNext(n);
      assert Identity(n) == Identity(n - 1) + [n - 1];
    }
  }

  lemma BoundedBag(s: seq<nat>, total: nat)
    requires multiset(s) <= multiset(AllIds(total))
    ensures |s| <= total
  {
    var rest := multiset(AllIds(total)) - multiset(s);
    assert multiset(AllIds(total)) == multiset(s) + rest;
    assert |multiset(s) + rest| == |s| + |rest|;
  }

  lemma PushStaysBounded(s: seq<nat>, id: nat, total: nat)
    requires multiset(s) <= multiset(AllIds(total)) && id < total && id !in s
    ensures multiset(s + [id]) <= multiset(AllIds(total)) && |s| < total
  {
    var all := multiset(AllIds(total));
    forall j
      ensures multiset(s + [id])[j] <= all[j]
    {
      assert multiset(s)[j] <= all[j];
    }
    BoundedBag(s + [id], total);
  }

  lemma PoppedStaysBounded(s: seq<nat>, k: nat)
    requires k <= |s|
    ensures multiset(s[..k]) <= multiset(s)
  {
    assert s == s[..k] + s[k..];
  }

  class Pool {
    const layout: Layout
    const freeStack: array<nat>
    var freeStackTop: nat
    var memory: map<nat, PktBuf>

    /** The free ids, the next to be allocated last. */
    function Free(): seq<nat>
      requires freeStackTop <= freeStack.Length
      reads this, freeStack
    {
      freeStack[..freeStackTop]
    }

    ghost predicate Valid()
      reads this, freeStack
    {
      && layout.Good()
      && freeStack.Length == layout.total
      && freeStackTop <= layout.total
      && multiset(Free()) <= multiset(AllIds(layout.total))
      && WellFormed(layout, memory)
    }

    /** The pool is consistent and `stack` is its free stack. */
    ghost predicate HasFree(stack: seq<nat>)
      reads this, freeStack
    {
      Valid() && Free() == stack
    }

    lemma FreeIdsInRange()
      requires Valid()
      ensures forall i :: 0 <= i < freeStackTop ==> freeStack[i] < layout.total
    {
      forall i | 0 <= i < freeStackTop
        ensures freeStack[i] < layout.total
      {
        assert Free()[i] in multiset(Free());
        assert multiset(Free())[freeStack[i]] <= multiset(AllIds(layout.total))[freeStack[i]];
      }
    }

    /** `allocate_mempool_mem`: entry size 0 stands for 2048; all ids are free, the last one on
        top; every buffer knows its id and its physical address and has size 0. */
    constructor (numEntries: nat, entrySize: nat, base: nat, virtToPhys: nat -> nat, garbage: nat -> seq<byte>)
      requires Layout(base, if entrySize != 0 then entrySize else DEFAULT_ENTRY_SIZE, numEntries, virtToPhys).Good()
      ensures Valid() && fresh(freeStack)
      ensures layout == Layout(base, if entrySize != 0 then entrySize else DEFAULT_ENTRY_SIZE, numEntries, virtToPhys)
      ensures entrySize == 0 ==> layout.entrySize == 2048
      ensures Free() == Identity(numEntries) && |Free()| == numEntries
      ensures forall i :: 0 <= i < numEntries ==> Free()[i] == i
      ensures Holds(layout, memory, Blank(numEntries, garbage))
      ensures forall i :: 0 <= i < numEntries ==>
                && layout.Ptr(i) in memory
                && memory[layout.Ptr(i)] == PktBuf(layout.virtToPhys(layout.Ptr(i)), i, 0, garbage(i))
    {
      var size := if entrySize != 0 then entrySize else DEFAULT_ENTRY_SIZE;
      layout := Layout(base, size, numEntries, virtToPhys);
      freeStack := new nat[numEntries];
      freeStackTop := numEntries;
      memory := map[];
      new;
      InitialiseAll(garbage);
      assert Free() == Identity(numEntries);
      IdentityIsAllIds(numEntries);
    }

    /** The loop of `allocate_mempool_mem`. */
    method InitialiseAll(garbage: nat -> seq<byte>)
      requires layout.entrySize > 0 && freeStack.Length == layout.total
      modifies this`memory, freeStack
      ensures freeStack[..] == Identity(layout.total)
      ensures WellFormed(layout, memory) && Holds(layout, memory, Blank(layout.total, garbage))
      ensures forall i :: 0 <= i < layout.total ==>
                && layout.Ptr(i) in memory
                && memory[layout.Ptr(i)] == PktBuf(layout.virtToPhys(layout.Ptr(i)), i, 0, garbage(i))
    {
      hide InitialisedTo, Holds, WellFormed, Layout.Ptr;
      InitialisedNone(layout, memory, garbage);
      for i := 0 to layout.total
        invariant forall j :: 0 <= j < i ==> freeStack[j] == j
        invariant InitialisedTo(layout, memory, garbage, i)
      {
        freeStack[i] := i;
        var buf := EntryAt(layout, i);
        InitialiseNext(layout, memory, garbage, i);
        memory := memory[buf := PktBuf(layout.virtToPhys(buf), i, 0, garbage(i))];
      }
      InitialisedAll(layout, memory, garbage);
    }

    /** `alloc_pkt_buf_batch`: as many buffers as asked for and available, popped from the top. */
    method AllocPktBufBatch(buf: array<nat>, num: nat) returns (count: nat)
      requires Valid() && num <= buf.Length && buf != freeStack
      modifies this`freeStackTop, buf
      ensures Valid()
      ensures count == if old(|Free()|) < num then old(|Free()|) else num
      ensures Free() == old(Free())[..old(|Free()|) - count]
      ensures forall i :: 0 <= i < count ==> buf[i] == layout.Ptr(old(Free())[old(|Free()|) - 1 - i])
      ensures forall i :: count <= i < buf.Length ==> buf[i] == old(buf[i])
    {
      hide AllIds, WellFormed, Layout.Good, Layout.Ptr;
      count := num;
      if freeStackTop < num {
        count := freeStackTop;
      }
      ghost var stack, top := Free(), freeStackTop;
      FreeIdsInRange();
      for i := 0 to count
        invariant freeStackTop == top - i
        invariant forall j :: 0 <= j < i ==> buf[j] == layout.Ptr(stack[top - 1 - j])
        invariant forall j :: i <= j < buf.Length ==> buf[j] == old(buf[j])
      {
        freeStackTop := freeStackTop - 1;
        var entryId := freeStack[freeStackTop];
        buf[i] := EntryAt(layout, entryId);
      }
      assert Free() == stack[..freeStackTop];
      PoppedStaysBounded(stack, freeStackTop);
    }

    /** `alloc_pkt_buf`: the buffer on top of the stack, or NULL. */
    method AllocPktBuf() returns (pb: Option<nat>)
      requires Valid()
      modifies this`freeStackTop
      ensures Valid()
      ensures old(Free()) == [] ==> pb == None && Free() == []
      ensures old(Free()) != [] ==>
        && Free() == old(Free())[..old(|Free()|) - 1]
        && pb == Some(layout.Ptr(old(Free())[old(|Free()|) - 1]))
    {
      var one := new nat[1];
      var count := AllocPktBufBatch(one, 1);
      pb := if count == 1 then Some(one[0]) else None;
    }

    /** `pkt_buf_free` and `buf_free`: the id stored in the buffer is pushed back, and it is the id
        the pointer was allocated under. */
    method PktBufFree(buf: nat, ghost id: nat)
      requires Valid() && id < layout.total && buf == layout.Ptr(id)
      requires id !in Free()
      modifies this`freeStackTop, freeStack
      ensures Valid()
      ensures Free() == old(Free()) + [id]
    {
      hide AllIds, WellFormed, Layout.Good, Layout.Ptr;
      ghost var stack := Free();
      PushStaysBounded(stack, id, layout.total);
      AddressInMemory(layout, memory, id);
      freeStack[freeStackTop] := memory[buf].mempoolIdx;
      freeStackTop := freeStackTop + 1;
      assert Free() == stack + [id];
    }
  }

  /** One allocation hands out distinct buffers in pairwise disjoint regions. */
  lemma AllocatedBuffersDisjoint(total: nat, stack: seq<nat>, l: Layout, i: nat, j: nat)
    requires multiset(stack) <= multiset(AllIds(total)) && l.entrySize > 0
    requires i < |stack| && j < |stack| && i != j
    ensures var p, q := l.Ptr(stack[i]), l.Ptr(stack[j]); p + l.entrySize <= q || q + l.entrySize <= p
  {
    assert stack[i] != stack[j] by {
      if stack[i] == stack[j] {
        NoRepeats(stack, if i < j then i else j, if i < j then j else i);
      }
    }
    if stack[i] < stack[j] {
      l.PtrDisjoint(stack[i], stack[j]);
    } else {
      l.PtrDisjoint(stack[j], stack[i]);
    }
  }
}
