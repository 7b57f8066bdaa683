/** Ring indices: the `wrap_ring` macro, the clean/transmit distance arithmetic, and the
    unbounded packet counters that ring slots stand for. */
module RingIndex {

  // ---- Slots of unbounded packet counters ----

  /** The ring slot of the `k`-th packet: `k` reduced modulo `n`, by repeated subtraction. */
  function Slot(k: nat, n: nat): (r: nat)
    requires n > 0
    ensures r < n
  {
    if k < n then k else Slot(k - n, n)
  }

  lemma MultipleBound(e: int, d: int)
    requires d > 0
    ensures e >= 1 ==> e * d >= d
    ensures e <= -1 ==> e * d <= -d
  {}

  lemma QuotientAndRemainder(x: nat, d: nat, q: nat, r: nat)
    requires d > 0 && r < d && x == q * d + r
    ensures x % d == r && x / d == q
  {
    var e := x / d - q;
    assert x == (x / d) * d + x % d;
    assert e * d == r - x % d;
    MultipleBound(e, d);
  }

  lemma {:induction false} SlotIsMod(k: nat, n: nat)
    requires n > 0
    ensures Slot(k, n) == k % n
  {
    if k >= n {
      SlotIsMod(k - n, n);
      var q := (k - n) / n;
      assert k == (q + 1) * n + (k - n) % n;
      QuotientAndRemainder(k, n, q + 1, (k - n) % n);
    } else {
      QuotientAndRemainder(k, n, 0, k);
    }
  }

  lemma {:induction false} DoubleSlot(y: nat, bit: nat, h: nat)
    requires h > 0 && bit < 2
    ensures Slot(2 * y + bit, 2 * h) == 2 * Slot(y, h) + bit
  {
    if y >= h {
      DoubleSlot(y - h, bit, h);
    }
  }

  lemma SlotIsItselfIff(k: nat, n: nat)
    requires n > 0
    ensures Slot(k, n) == k <==> k < n
  {}

  /** Advancing by at most one lap is an addition followed by one conditional subtraction. */
  lemma {:induction false} SlotAdd(k: nat, j: nat, n: nat)
    requires n > 0 && j <= n
    ensures Slot(k + j, n) == if Slot(k, n) + j < n then Slot(k, n) + j else Slot(k, n) + j - n
  {
    if k >= n {
      SlotAdd(k - n, j, n);
    }
  }

  /** Two packets less than a lap apart share a slot only if they are the same packet. */
  lemma SlotInjective(a: nat, b: nat, n: nat)
    requires n > 0 && a < b + n && b < a + n
    ensures Slot(a, n) == Slot(b, n) <==> a == b
  {
    if a <= b { SlotAdd(a, b - a, n); } else { SlotAdd(b, a - b, n); }
  }

  // ---- The bitwise form used by the driver ----

  /** C's `&` on two non-negative integers, bit by bit. */
  function BitAnd(a: nat, b: nat): (r: nat)
    ensures r <= a && r <= b
  {
    if a == 0 || b == 0 then 0
    else (if a % 2 == 1 && b % 2 == 1 then 1 else 0) + 2 * BitAnd(a / 2, b / 2)
  }

  /** Bit `k` of a number. */
  predicate Bit(x: nat, k: nat)
  {
    if k == 0 then x % 2 == 1 else Bit(x / 2, k - 1)
  }

  lemma {:induction false} ZeroHasNoBits(k: nat)
    ensures !Bit(0, k)
  {
    if k > 0 {
      ZeroHasNoBits(k - 1);
    }
  }

  /** A bit is set in the result exactly when it is set in both operands. */
  lemma {:induction false} BitAndIsBitwise(a: nat, b: nat, k: nat)
    ensures Bit(BitAnd(a, b), k) <==> Bit(a, k) && Bit(b, k)
  {
    if a == 0 || b == 0 {
      ZeroHasNoBits(k);
    } else if k > 0 {
      BitAndIsBitwise(a / 2, b / 2, k - 1);
    }
  }

  /** `(uint16_t)((index + 1) & (ring_size - 1))`. */
  function WrapRing(index: nat, ringSize: nat): nat
    requires ringSize >= 1
  {
    BitAnd(index + 1, ringSize - 1) % 0x1_0000
  }

  predicate IsPowerOfTwo(n: nat)
  {
    n == 1 || (n > 0 && n % 2 == 0 && IsPowerOfTwo(n / 2))
  }

  lemma PowerIsPositive(n: nat)
    requires IsPowerOfTwo(n)
    ensures n > 0
  {}

  /** For a power of two, masking with `n - 1` gives the ring slot. */
  lemma {:induction false} MaskIsSlot(x: nat, n: nat)
    requires IsPowerOfTwo(n)
    ensures BitAnd(x, n - 1) == Slot(x, n)
    decreases n
  {
    if n == 1 {
      SlotIsMod(x, 1);
    } else {
      MaskIsSlot(x / 2, n / 2);
      DoubleSlot(x / 2, x % 2, n / 2);
      assert (n - 1) / 2 == n / 2 - 1 && (n - 1) % 2 == 1;
    }
  }

  /** When `m + 1` is not a power of two, some number up to `m` loses a bit under the mask `m`. */
  lemma {:induction false} MaskLosesABit(m: nat) returns (x: nat)
    requires !IsPowerOfTwo(m + 1)
    ensures 0 < x <= m && BitAnd(x, m) != x
  {
    if m % 2 == 0 {
      x := 1;
      assert BitAnd(0, m / 2) == 0;
    } else {
      var y := MaskLosesABit(m / 2);
      x := 2 * y;
    }
  }

  /** The cyclic successor of a ring index; this is also how the device advances its pointers. */
  function Successor(i: nat, n: nat): nat
  {
    if i + 1 == n then 0 else i + 1
  }

  lemma WrapOnPowerOfTwo(i: nat, n: nat)
    requires IsPowerOfTwo(n) && n <= 0x1_0000 && i < n
    ensures WrapRing(i, n) == Successor(i, n)
  {
    hide BitAnd, IsPowerOfTwo;
    MaskIsSlot(i + 1, n);
  }

  lemma WrapFailsOffPowerOfTwo(n: nat) returns (i: nat)
    requires n >= 1 && !IsPowerOfTwo(n)
    ensures i < n && WrapRing(i, n) != Successor(i, n)
  {
    hide BitAnd, Slot, IsPowerOfTwo;
    var x := MaskLosesABit(n - 1);
    i := x - 1;
  }

  /** The cast to 16 bits loses the index 65536 of a larger ring. */
  lemma WrapFailsAbove16Bits(n: nat)
    requires IsPowerOfTwo(n) && n > 0x1_0000
    ensures WrapRing(0xFFFF, n) == 0 && Successor(0xFFFF, n) == 0x1_0000
  {
    hide BitAnd, IsPowerOfTwo;
    MaskIsSlot(0x1_0000, n);
  }

  /** `wrap_ring` steps to the cyclic successor for every index of the ring exactly when the
      ring size is a power of two of at most 16 bits of index. */
  lemma WrapIsSuccessorIff(n: nat)
    requires n >= 1
    ensures (forall i :: 0 <= i < n ==> WrapRing(i, n) == Successor(i, n)) <==> IsPowerOfTwo(n) && n <= 0x1_0000
  {
    if !IsPowerOfTwo(n) {
      var i := WrapFailsOffPowerOfTwo(n);
    } else if n > 0x1_0000 {
      WrapFailsAbove16Bits(n);
    } else {
      forall i | 0 <= i < n
        ensures WrapRing(i, n) == Successor(i, n)
      {
        WrapOnPowerOfTwo(i, n);
      }
    }
  }

  /** The receive ring size in the source, 1012, is a failing instance: index 3 goes to 0. */
  lemma Wrap1012Fails()
    ensures !IsPowerOfTwo(1012)
    ensures WrapRing(3, 1012) == 0
  {
    assert BitAnd(1, 252) == 0;
    assert BitAnd(2, 505) == 0;
    assert BitAnd(4, 1011) == 0;
    assert !IsPowerOfTwo(253) && !IsPowerOfTwo(506);
  }

  /** `wrap_ring` follows the packet counter. */
  lemma WrapSlot(k: nat, n: nat)
    requires IsPowerOfTwo(n) && n <= 0x1_0000
    ensures WrapRing(Slot(k, n), n) == Slot(k + 1, n)
  {
    hide BitAnd, IsPowerOfTwo;
    PowerIsPositive(n);
    MaskIsSlot(Slot(k, n) + 1, n);
    SlotAdd(k, 1, n);
  }

  /** `j` steps of `wrap_ring`. */
  function Wraps(i: nat, j: nat, n: nat): nat
    requires n >= 1
  {
    if j == 0 then i else WrapRing(Wraps(i, j - 1, n), n)
  }

  lemma {:induction false} WrapsFollowSlots(k: nat, j: nat, n: nat)
    requires IsPowerOfTwo(n) && n <= 0x1_0000
    ensures Wraps(Slot(k, n), j, n) == Slot(k + j, n)
  {
    hide BitAnd, Slot, WrapRing;
    if j > 0 {
      WrapsFollowSlots(k, j - 1, n);
      WrapSlot(k + j - 1, n);
    }
  }

  /** Starting anywhere on a power-of-two ring, `wrap_ring` meets every slot exactly once in `n`
      steps and is then back where it started. */
  lemma WrapVisitsEverySlotOnce(i: nat, t: nat, n: nat)
    requires IsPowerOfTwo(n) && n <= 0x1_0000 && i < n && t < n
    ensures exists j :: 0 <= j < n && Wraps(i, j, n) == t
    ensures forall j, k :: 0 <= j < n && 0 <= k < n && Wraps(i, j, n) == t && Wraps(i, k, n) == t ==> j == k
    ensures Wraps(i, n, n) == i
  {
    var steps := if t >= i then t - i else t + n - i;
    SlotAdd(i, steps, n);
    WrapsFollowSlots(i, steps, n);
    assert Wraps(i, steps, n) == t;
    forall j, k | 0 <= j < n && 0 <= k < n && Wraps(i, j, n) == t && Wraps(i, k, n) == t
      ensures j == k
    {
      WrapsFollowSlots(i, j, n);
      WrapsFollowSlots(i, k, n);
      SlotInjective(i + j, i + k, n);
    }
    WrapsFollowSlots(i, n, n);
    SlotAdd(i, n, n);
  }

  lemma NextSlot(k: nat, n: nat)
    requires n > 0
    ensures Successor(Slot(k, n), n) == Slot(k + 1, n)
  {
    SlotAdd(k, 1, n);
  }

  // ---- The distance arithmetic of the clean loop ----

  /** `tx_index - clean_index`, with the ring size added when it is negative. */
  function Cleanable(txIndex: nat, cleanIndex: nat, n: nat): int
  {
    var d := txIndex - cleanIndex;
    if d < 0 then n + d else d
  }

  /** `clean_index + batch - 1`, with the ring size subtracted when it passes the end. */
  function CleanupTo(cleanIndex: nat, batch: nat, n: nat): int
  {
    var c := cleanIndex + batch - 1;
    if c >= n then c - n else c
  }

  /** The sign fix recovers the number of packets between the two counters. */
  lemma CleanableIsDistance(cleaned: nat, enqueued: nat, n: nat)
    requires n > 0 && cleaned <= enqueued < cleaned + n
    ensures Cleanable(Slot(enqueued, n), Slot(cleaned, n), n) == enqueued - cleaned
  {
    SlotAdd(cleaned, enqueued - cleaned, n);
  }

  /** In general it recovers that number less whole laps. */
  lemma {:induction false} CleanableLosesLaps(cleaned: nat, distance: nat, n: nat)
    requires n > 0
    ensures Cleanable(Slot(cleaned + distance, n), Slot(cleaned, n), n) == Slot(distance, n)
  {
    if distance < n {
      CleanableIsDistance(cleaned, cleaned + distance, n);
    } else {
      CleanableLosesLaps(cleaned, distance - n, n);
      SlotAdd(cleaned + distance - n, n, n);
    }
  }

  /** The conditional subtraction lands on the slot of the last packet of the batch. */
  lemma CleanupToIsLastOfBatch(cleaned: nat, batch: nat, n: nat)
    requires 1 <= batch <= n
    ensures CleanupTo(Slot(cleaned, n), batch, n) == Slot(cleaned + batch - 1, n)
  {
    SlotAdd(cleaned, batch - 1, n);
  }
}
