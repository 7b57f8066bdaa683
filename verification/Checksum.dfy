/** The header checksum written into every packet: RFC 1071, sections 1 and 2, as used for the
    IPv4 header checksum of RFC 791, section 3.1. */
module Checksum {
  import opened Descriptors
  import RingIndex

  /** The 16-bit words the host loads from memory (little-endian); an odd last byte is ignored. */
  function Words(data: seq<byte>): (ws: seq<nat>)
    ensures |ws| == |data| / 2
    ensures forall i :: 0 <= i < |ws| ==> ws[i] < 0x1_0000
  {
    seq(|data| / 2, i requires 0 <= i < |data| / 2 => data[2 * i] as int + 0x100 * data[2 * i + 1] as int)
  }

  lemma WordsAppend(a: seq<byte>, b: seq<byte>)
    requires |a| % 2 == 0
    ensures Words(a + b) == Words(a) + Words(b)
  {}

  /** The same words in network order. */
  function NetworkWords(data: seq<byte>): (ws: seq<nat>)
    ensures |ws| == |data| / 2
    ensures forall i :: 0 <= i < |ws| ==> ws[i] < 0x1_0000
  {
    seq(|data| / 2, i requires 0 <= i < |data| / 2 => 0x100 * data[2 * i] as int + data[2 * i + 1] as int)
  }

  function Sum(ws: seq<nat>): nat
  {
    if ws == [] then 0 else Sum(ws[..|ws| - 1]) + ws[|ws| - 1]
  }

  /** The representative of `s` modulo 65535 that is 0 only for 0. */
  function OnesComplement(s: nat): (r: nat)
    ensures r <= 0xFFFF
  {
    if s == 0 then 0 else (s - 1) % 0xFFFF + 1
  }

  /** The end-around-carry checksum of a byte string. */
  function ChecksumOf(data: seq<byte>): (r: nat)
    ensures r <= 0xFFFF
  {
    0xFFFF - OnesComplement(Sum(Words(data)))
  }

  /** A single word is its own sum; with SumAppend, that is what `Sum` is. */
  lemma SumOfOne(w: nat)
    ensures Sum([]) == 0 && Sum([w]) == w
  {
    assert [w][..0] == [];
  }

  /** The checksum of one word is its complement, except that 0 stands for itself. */
  lemma ChecksumOfOne(low: byte, high: byte)
    ensures ChecksumOf([]) == 0xFFFF
    ensures ChecksumOf([low, high]) == 0xFFFF - (low as int + 0x100 * high as int)
  {
    assert Words([]) == [] && Words([low, high]) == [low as int + 0x100 * high as int];
    SumOfOne(low as int + 0x100 * high as int);
  }

  lemma SumOfTwo(a: nat, b: nat)
    ensures Sum([a, b]) == a + b
  {
    SumOfOne(a);
    assert [a, b][..1] == [a];
  }

  lemma SumOfFour(a: nat, b: nat, c: nat, d: nat)
    ensures Sum([a, b, c, d]) == a + b + c + d
  {
    SumOfTwo(a, b);
    assert [a, b, c][..2] == [a, b] && [a, b, c, d][..3] == [a, b, c];
    assert Sum([a, b, c]) == a + b + c;
  }

  /** The worked example in section 3 of RFC 1071: eight bytes whose network-order words add up to
      0x2DDF0, folded 0xDDF2, and whose byte-swapped words give 0xF2DD. */
  lemma Rfc1071Example()
    ensures var data: seq<byte> := [0x00, 0x01, 0xF2, 0x03, 0xF4, 0xF5, 0xF6, 0xF7];
      && Sum(NetworkWords(data)) == 0x2_DDF0
      && 0xFFFF - OnesComplement(Sum(NetworkWords(data))) == 0x220D
      && OnesComplement(Sum(Words(data))) == 0xF2DD && ChecksumOf(data) == 0x0D22
  {
    var data: seq<byte> := [0x00, 0x01, 0xF2, 0x03, 0xF4, 0xF5, 0xF6, 0xF7];
    assert NetworkWords(data) == [0x0001, 0xF203, 0xF4F5, 0xF6F7];
    assert Words(data) == [0x0100, 0x03F2, 0xF5F4, 0xF7F6];
    SumOfFour(0x0001, 0xF203, 0xF4F5, 0xF6F7);
    SumOfFour(0x0100, 0x03F2, 0xF5F4, 0xF7F6);
  }

  /** One iteration of the accumulator: add, and fold a carry out of bit 15 back in. */
  function AddWithCarry(cs: nat, w: nat): nat
  {
    var t := cs + w;
    if t > 0xFFFF then t % 0x1_0000 + 1 else t
  }

  lemma CarryStep(s: nat, w: nat)
    requires w < 0x1_0000
    ensures AddWithCarry(OnesComplement(s), w) == OnesComplement(s + w)
  {}

  /** `calc_ip_checksum`: the accumulator stays within 16 bits and is the sum of the words so far
      in ones' complement arithmetic. */
  method CalcIpChecksum(data: seq<byte>, len: nat) returns (r: nat)
    requires len <= |data|
    ensures r == ChecksumOf(data[..len])
  {
    var ws := Words(data[..len]);
    var cs: nat := 0;
    for i := 0 to len / 2
      invariant cs == OnesComplement(Sum(ws[..i]))
    {
      var w: nat := data[2 * i] as int + 0x100 * data[2 * i + 1] as int;
      assert w == ws[i];
      assert ws[..i + 1][..i] == ws[..i];
      CarryStep(Sum(ws[..i]), w);
      cs := cs + w;
      if cs > 0xFFFF {
        cs := cs % 0x1_0000 + 1;
      }
    }
    assert ws[..len / 2] == ws;
    r := 0xFFFF - cs;
  }

  /** Adding the carries back once at the end, as in section 2 of RFC 1071. */
  function DeferredCarries(s: nat): nat
  {
    if s <= 0xFFFF then s else DeferredCarries(s % 0x1_0000 + s / 0x1_0000)
  }

  /** Folding the carries back takes away a multiple of 0xFFFF. */
  lemma FoldingAgrees(low: nat, carries: nat)
    requires low + carries > 0
    ensures OnesComplement(low + carries + 0xFFFF * carries) == OnesComplement(low + carries)
  {
    var x := low + carries - 1;
    RingIndex.QuotientAndRemainder(x + 0xFFFF * carries, 0xFFFF, x / 0xFFFF + carries, x % 0xFFFF);
  }

  lemma {:induction false} DeferredCarriesAgree(s: nat)
    ensures DeferredCarries(s) == OnesComplement(s)
  {
    if s > 0xFFFF {
      var carries, low := s / 0x1_0000, s % 0x1_0000;
      FoldingAgrees(low, carries);
      DeferredCarriesAgree(low + carries);
    }
  }

  lemma {:induction false} SumAppend(a: seq<nat>, b: seq<nat>)
    ensures Sum(a + b) == Sum(a) + Sum(b)
  {
    if b == [] {
      assert a + b == a;
    } else {
      SumAppend(a, b[..|b| - 1]);
      assert (a + b)[..|a + b| - 1] == a + b[..|b| - 1];
    }
  }

  lemma {:induction false} SumOfPermutation(a: seq<nat>, b: seq<nat>)
    requires multiset(a) == multiset(b)
    ensures Sum(a) == Sum(b)
  {
    if a == [] {
      assert |multiset(b)| == 0;
    } else {
      var last := a[|a| - 1];
      assert a == a[..|a| - 1] + [last];
      assert last in multiset(b);
      var i :| 0 <= i < |b| && b[i] == last;
      assert b == b[..i] + [last] + b[i + 1..];
      assert multiset(a[..|a| - 1]) == multiset(a) - multiset{last};
      assert multiset(b[..i] + b[i + 1..]) == multiset(b) - multiset{last};
      SumOfPermutation(a[..|a| - 1], b[..i] + b[i + 1..]);
      SumAppend(b[..i], b[i + 1..]);
      SumAppend(b[..i] + [last], b[i + 1..]);
      SumAppend(b[..i], [last]);
      assert Sum([last]) == last;
    }
  }

  /** The checksum does not depend on the order of the words. */
  lemma OrderIndependent(a: seq<byte>, b: seq<byte>)
    requires multiset(Words(a)) == multiset(Words(b))
    ensures ChecksumOf(a) == ChecksumOf(b)
  {
    SumOfPermutation(Words(a), Words(b));
  }

  // ---- Storing the checksum ----

  /** A little-endian 16-bit store. */
  function StoreWord(data: seq<byte>, offset: nat, v: nat): (r: seq<byte>)
    requires offset + 2 <= |data| && v < 0x1_0000
    ensures |r| == |data|
  {
    data[offset := v % 0x100][offset + 1 := v / 0x100]
  }

  lemma SumOfStore(data: seq<byte>, offset: nat, v: nat)
    requires offset % 2 == 0 && offset + 2 <= |data| && v < 0x1_0000
    requires data[offset] == 0 && data[offset + 1] == 0
    ensures Sum(Words(StoreWord(data, offset, v))) == Sum(Words(data)) + v
  {
    var ws, ws' := Words(data), Words(StoreWord(data, offset, v));
    var k := offset / 2;
    assert ws == ws[..k] + [0] + ws[k + 1..];
    assert ws' == ws[..k] + [v] + ws[k + 1..];
    forall x: nat
      ensures Sum(ws[..k] + [x] + ws[k + 1..]) == Sum(ws[..k]) + x + Sum(ws[k + 1..])
    {
      SumAppend(ws[..k] + [x], ws[k + 1..]);
      SumAppend(ws[..k], [x]);
      assert Sum([x]) == x;
    }
  }

  lemma ComplementCancelsIff(s: nat, v: nat)
    requires v < 0x1_0000
    ensures var c := 0xFFFF - OnesComplement(s);
      OnesComplement(s + v) == 0xFFFF <==> v == c || (c == 0 && v == 0xFFFF)
  {
    if s > 0 {
      var q, r := (s - 1) / 0xFFFF, (s - 1) % 0xFFFF;
      assert s - 1 == 0xFFFF * q + r;
      assert (s + v - 1) % 0xFFFF == (r + v) % 0xFFFF;
    }
  }

  /** Exactly which stored words make a header verify: the computed checksum, and 0xFFFF where
      the checksum is 0 (the other ones' complement zero). */
  lemma VerifiesIff(header: seq<byte>, offset: nat, v: nat)
    requires offset % 2 == 0 && offset + 2 <= |header| && v < 0x1_0000
    requires header[offset] == 0 && header[offset + 1] == 0
    ensures ChecksumOf(StoreWord(header, offset, v)) == 0
            <==> v == ChecksumOf(header) || (ChecksumOf(header) == 0 && v == 0xFFFF)
  {
    SumOfStore(header, offset, v);
    ComplementCancelsIff(Sum(Words(header)), v);
  }

  /** Storing the computed checksum over its zeroed field makes the header verify. */
  lemma StoredChecksumVerifies(header: seq<byte>, offset: nat)
    requires offset % 2 == 0 && offset + 2 <= |header|
    requires header[offset] == 0 && header[offset + 1] == 0
    ensures ChecksumOf(StoreWord(header, offset, ChecksumOf(header))) == 0
  {
    VerifiesIff(header, offset, ChecksumOf(header));
  }

  // ---- Byte order ----

  function Swap(w: nat): nat
  {
    (w % 0x100) * 0x100 + w / 0x100
  }

  lemma SwapOfBytes(lo: byte, hi: byte)
    ensures Swap(lo as int + 0x100 * hi as int) == 0x100 * lo as int + hi as int
  {}

  lemma SwapIsMultiple(w: nat)
    requires w < 0x1_0000
    ensures Swap(w) == 0x100 * w - 0xFFFF * (w / 0x100)
    ensures Swap(w) < 0x1_0000 && (Swap(w) == 0 <==> w == 0)
  {}

  lemma MultipleWithinRange(d: int, x: int, y: int)
    requires x - y == 0xFFFF * d && 0 <= x <= 0xFFFF && 0 <= y <= 0xFFFF && (x == 0 <==> y == 0)
    ensures x == y
  {}

  lemma CarryIsMultiple(c: nat, w: nat) returns (e: nat)
    requires c < 0x1_0000 && w < 0x1_0000
    ensures AddWithCarry(c, w) == c + w - 0xFFFF * e
    ensures AddWithCarry(c, w) < 0x1_0000 && (AddWithCarry(c, w) == 0 <==> c == 0 && w == 0)
  {
    e := if c + w > 0xFFFF then 1 else 0;
  }

  /** Ones' complement addition commutes with exchanging the two bytes of both operands. */
  lemma SwapCarry(c: nat, w: nat)
    requires c < 0x1_0000 && w < 0x1_0000
    ensures AddWithCarry(Swap(c), Swap(w)) == Swap(AddWithCarry(c, w))
  {
    hide AddWithCarry, Swap;
    var r, q := AddWithCarry(c, w), AddWithCarry(Swap(c), Swap(w));
    SwapIsMultiple(c);
    SwapIsMultiple(w);
    var e := CarryIsMultiple(c, w);
    var f := CarryIsMultiple(Swap(c), Swap(w));
    SwapIsMultiple(r);
    MultipleWithinRange(r / 0x100 + 0x100 * e - c / 0x100 - w / 0x100 - f, q, Swap(r));
  }

  lemma SwapStep(s: nat, t: nat, w: nat)
    requires w < 0x1_0000
    requires OnesComplement(t) == Swap(OnesComplement(s))
    ensures OnesComplement(t + Swap(w)) == Swap(OnesComplement(s + w))
  {
    CarryStep(s, w);
    SwapIsMultiple(w);
    CarryStep(t, Swap(w));
    SwapCarry(OnesComplement(s), w);
  }

  lemma {:induction false} SwappedSum(a: seq<nat>, b: seq<nat>)
    requires |a| == |b| && forall i :: 0 <= i < |a| ==> a[i] < 0x1_0000 && b[i] == Swap(a[i])
    ensures OnesComplement(Sum(b)) == Swap(OnesComplement(Sum(a)))
  {
    if a != [] {
      var n := |a| - 1;
      SwappedSum(a[..n], b[..n]);
      SwapStep(Sum(a[..n]), Sum(b[..n]), a[n]);
    }
  }

  lemma ByteParts(high: byte, low: byte)
    ensures var w := 0x100 * high as int + low as int; w / 0x100 == high as int && w % 0x100 == low as int
  {}

  lemma BytesOfComplement(x: nat)
    requires x < 0x1_0000
    ensures var c, net := 0xFFFF - x, 0xFFFF - Swap(x);
      0 <= net && c % 0x100 == net / 0x100 && c / 0x100 == net % 0x100
  {
    var lo, hi := x % 0x100, x / 0x100;
    ByteParts(0xFF - hi, 0xFF - lo);
    ByteParts(0xFF - lo, 0xFF - hi);
  }

  lemma WordsAreSwapped(data: seq<byte>)
    ensures forall i :: 0 <= i < |data| / 2 ==> NetworkWords(data)[i] == Swap(Words(data)[i])
  {
    forall i | 0 <= i < |data| / 2
      ensures NetworkWords(data)[i] == Swap(Words(data)[i])
    {
      SwapOfBytes(data[2 * i], data[2 * i + 1]);
    }
  }

  /** Loading and storing words little-endian leaves the same two bytes in the header as loading
      and storing them in network order. */
  lemma ByteOrderIndependent(data: seq<byte>)
    ensures var c, net := ChecksumOf(data), 0xFFFF - OnesComplement(Sum(NetworkWords(data)));
      c % 0x100 == net / 0x100 && c / 0x100 == net % 0x100
  {
    hide OnesComplement, Sum, Words, NetworkWords, Swap;
    WordsAreSwapped(data);
    SwappedSum(Words(data), NetworkWords(data));
    BytesOfComplement(OnesComplement(Sum(Words(data))));
  }
}
