/** The two advanced descriptor unions.  Each is kept as raw words with one accessor per field, so
    that a field written in the `read` view is seen through every field of the `wb` view that
    shares its bits. */
module Descriptors {

  type byte = x: int | 0 <= x < 0x100

  /** What a buffer holds: its length field and its bytes. */
  datatype Packet = Packet(size: bv32, data: seq<byte>)

  // ---- Transmit ----

  const STAT_DD: bv32 := 0x0000_0001
  const DTYP_DATA: bv32 := 0x0030_0000
  const DCMD_EOP: bv32 := 0x0100_0000
  const DCMD_IFCS: bv32 := 0x0200_0000
  const DCMD_RS: bv32 := 0x0800_0000
  const DCMD_DEXT: bv32 := 0x2000_0000
  const DTALEN_MASK: bv32 := 0x0000_FFFF

  datatype TxDesc = TxDesc(word0: nat, word1: bv32, word2: bv32) {
    function BufferAddr(): nat { word0 }      // read.buffer_addr, wb.rsvd
    function CmdTypeLen(): bv32 { word1 }     // read.cmd_type_len, wb.nxtseq_seed
    function OlinfoStatus(): bv32 { word2 }   // read.olinfo_status
    function Status(): bv32 { word2 }         // wb.status

    /** `status & IXGBE_ADVTXD_STAT_DD` */
    predicate Done() { Status() & STAT_DD != 0 }

    /** The device writes a descriptor back only when the report-status flag asks for it. */
    predicate ReportsStatus() { CmdTypeLen() & DCMD_RS != 0 }

    /** The data length the device reads, IXGBE_ADVTXD_DTALEN_MASK. */
    function DataLength(): bv32 { CmdTypeLen() & DTALEN_MASK }
  }

  /** The three stores of the transmit loop: with report-status in the flags, as in `tx_batch`, or
      without it, as in `DCMD_DTYPE_FLAGS`. */
  function TxData(addr: nat, size: bv32, report: bool): TxDesc
  {
    TxDesc(addr, (if report then DCMD_RS else 0) | DCMD_EOP | DCMD_IFCS | DCMD_DEXT | DTYP_DATA | size, size << 14)
  }

  /** Such a descriptor asks for a report: by its flags, or by a size that reaches into them. */
  predicate Reporting(report: bool, size: bv32)
  {
    report || size & DCMD_RS != 0
  }

  /** A device write-back: it sets the done bit and may leave anything in the rest. */
  function TxWriteBack(rsvd: nat, seed: bv32, status: bv32): TxDesc
  {
    TxDesc(rsvd, seed, status | STAT_DD)
  }

  /** `memset(..., -1, ...)` */
  const TX_ONES := TxDesc(0xFFFF_FFFF_FFFF_FFFF, 0xFFFF_FFFF, 0xFFFF_FFFF)

  function Bytes(length: bv32): nat
  {
    length as nat
  }

  predicate Within(length: bv32, data: seq<byte>)
  {
    Bytes(length) <= |data|
  }

  /** The length the device will read lies within the bytes of the buffer. */
  predicate Fits(p: Packet)
  {
    Within(p.size & DTALEN_MASK, p.data)
  }

  /** What the device sends: the first `length` bytes of a buffer. */
  function Sent(length: bv32, data: seq<byte>): Packet
    requires Within(length, data)
  {
    Packet(length, data[..Bytes(length)])
  }

  /** What it sends for a buffer with these contents. */
  function OnWire(p: Packet): Packet
    requires Fits(p)
  {
    Sent(p.size & DTALEN_MASK, p.data)
  }

  /** An advanced data descriptor (0x2030_0000) that ends its packet (0x0100_0000), gets a frame check
      sequence (0x0200_0000), may ask for a report (0x0800_0000) and carries the length, which is also
      the payload length from bit 14 of the last word. */
  ghost function TxWords(addr: nat, size: bv32, report: bool): TxDesc
  {
    TxDesc(addr, if report then 0x2B30_0000 | size else 0x2330_0000 | size, size << 14)
  }

  /** The words written for a packet, in numbers. */
  lemma TxDataWords(addr: nat, size: bv32, report: bool)
    ensures TxData(addr, size, report) == TxWords(addr, size, report)
    ensures TxData(addr, 1210, true) == TxDesc(addr, 0x2B30_04BA, 0x012E_8000)
    ensures TX_ONES == TxDesc(0xFFFF_FFFF_FFFF_FFFF, 0xFFFF_FFFF, 0xFFFF_FFFF)
  {}

  /** Which bits of the words the fields are. */
  lemma TxLayout(d: TxDesc)
    ensures d.BufferAddr() == d.word0 && d.CmdTypeLen() == d.word1 && d.OlinfoStatus() == d.Status() == d.word2
    ensures d.Done() <==> d.word2 & 0x1 == 0x1
    ensures d.ReportsStatus() <==> d.word1 & 0x0800_0000 == 0x0800_0000
    ensures d.DataLength() == d.word1 & 0xFFFF
  {}

  /** `sent` is the first bytes of a buffer with these contents, as many as the low 16 bits of its
      length say. */
  ghost predicate Transmits(p: Packet, sent: Packet)
  {
    && sent.size == p.size & 0xFFFF
    && |sent.data| == sent.size as nat <= |p.data|
    && sent.data == p.data[..|sent.data|]
  }

  lemma OnWireTransmits(p: Packet)
    requires Fits(p)
    ensures Transmits(p, OnWire(p))
    ensures p.size <= 0xFFFF ==> OnWire(p).size == p.size
  {}

  /** Whatever was in the slot before, a freshly written descriptor reads as not done, carries the
      length, and asks for a status report exactly when flags or size say so; and the memset pattern,
      like a write-back, reads as done. */
  lemma TxFreshness(addr: nat, size: bv32, report: bool, rsvd: nat, seed: bv32, status: bv32)
    ensures TxData(addr, size, report).OlinfoStatus() == TxData(addr, size, report).Status() == size << 14
    ensures !TxData(addr, size, report).Done() && TxData(addr, size, report).BufferAddr() == addr
    ensures TxData(addr, size, report).ReportsStatus() <==> Reporting(report, size)
    ensures TxData(addr, size, report).DataLength() == size & DTALEN_MASK
    ensures TxWriteBack(rsvd, seed, status).Done()
    ensures TX_ONES.Done()
  {}

  /** Without the flag the device will report a descriptor only when the size itself happens to set
      that bit, which no size below 2^27 does. */
  lemma NoReportIff(addr: nat, size: bv32)
    ensures !TxData(addr, size, false).Done()
    ensures TxData(addr, size, false).ReportsStatus() <==> size & 0x0800_0000 != 0
    ensures size < 0x0800_0000 ==> !Reporting(false, size)
  {}

  // ---- Receive ----

  datatype RxDesc = RxDesc(word0: nat, word1: bv64) {
    function PktAddr(): nat { word0 }                              // read.pkt_addr, wb.lower
    function HdrAddr(): bv64 { word1 }                             // read.hdr_addr
    function StatusError(): bv64 { word1 & 0xFFFF_FFFF }           // wb.upper.status_error
    function Length(): bv32 { ((word1 >> 32) & 0xFFFF) as bv32 }   // wb.upper.length

    predicate Done() { StatusError() & 0x1 != 0 }
    predicate EndOfPacket() { StatusError() & 0x2 != 0 }
  }

  /** `read.pkt_addr = addr; read.hdr_addr = 0` */
  function RxEmpty(addr: nat): RxDesc
  {
    RxDesc(addr, 0)
  }

  /** A device write-back of a one-descriptor packet: DD and EOP set, the packet length, and
      anything in the remaining status bits, the VLAN tag and the lower quadword. */
  function RxWriteBack(lower: nat, status: bv32, length: bv16, vlan: bv16): RxDesc
  {
    RxDesc(lower, (status as bv64) | 0x3 | ((length as bv64) << 32) | ((vlan as bv64) << 48))
  }

  const RX_ONES := RxDesc(0xFFFF_FFFF_FFFF_FFFF, 0xFFFF_FFFF_FFFF_FFFF)

  /** Writing `hdr_addr = 0` clears the aliased status word; a write-back sets both flags and keeps
      the length intact between its neighbours; the memset pattern reads as done. */
  lemma RxFreshness(addr: nat, lower: nat, status: bv32, length: bv16, vlan: bv16)
    ensures RxEmpty(addr) == RxDesc(addr, 0)
    ensures RxEmpty(addr).PktAddr() == addr && RxEmpty(addr).HdrAddr() == 0 && !RxEmpty(addr).Done()
    ensures RxWriteBack(lower, status, length, vlan).Done()
    ensures RxWriteBack(lower, status, length, vlan).EndOfPacket()
    ensures RxWriteBack(lower, status, length, vlan).Length() == length as bv32
    ensures RX_ONES.Done()
  {}

  /** Which bits of the words the address and the flags are. */
  lemma RxLayout(d: RxDesc)
    ensures d.PktAddr() == d.word0 && d.HdrAddr() == d.word1
    ensures d.Done() <==> d.word1 & 0x1 == 0x1
    ensures d.EndOfPacket() <==> d.word1 & 0x2 == 0x2
  {}

  /** Of the second word the low 32 bits are status, then come 16 of length and 16 of VLAN tag: for
      instance, a 1500-byte packet with tag 7. */
  lemma RxExample()
    ensures RxWriteBack(0, 0x20, 1500, 7) == RxDesc(0, 0x0007_05DC_0000_0023)
    ensures RxDesc(0, 0x0007_05DC_0000_0023).Length() == 1500
  {
    RxFreshness(0, 0, 0x20, 1500, 7);
  }
}
