/**
 * The bit layouts declared by the pass-through interrupt header: the 64-bit
 * source identity (an MSI function/entry pair or an INTx controller/pin pair
 * overlaid on one word), the MSI address register in its compatibility and
 * remappable views, and the MSI data register; and the mapping record
 * (struct ptintr) built from them.
 */
module PtintrHdr {
  import opened Types

  const PTDEV_INTR_MSI: u32 := 1
  const PTDEV_INTR_INTX: u32 := 2
  const INVALID_PTDEV_ENTRY_ID: nat := 0xffff

  const INTX_CTLR_IOAPIC: u32 := 0
  const INTX_CTLR_PIC: u32 := 1

  // ---------------------------------------------------------------- source id

  // The identity is a 64-bit word, held as a number below 2^64; each field
  // is a group of its binary digits.

  function MsiBdf(sid: u64): u16 { sid % 0x1_0000 }
  function MsiEntryNr(sid: u64): u16 { (sid / 0x1_0000) % 0x1_0000 }
  function IntxCtlr(sid: u64): u32 { sid % 0x1_0000_0000 }
  function IntxGsi(sid: u64): u32 { sid / 0x1_0000_0000 }

  /**
   * DEFINE_MSI_SID: the function number in the low half-word, the MSI-X
   * entry number (cut to its 16-bit field) above it, the reserved upper
   * word zero.
   */
  function MsiSid(bdf: u16, entryNr: u32): (sid: u64)
    ensures MsiBdf(sid) == bdf
    ensures MsiEntryNr(sid) == entryNr % 0x1_0000
    ensures sid < 0x1_0000_0000
  {
    (entryNr % 0x1_0000) * 0x1_0000 + bdf
  }

  /** DEFINE_INTX_SID: the controller in the low word, the pin above it. */
  function IntxSid(gsi: u32, ctlr: u32): (sid: u64)
    ensures IntxGsi(sid) == gsi && IntxCtlr(sid) == ctlr
  {
    gsi * 0x1_0000_0000 + ctlr
  }

  /** Every INTx identity is the encoding of its own two fields. */
  lemma IntxSidRoundTrip(sid: u64)
    ensures IntxSid(IntxGsi(sid), IntxCtlr(sid)) == sid
  {
  }

  /** An identity whose reserved word is zero is the encoding of its MSI fields. */
  lemma MsiSidRoundTrip(sid: u64)
    requires sid < 0x1_0000_0000
    ensures MsiSid(MsiBdf(sid), MsiEntryNr(sid)) == sid
  {
  }

  /**
   * The two views share one word, so an MSI identity and an INTx identity
   * can be the same value: lookups must also compare the interrupt kind.
   */
  lemma SourceIdViewsOverlap()
    ensures MsiSid(0, 0) == IntxSid(0, INTX_CTLR_IOAPIC)
  {
  }

  // ------------------------------------------------------- MSI address register

  const MSI_ADDR_BASE: bv64 := 0xfee
  const MSI_ADDR_RH: bv64 := 1
  const MSI_ADDR_DESTMODE_LOGICAL: bv64 := 1
  const MSI_ADDR_DESTMODE_PHYS: bv64 := 0

  // compatibility view (bits)
  function AddrDestMode(a: bv64): bv64 { (a >> 2) & 1 }
  function AddrRh(a: bv64): bv64 { (a >> 3) & 1 }
  function AddrDestField(a: bv64): bv64 { (a >> 12) & 0xFF }
  function AddrBase(a: bv64): bv64 { (a >> 20) & 0xFFF }
  function AddrHi32(a: bv64): bv64 { a >> 32 }

  // remappable view (ir_bits)
  function IrIndexHigh(a: bv64): bv64 { (a >> 2) & 1 }
  function IrShv(a: bv64): bv64 { (a >> 3) & 1 }
  function IrFormat(a: bv64): bv64 { (a >> 4) & 1 }
  function IrIndexLow(a: bv64): bv64 { (a >> 5) & 0x7FFF }
  function IrConstant(a: bv64): bv64 { (a >> 20) & 0xFFF }

  /** bits.dest_field = f: the low eight bits of f land in the field, nothing else moves. */
  function WithDestField(a: bv64, f: bv32): (r: bv64)
    ensures AddrDestField(r) == (f & 0xFF) as bv64
    ensures AddrDestMode(r) == AddrDestMode(a) && AddrRh(r) == AddrRh(a)
    ensures AddrBase(r) == AddrBase(a) && AddrHi32(r) == AddrHi32(a)
    ensures r & 0x3 == a & 0x3
  {
    (a & 0xFFFF_FFFF_FFF0_0FFF) | (((f as bv64) & 0xFF) << 12)
  }

  /** bits.rh = v. */
  function WithRh(a: bv64, v: bv64): (r: bv64)
    ensures AddrRh(r) == v & 1
    ensures AddrDestMode(r) == AddrDestMode(a) && AddrDestField(r) == AddrDestField(a)
    ensures AddrBase(r) == AddrBase(a) && AddrHi32(r) == AddrHi32(a)
    ensures r & 0x3 == a & 0x3
  {
    (a & 0xFFFF_FFFF_FFFF_FFF7) | ((v & 1) << 3)
  }

  /** bits.dest_mode = v. */
  function WithDestMode(a: bv64, v: bv64): (r: bv64)
    ensures AddrDestMode(r) == v & 1
    ensures AddrRh(r) == AddrRh(a) && AddrDestField(r) == AddrDestField(a)
    ensures AddrBase(r) == AddrBase(a) && AddrHi32(r) == AddrHi32(a)
    ensures r & 0x3 == a & 0x3
  {
    (a & 0xFFFF_FFFF_FFFF_FFFB) | ((v & 1) << 2)
  }

  /**
   * The remappable-format address the hypervisor writes once an IRTE is
   * assigned: the 16-bit IRTE index split into bit 2 (index bit 15) and
   * bits 5-19 (index bits 0-14), format bit set, SHV clear, 0xFEE on top.
   */
  function RemappableAddr(index: bv16): (a: bv64)
    ensures IrIndexHigh(a) == ((index >> 15) & 1) as bv64
    ensures IrIndexLow(a) == (index & 0x7FFF) as bv64
    ensures IrFormat(a) == 1 && IrShv(a) == 0
    ensures IrConstant(a) == MSI_ADDR_BASE
    ensures a & 0x3 == 0 && a >> 32 == 0
  {
    (MSI_ADDR_BASE << 20) | (((index & 0x7FFF) as bv64) << 5) | (1 << 4)
      | (((index >> 15) as bv64) << 2)
  }

  /** The IRTE index can be read back from a remappable address. */
  lemma RemappableAddrIndex(index: bv16)
    ensures (IrIndexHigh(RemappableAddr(index)) << 15) | IrIndexLow(RemappableAddr(index)) == index as bv64
  {
  }

  // ---------------------------------------------------------- MSI data register

  const MSI_DATA_DELMODE_FIXED: bv32 := 0
  const MSI_DATA_DELMODE_LOPRI: bv32 := 1
  const MSI_DATA_TRGRMODE_EDGE: bv32 := 0
  const MSI_DATA_TRGRMODE_LEVEL: bv32 := 1

  function DataVector(d: bv32): bv32 { d & 0xFF }
  function DataDeliveryMode(d: bv32): bv32 { (d >> 8) & 0x7 }
  function DataLevel(d: bv32): bv32 { (d >> 14) & 1 }
  function DataTriggerMode(d: bv32): bv32 { (d >> 15) & 1 }

  /** bits.vector = v: the low eight bits of v, every other field kept. */
  function WithVector(d: bv32, v: bv32): (r: bv32)
    ensures DataVector(r) == v & 0xFF
    ensures DataDeliveryMode(r) == DataDeliveryMode(d)
    ensures DataLevel(r) == DataLevel(d) && DataTriggerMode(r) == DataTriggerMode(d)
    ensures r >> 16 == d >> 16
  {
    (d & 0xFFFF_FF00) | (v & 0xFF)
  }

  /** bits.delivery_mode = m: the low three bits of m, every other field kept. */
  function WithDeliveryMode(d: bv32, m: bv32): (r: bv32)
    ensures DataDeliveryMode(r) == m & 0x7
    ensures DataVector(r) == DataVector(d)
    ensures DataLevel(r) == DataLevel(d) && DataTriggerMode(r) == DataTriggerMode(d)
    ensures r >> 16 == d >> 16
  {
    (d & 0xFFFF_F8FF) | ((m & 0x7) << 8)
  }

  /** struct msi_info. */
  datatype MsiInfo = MsiInfo(addr: bv64, data: bv32)

  // ---------------------------------------------------------- mapping record

  /**
   * struct ptintr: one mapping of a physical interrupt source (physSid) to
   * a source of a guest (vm, virtSid), with the physical MSI composed for
   * it and the slot of its per-IRQ record (None while it has none). The
   * hash-chain links of the C record are not part of this model.
   */
  datatype PtIntr = PtIntr(
    id: nat,
    intrType: u32,
    active: bool,
    physSid: u64,
    virtSid: u64,
    vm: Option<Vm>,
    pmsi: MsiInfo,
    irq: Option<nat>)

  /** A record of all-zero bytes, as memset leaves it. */
  const ZERO_PTINTR: PtIntr := PtIntr(0, 0, false, 0, 0, None, MsiInfo(0, 0), None)
}
