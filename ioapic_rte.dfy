/**
 * The 64-bit I/O APIC redirection table entry (union ioapic_rte), in the
 * layout of section 3.2.4 of the Intel 82093AA I/O APIC datasheet, and its
 * interrupt-remapping view from section 5.1.5.2 of the Intel VT-d
 * Architecture Specification. The header that declares the union
 * (x86/ioapic.h) is not part of this model; the field positions and
 * values below are those of the two documents.
 */
module IoapicRte {
  const IOAPIC_RTE_MASK_CLR: bv64 := 0
  const IOAPIC_RTE_MASK_SET: bv64 := 1
  const IOAPIC_RTE_TRGRMODE_EDGE: bv64 := 0
  const IOAPIC_RTE_TRGRMODE_LEVEL: bv64 := 1
  const IOAPIC_RTE_INTPOL_AHI: bv64 := 0
  const IOAPIC_RTE_INTPOL_ALO: bv64 := 1
  const IOAPIC_RTE_DESTMODE_PHY: bv64 := 0
  const IOAPIC_RTE_DESTMODE_LOGICAL: bv64 := 1
  const IOAPIC_RTE_DELMODE_FIXED: bv64 := 0
  const IOAPIC_RTE_DELMODE_LOPRI: bv64 := 1

  /** The hypervisor routes device interrupts logically, lowest priority. */
  const DEFAULT_DEST_MODE: bv64 := IOAPIC_RTE_DESTMODE_LOGICAL
  const DEFAULT_DELIVERY_MODE: bv64 := IOAPIC_RTE_DELMODE_LOPRI

  // ------------------------------------------------------------- field views

  function RteVector(r: bv64): bv64 { r & 0xFF }
  function RteDeliveryMode(r: bv64): bv64 { (r >> 8) & 0x7 }
  function RteDestMode(r: bv64): bv64 { (r >> 11) & 1 }
  function RteDeliveryStatus(r: bv64): bv64 { (r >> 12) & 1 }
  function RtePolarity(r: bv64): bv64 { (r >> 13) & 1 }
  function RteRemoteIrr(r: bv64): bv64 { (r >> 14) & 1 }
  function RteTriggerMode(r: bv64): bv64 { (r >> 15) & 1 }
  function RteMask(r: bv64): bv64 { (r >> 16) & 1 }
  function RteDestField(r: bv64): bv64 { r >> 56 }

  // remappable view (ir_bits): the IRTE index is split over bits 11 and 49-63
  function RteIrIndexHigh(r: bv64): bv64 { (r >> 11) & 1 }
  function RteIrFormat(r: bv64): bv64 { (r >> 48) & 1 }
  function RteIrIndexLow(r: bv64): bv64 { r >> 49 }

  // --------------------------------------------------------------- field writes
  // Each write sets one field to the low bits of the value and keeps every
  // other bit of the entry.

  /** bits.intr_mask = m. */
  function WithMask(r: bv64, m: bv64): (s: bv64)
    ensures RteMask(s) == m & 1
    ensures s & 0xFFFF_FFFF_FFFE_FFFF == r & 0xFFFF_FFFF_FFFE_FFFF
  {
    (r & 0xFFFF_FFFF_FFFE_FFFF) | ((m & 1) << 16)
  }

  /** bits.trigger_mode = t. */
  function WithTriggerMode(r: bv64, t: bv64): (s: bv64)
    ensures RteTriggerMode(s) == t & 1
    ensures s & 0xFFFF_FFFF_FFFF_7FFF == r & 0xFFFF_FFFF_FFFF_7FFF
  {
    (r & 0xFFFF_FFFF_FFFF_7FFF) | ((t & 1) << 15)
  }

  /** bits.intr_polarity = p. */
  function WithPolarity(r: bv64, p: bv64): (s: bv64)
    ensures RtePolarity(s) == p & 1
    ensures s & 0xFFFF_FFFF_FFFF_DFFF == r & 0xFFFF_FFFF_FFFF_DFFF
  {
    (r & 0xFFFF_FFFF_FFFF_DFFF) | ((p & 1) << 13)
  }

  /** bits.dest_mode = d. */
  function WithDestMode(r: bv64, d: bv64): (s: bv64)
    ensures RteDestMode(s) == d & 1
    ensures s & 0xFFFF_FFFF_FFFF_F7FF == r & 0xFFFF_FFFF_FFFF_F7FF
  {
    (r & 0xFFFF_FFFF_FFFF_F7FF) | ((d & 1) << 11)
  }

  /** bits.delivery_mode = m. */
  function WithDeliveryMode(r: bv64, m: bv64): (s: bv64)
    ensures RteDeliveryMode(s) == m & 0x7
    ensures s & 0xFFFF_FFFF_FFFF_F8FF == r & 0xFFFF_FFFF_FFFF_F8FF
  {
    (r & 0xFFFF_FFFF_FFFF_F8FF) | ((m & 0x7) << 8)
  }

  /** bits.vector = v. */
  function WithVector(r: bv64, v: bv64): (s: bv64)
    ensures RteVector(s) == v & 0xFF
    ensures s & 0xFFFF_FFFF_FFFF_FF00 == r & 0xFFFF_FFFF_FFFF_FF00
  {
    (r & 0xFFFF_FFFF_FFFF_FF00) | (v & 0xFF)
  }

  /** bits.dest_field = d. */
  function WithDestField(r: bv64, d: bv64): (s: bv64)
    ensures RteDestField(s) == d & 0xFF
    ensures s & 0x00FF_FFFF_FFFF_FFFF == r & 0x00FF_FFFF_FFFF_FFFF
  {
    (r & 0x00FF_FFFF_FFFF_FFFF) | ((d & 0xFF) << 56)
  }

  /** Masking and then unmasking an entry whose mask bit was clear gives it back. */
  lemma MaskUnmaskRoundTrip(r: bv64)
    requires RteMask(r) == IOAPIC_RTE_MASK_CLR
    ensures WithMask(WithMask(r, IOAPIC_RTE_MASK_SET), IOAPIC_RTE_MASK_CLR) == r
  {
  }

  /**
   * An entry built from zero with the given fields: every field reads back
   * its (truncated) value and every bit outside the fields is zero.
   */
  function ComposeRte(vector: bv64, delMode: bv64, destMode: bv64, polarity: bv64,
                      trigger: bv64, mask: bv64, dest: bv64): (r: bv64)
    ensures RteVector(r) == vector & 0xFF && RteDeliveryMode(r) == delMode & 0x7
    ensures RteDestMode(r) == destMode & 1 && RtePolarity(r) == polarity & 1
    ensures RteTriggerMode(r) == trigger & 1 && RteMask(r) == mask & 1
    ensures RteDestField(r) == dest & 0xFF
    ensures RteDeliveryStatus(r) == 0 && RteRemoteIrr(r) == 0
    ensures r & 0x00FF_FFFF_FFFE_0000 == 0
  {
    (vector & 0xFF) | ((delMode & 0x7) << 8) | ((destMode & 1) << 11)
      | ((polarity & 1) << 13) | ((trigger & 1) << 15) | ((mask & 1) << 16)
      | ((dest & 0xFF) << 56)
  }

  /** The entry init_ioapic writes to every pin: all zero but the mask bit. */
  const MASKED_RTE: bv64 := 0x1_0000

  lemma MaskedRteIsMasked()
    ensures MASKED_RTE == WithMask(0, IOAPIC_RTE_MASK_SET)
    ensures RteMask(MASKED_RTE) == IOAPIC_RTE_MASK_SET && MASKED_RTE & 0xFFFF_FFFF_FFFE_FFFF == 0
  {
  }
}
