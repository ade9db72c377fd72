/**
 * The x86 half of the pass-through mapping layer: how the physical MSI and
 * the physical I/O APIC redirection entry of a mapping are composed from
 * what the guest programmed, which delivery policy an MSI gets, and the
 * order in which a physical pin is reprogrammed. The vLAPIC, the virtual
 * I/O APIC and PIC, the IOMMU and the physical I/O APIC are not part of
 * this model: what is read from them enters as a parameter, and each call
 * that changes them is returned as the step it would perform.
 */
module ArchPtIntr {
  import opened Types
  import opened PtintrHdr
  import IoapicRte
  import ArchPtIrq

  /** ffs64 of an all-zero word. */
  const INVALID_BIT_INDEX: nat := 0xFFFF

  // ------------------------------------------------------------------ bitmaps

  // The 64-bit CPU masks are handled as numbers below 2^64, bit j being
  // the j-th binary digit.

  /** 1UL << j. */
  function Pow2(j: nat): (p: nat)
    ensures p > 0
  {
    if j == 0 then 1 else 2 * Pow2(j - 1)
  }

  /** Bit j of m is set. */
  predicate Bit(m: nat, j: nat)
  {
    if j == 0 then m % 2 == 1 else Bit(m / 2, j - 1)
  }

  /** The lowest set bit of m at or above i, or INVALID_BIT_INDEX. */
  function FfsFrom(m: nat, i: nat): (r: nat)
    requires i <= 64
    decreases 64 - i
    ensures r < 64 ==> i <= r && Bit(m, r) && forall j :: i <= j < r ==> !Bit(m, j)
    ensures r >= 64 ==> r == INVALID_BIT_INDEX && forall j :: i <= j < 64 ==> !Bit(m, j)
  {
    if i == 64 then INVALID_BIT_INDEX
    else if Bit(m, i) then i
    else FfsFrom(m, i + 1)
  }

  /** ffs64: the index of the lowest set bit, INVALID_BIT_INDEX for zero. */
  function Ffs64(m: u64): (r: nat)
    ensures r < 64 ==> Bit(m, r) && forall j :: 0 <= j < r ==> !Bit(m, j)
    ensures r >= 64 ==> r == INVALID_BIT_INDEX && forall j :: 0 <= j < 64 ==> !Bit(m, j)
  {
    FfsFrom(m, 0)
  }

  /** bitmap_clear_nolock: bit k goes, every other bit stays, and the value does not grow. */
  function ClearBit(m: nat, k: nat): (r: nat)
    ensures r <= m
    ensures forall j :: Bit(r, j) <==> Bit(m, j) && j != k
  {
    ClearBitDigits(m, k);
    ClearDigit(m, k)
  }

  function ClearDigit(m: nat, k: nat): (r: nat)
    ensures r <= m
  {
    if k == 0 then m - m % 2 else 2 * ClearDigit(m / 2, k - 1) + m % 2
  }

  lemma {:induction false} ClearBitDigits(m: nat, k: nat)
    ensures forall j :: Bit(ClearDigit(m, k), j) <==> Bit(m, j) && j != k
  {
    forall j ensures Bit(ClearDigit(m, k), j) <==> Bit(m, j) && j != k {
      ClearDigitAt(m, k, j);
    }
  }

  lemma {:induction false} ClearDigitAt(m: nat, k: nat, j: nat)
    ensures Bit(ClearDigit(m, k), j) <==> Bit(m, j) && j != k
  {
    var r := ClearDigit(m, k);
    if k == 0 {
      DropLowDigit(m);
      assert r % 2 == 0 && r / 2 == m / 2;
    } else {
      var h := ClearDigit(m / 2, k - 1);
      assert r == 2 * h + m % 2;
      Digits(h, m % 2);
      assert r % 2 == m % 2 && r / 2 == h;
      if j > 0 {
        ClearDigitAt(m / 2, k - 1, j - 1);
      }
    }
  }

  /** The low binary digit and the rest of 2·h + b. */
  lemma Digits(h: nat, b: nat)
    requires b < 2
    ensures (2 * h + b) % 2 == b && (2 * h + b) / 2 == h
  {
  }

  /** Clearing the low binary digit leaves the rest. */
  lemma DropLowDigit(m: nat)
    ensures (m - m % 2) % 2 == 0 && (m - m % 2) / 2 == m / 2
  {
    Digits(m / 2, m % 2);
    assert m == 2 * (m / 2) + m % 2;
    assert m - m % 2 == 2 * (m / 2) + 0;
    Digits(m / 2, 0);
  }

  /** 1UL << v has bit v and no other. */
  lemma {:induction false} Pow2Bits(v: nat, j: nat)
    ensures Bit(Pow2(v), j) <==> j == v
  {
    if v > 0 {
      assert Pow2(v) % 2 == 0 && Pow2(v) / 2 == Pow2(v - 1);
      if j > 0 {
        Pow2Bits(v - 1, j - 1);
      }
    } else if j > 0 {
      ZeroBits(j - 1);
    }
  }

  /** Zero has no bit set. */
  lemma {:induction false} ZeroBits(j: nat)
    ensures !Bit(0, j)
  {
    if j > 0 {
      ZeroBits(j - 1);
    }
  }

  // ------------------------------------------------- logical destination mask

  /** The OR of the logical APIC ids of the CPUs below hi whose bit is set in m. */
  function LdrOr(m: nat, ldr: seq<bv32>, hi: nat): bv32
    requires hi <= |ldr|
  {
    if hi == 0 then 0
    else LdrOr(m, ldr, hi - 1) | (if Bit(m, hi - 1) then ldr[hi - 1] else 0)
  }

  /** What calculate_logical_dest_mask computes: the OR of lapic_ldr over the CPUs in pdmask. */
  function LogicalDestMask(pdmask: u64, lapicLdr: seq<bv32>): bv32
    requires |lapicLdr| == MAX_PCPU_NUM
  {
    LdrOr(pdmask, lapicLdr, MAX_PCPU_NUM)
  }

  /** CPUs whose bit is clear contribute nothing. */
  lemma {:induction false} LdrOrSkip(m: nat, ldr: seq<bv32>, lo: nat, hi: nat)
    requires lo <= hi <= |ldr|
    requires forall j :: lo <= j < hi ==> !Bit(m, j)
    ensures LdrOr(m, ldr, hi) == LdrOr(m, ldr, lo)
  {
    if hi > lo {
      LdrOrSkip(m, ldr, lo, hi - 1);
    }
  }

  /** A CPU whose bit is set adds its logical id. */
  lemma LdrOrTake(m: nat, ldr: seq<bv32>, j: nat)
    requires j < |ldr| && Bit(m, j)
    ensures LdrOr(m, ldr, j + 1) == LdrOr(m, ldr, j) | ldr[j]
  {
  }

  /** The mask holds the logical id of every CPU in m below hi. */
  lemma {:induction false} LdrOrCovers(m: nat, ldr: seq<bv32>, hi: nat, j: nat)
    requires j < hi <= |ldr| && Bit(m, j)
    ensures LdrOr(m, ldr, hi) & ldr[j] == ldr[j]
  {
    if j < hi - 1 {
      LdrOrCovers(m, ldr, hi - 1, j);
    }
  }

  /** ... and nothing else: any mask that holds all of them holds the result. */
  lemma {:induction false} LdrOrLeast(m: nat, ldr: seq<bv32>, hi: nat, b: bv32)
    requires hi <= |ldr|
    requires forall j :: 0 <= j < hi && Bit(m, j) ==> ldr[j] & b == ldr[j]
    ensures LdrOr(m, ldr, hi) & b == LdrOr(m, ldr, hi)
  {
    if hi > 0 {
      LdrOrLeast(m, ldr, hi - 1, b);
    }
  }

  /**
   * calculate_logical_dest_mask: take the CPUs of pdmask lowest first,
   * clearing each one's bit and adding its logical APIC id, until the
   * lowest remaining bit names no CPU. Every turn clears a bit above the
   * previous one, so the loop ends.
   */
  method CalculateLogicalDestMask(pdmask: u64, lapicLdr: seq<bv32>) returns (destMask: bv32)
    requires |lapicLdr| == MAX_PCPU_NUM
    ensures destMask == LogicalDestMask(pdmask, lapicLdr)
  {
    destMask := 0;
    var pcpuMask: u64 := pdmask;
    ghost var lo: nat := 0;
    var pcpuId := Ffs64(pcpuMask);
    while pcpuId < MAX_PCPU_NUM
      invariant lo <= MAX_PCPU_NUM
      invariant forall j: nat :: Bit(pcpuMask, j) <==> Bit(pdmask, j) && j >= lo
      invariant pcpuId == Ffs64(pcpuMask)
      invariant destMask == LdrOr(pdmask, lapicLdr, lo)
      decreases MAX_PCPU_NUM - lo
    {
      assert Bit(pdmask, pcpuId) && lo <= pcpuId;
      LdrOrSkip(pdmask, lapicLdr, lo, pcpuId);
      LdrOrTake(pdmask, lapicLdr, pcpuId);
      pcpuMask := ClearBit(pcpuMask, pcpuId);
      destMask := destMask | lapicLdr[pcpuId];
      lo := pcpuId + 1;
      pcpuId := Ffs64(pcpuMask);
    }
    LdrOrSkip(pdmask, lapicLdr, lo, MAX_PCPU_NUM);
  }

  // ------------------------------------------------------- single destination

  /**
   * is_single_destination: the destination vCPU (by its id) of an
   * interrupt that only posted mode can take, given vdmask, the vCPUs that
   * vlapic_calc_dest names: only Fixed and Lowest-priority interrupts, and
   * only when vdmask names exactly one vCPU. An empty vdmask names none
   * (ffs64 gives INVALID_BIT_INDEX, which is no bit position).
   */
  function IsSingleDestination(delMode: bv32, vdmask: u64): (r: Option<nat>)
    ensures r.Some? ==>
      (delMode == MSI_DATA_DELMODE_FIXED || delMode == MSI_DATA_DELMODE_LOPRI) &&
      r.value < 64 && vdmask == Pow2(r.value)
  {
    if delMode == MSI_DATA_DELMODE_FIXED || delMode == MSI_DATA_DELMODE_LOPRI then
      var vid := Ffs64(vdmask);
      if vid < 64 && vdmask == Pow2(vid) then Some(vid) else None
    else None
  }

  /** Conversely, a Fixed or Lowest-priority interrupt to exactly one vCPU is single-destination. */
  lemma SingleDestinationExact(delMode: bv32, vdmask: u64, v: nat)
    requires delMode == MSI_DATA_DELMODE_FIXED || delMode == MSI_DATA_DELMODE_LOPRI
    requires v < 64 && vdmask == Pow2(v)
    ensures IsSingleDestination(delMode, vdmask) == Some(v)
  {
    var vid := Ffs64(vdmask);
    Pow2Bits(v, v);
    if vid < 64 {
      Pow2Bits(v, vid);
    }
  }

  // ------------------------------------------------------------ delivery mode

  /**
   * The physical delivery mode: Fixed and Lowest-priority are kept, every
   * other mode becomes Lowest-priority. MSI data and I/O APIC entries use
   * the same codes for the two modes.
   */
  function NormalizeDelMode(m: bv64): (r: bv64)
    ensures r == IoapicRte.IOAPIC_RTE_DELMODE_FIXED || r == IoapicRte.IOAPIC_RTE_DELMODE_LOPRI
    ensures r == m || r == IoapicRte.IOAPIC_RTE_DELMODE_LOPRI
    ensures m == IoapicRte.IOAPIC_RTE_DELMODE_FIXED ==> r == m
  {
    if m != IoapicRte.IOAPIC_RTE_DELMODE_FIXED && m != IoapicRte.IOAPIC_RTE_DELMODE_LOPRI
    then IoapicRte.IOAPIC_RTE_DELMODE_LOPRI else m
  }

  lemma DelModeCodesAgree()
    ensures MSI_DATA_DELMODE_FIXED as bv64 == IoapicRte.IOAPIC_RTE_DELMODE_FIXED
    ensures MSI_DATA_DELMODE_LOPRI as bv64 == IoapicRte.IOAPIC_RTE_DELMODE_LOPRI
  {
  }

  // ------------------------------------------------------------- physical MSI

  /** union dmar_ir_entry's remap fields, as handed to iommu_ir_assign_irte. */
  datatype Irte = Irte(vector: bv32, delMode: bv64, destMode: bv64, rh: bv64, dest: bv32, triggerMode: bv64)

  /** struct intr_source: an MSI requester (with the posted-interrupt descriptor, 0 for none) or an I/O APIC. */
  datatype IntrSource = MsiSource(bdf: u16, pidPaddr: u64) | IoapicSource(ioapicId: nat)

  /** (uint16_t)phys_irq: the IRTE index of a physical IRQ. */
  function IrteIndex(physIrq: nat): bv16
  {
    (physIrq % 0x1_0000) as bv16
  }

  /**
   * The physical MSI of build_physical_msi once the IOMMU answered
   * assignRet: with an IRTE (assignRet 0), data 0 and a remappable address
   * pointing at the IRTE indexed by the physical IRQ; otherwise the guest's
   * MSI in compatibility format with the vector and the normalised
   * delivery mode replaced and the destination redirected, in logical
   * mode, to destMask.
   */
  function PhysicalMsi(vmsi: MsiInfo, vector: bv32, physIrq: nat, destMask: bv32, assignRet: int): (p: MsiInfo)
    ensures assignRet == 0 ==>
      var index := IrteIndex(physIrq);
      p.data == 0 && IrFormat(p.addr) == 1 && IrShv(p.addr) == 0 && IrConstant(p.addr) == MSI_ADDR_BASE &&
      IrIndexLow(p.addr) == (index & 0x7FFF) as bv64 && IrIndexHigh(p.addr) == ((index >> 15) & 1) as bv64
    ensures assignRet != 0 ==>
      AddrDestField(p.addr) == (destMask & 0xFF) as bv64 && AddrRh(p.addr) == MSI_ADDR_RH &&
      AddrDestMode(p.addr) == MSI_ADDR_DESTMODE_LOGICAL &&
      p.addr & 0xFFFF_FFFF_FFF0_0FF3 == vmsi.addr & 0xFFFF_FFFF_FFF0_0FF3 &&
      DataVector(p.data) == vector & 0xFF &&
      DataDeliveryMode(p.data) as bv64 == NormalizeDelMode(DataDeliveryMode(vmsi.data) as bv64) &&
      p.data & 0xFFFF_F800 == vmsi.data & 0xFFFF_F800
  {
    if assignRet == 0 then MsiInfo(RemappableAddr(IrteIndex(physIrq)), 0)
    else
      var delMode := NormalizeDelMode(DataDeliveryMode(vmsi.data) as bv64) as bv32;
      var addr := WithDestMode(WithRh(WithDestField(vmsi.addr, destMask), MSI_ADDR_RH), MSI_ADDR_DESTMODE_LOGICAL);
      MsiInfo(addr, WithVector(WithDeliveryMode(vmsi.data, delMode), vector))
  }

  // ----------------------------------------------------------- remap policy

  /** enum vm_vlapic_state. */
  datatype VlapicState = VlapicDisabled | VlapicXapic | VlapicX2apic | VlapicTransition

  /** The vector to program and the posted-interrupt descriptor (0: remapped mode). */
  datatype MsiDelivery = MsiDelivery(vector: bv32, pidPaddr: u64)

  /**
   * The delivery policy of ptintr_remap_msix_arch. With the LAPIC passed
   * through, vCPUs in x2APIC mode take the guest vector directly, vCPUs in
   * xAPIC mode (LAPIC emulated) the host vector, and a VM in transition or
   * with its vLAPICs disabled has nothing programmed (None, -EFAULT).
   * Otherwise posted mode (guest vector and the vCPU's descriptor) is used
   * only for a PI-capable VM and a single-destination interrupt, and
   * remapped mode (host vector, no descriptor) in every other case.
   */
  function RemapPolicy(lapicPt: bool, state: VlapicState, piCapable: bool, single: Option<nat>,
                       guestVector: bv32, hostVector: bv32, piDesc: nat -> u64): (d: Option<MsiDelivery>)
    ensures d.None? <==> lapicPt && (state.VlapicTransition? || state.VlapicDisabled?)
    ensures d.Some? && d.value.pidPaddr != 0 ==> !lapicPt && piCapable && single.Some?
    ensures d.Some? && d.value.vector != guestVector ==> d.value.vector == hostVector
    ensures d.Some? && d.value.vector == guestVector && guestVector != hostVector ==>
      (lapicPt && state.VlapicX2apic?) || (!lapicPt && piCapable && single.Some?)
    ensures lapicPt && !state.VlapicX2apic? && d.Some? ==> d == Some(MsiDelivery(hostVector, 0))
    ensures !lapicPt && piCapable && single.Some? ==> d == Some(MsiDelivery(guestVector, piDesc(single.value)))
    ensures !lapicPt && !(piCapable && single.Some?) ==> d == Some(MsiDelivery(hostVector, 0))
  {
    if lapicPt then
      match state
      case VlapicX2apic => Some(MsiDelivery(guestVector, 0))
      case VlapicXapic => Some(MsiDelivery(hostVector, 0))
      case VlapicTransition => None
      case VlapicDisabled => None
    else if piCapable && single.Some? then Some(MsiDelivery(guestVector, piDesc(single.value)))
    else Some(MsiDelivery(hostVector, 0))
  }

  // ------------------------------------------------------------- physical RTE

  /**
   * The polarity step of build_physical_rte: the record takes the guest
   * entry's polarity (1 for active low), and the virtual line is moved when
   * the polarity flips, high when it becomes active low and low when it
   * becomes active high.
   */
  function PolarityUpdate(virtRte: bv64, oldPolarity: u32): (r: (Option<ArchPtIrq.LineOp>, u32))
    ensures r.1 == if IoapicRte.RtePolarity(virtRte) == IoapicRte.IOAPIC_RTE_INTPOL_ALO then 1 else 0
    ensures r.0 == Some(ArchPtIrq.SetHigh) <==> r.1 == 1 && oldPolarity == 0
    ensures r.0 == Some(ArchPtIrq.SetLow) <==> r.1 == 0 && oldPolarity == 1
    ensures r.0.None? || r.0 == Some(ArchPtIrq.SetHigh) || r.0 == Some(ArchPtIrq.SetLow)
  {
    if IoapicRte.RtePolarity(virtRte) == IoapicRte.IOAPIC_RTE_INTPOL_ALO then
      (if oldPolarity == 0 then Some(ArchPtIrq.SetHigh) else None, 1)
    else
      (if oldPolarity == 1 then Some(ArchPtIrq.SetLow) else None, 0)
  }

  /** The level of a held virtual line after an optional set-high or set-low. */
  function LineAfter(op: Option<ArchPtIrq.LineOp>, high: bool): bool
  {
    if op == Some(ArchPtIrq.SetHigh) then true
    else if op == Some(ArchPtIrq.SetLow) then false
    else high
  }

  /**
   * A deasserted line stays deasserted across the update: a line at the
   * inactive level of the old polarity (high for active low) ends at the
   * inactive level of the new one.
   */
  lemma PolarityUpdateKeepsLineIdle(virtRte: bv64, oldPolarity: u32, high: bool)
    requires oldPolarity == 0 || oldPolarity == 1
    requires high <==> oldPolarity == 1
    ensures var (op, p) := PolarityUpdate(virtRte, oldPolarity);
            LineAfter(op, high) <==> p == 1
  {
  }

  /**
   * ir_bits of an entry: the vector, the constant field (bits 8-10) zero,
   * the remappable format bit set and the IRTE index split over bit 11
   * (index bit 15) and bits 49-63 (index bits 0-14), in the layout of
   * section 5.1.5.1 of the Intel VT-d Architecture Specification. The
   * polarity, trigger mode, mask and the bits between are kept.
   */
  function RemappableRte(r: bv64, vector: bv64, index: bv16): (s: bv64)
    ensures IoapicRte.RteVector(s) == vector & 0xFF && IoapicRte.RteDeliveryMode(s) == 0
    ensures IoapicRte.RteIrIndexHigh(s) == ((index >> 15) & 1) as bv64
    ensures IoapicRte.RteIrFormat(s) == 1
    ensures IoapicRte.RteIrIndexLow(s) == (index & 0x7FFF) as bv64
    ensures s & 0x0000_FFFF_FFFF_F000 == r & 0x0000_FFFF_FFFF_F000
  {
    (r & 0x0000_FFFF_FFFF_F000) | (vector & 0xFF) | ((((index >> 15) & 1) as bv64) << 11) | (1 << 48)
      | (((index & 0x7FFF) as bv64) << 49)
  }

  /**
   * bits of an entry in compatibility format: logical destination mode,
   * the delivery mode, the vector and the low eight bits of destMask as
   * destination; the polarity, trigger mode, mask and the bits between are
   * kept.
   */
  function CompatibleRte(r: bv64, vector: bv64, delMode: bv64, destMask: bv32): (s: bv64)
    ensures IoapicRte.RteVector(s) == vector & 0xFF && IoapicRte.RteDeliveryMode(s) == delMode & 0x7
    ensures IoapicRte.RteDestMode(s) == IoapicRte.IOAPIC_RTE_DESTMODE_LOGICAL
    ensures IoapicRte.RteDestField(s) == (destMask as bv64) & 0xFF
    ensures s & 0x00FF_FFFF_FFFF_F000 == r & 0x00FF_FFFF_FFFF_F000
  {
    (r & 0x00FF_FFFF_FFFF_F000) | (vector & 0xFF) | ((delMode & 0x7) << 8)
      | (IoapicRte.IOAPIC_RTE_DESTMODE_LOGICAL << 11) | (((destMask as bv64) & 0xFF) << 56)
  }

  /**
   * The physical entry of an I/O APIC-routed guest pin: the guest's entry
   * in remappable format when an IRTE was assigned (assignRet 0), else in
   * compatibility format with the normalised delivery mode, the host
   * vector and destMask.
   */
  function PhysicalRte(virtRte: bv64, vector: bv64, physIrq: nat, destMask: bv32, assignRet: int): (s: bv64)
    ensures assignRet == 0 ==>
      IoapicRte.RteIrFormat(s) == 1 && IoapicRte.RteVector(s) == vector & 0xFF &&
      IoapicRte.RteIrIndexLow(s) == (IrteIndex(physIrq) & 0x7FFF) as bv64 &&
      IoapicRte.RteIrIndexHigh(s) == ((IrteIndex(physIrq) >> 15) & 1) as bv64
    ensures assignRet == 0 ==> s & 0x0000_FFFF_FFFF_F000 == virtRte & 0x0000_FFFF_FFFF_F000
    ensures assignRet != 0 ==>
      IoapicRte.RteVector(s) == vector & 0xFF &&
      IoapicRte.RteDeliveryMode(s) == NormalizeDelMode(IoapicRte.RteDeliveryMode(virtRte)) &&
      IoapicRte.RteDestMode(s) == IoapicRte.IOAPIC_RTE_DESTMODE_LOGICAL &&
      IoapicRte.RteDestField(s) == (destMask as bv64) & 0xFF
    ensures assignRet != 0 ==> s & 0x00FF_FFFF_FFFF_F000 == virtRte & 0x00FF_FFFF_FFFF_F000
  {
    if assignRet == 0 then RemappableRte(virtRte, vector, IrteIndex(physIrq))
    else CompatibleRte(virtRte, vector, NormalizeDelMode(IoapicRte.RteDeliveryMode(virtRte)), destMask)
  }

  /**
   * The physical entry of a PIC-routed guest pin: the current physical
   * entry with only the trigger mode changed, to level exactly when the
   * virtual PIC has the line level-triggered.
   */
  function PicRte(physRte: bv64, level: bool): (s: bv64)
    ensures IoapicRte.RteTriggerMode(s) ==
      if level then IoapicRte.IOAPIC_RTE_TRGRMODE_LEVEL else IoapicRte.IOAPIC_RTE_TRGRMODE_EDGE
  {
    if level then IoapicRte.WithTriggerMode(physRte, IoapicRte.IOAPIC_RTE_TRGRMODE_LEVEL)
    else IoapicRte.WithTriggerMode(physRte, IoapicRte.IOAPIC_RTE_TRGRMODE_EDGE)
  }

  /** Every other bit of the PIC-routed entry is the physical entry's. */
  lemma PicRteKeepsOtherBits(physRte: bv64, level: bool)
    ensures PicRte(physRte, level) & 0xFFFF_FFFF_FFFF_7FFF == physRte & 0xFFFF_FFFF_FFFF_7FFF
  {
  }

  // ------------------------------------------------------ physical I/O APIC

  /** One call into the physical I/O APIC, the IRQ layer or the IOMMU. */
  datatype HwStep =
    | MaskGsi(irq: nat)                          // ioapic_gsi_mask_irq
    | UnmaskGsi(irq: nat)                        // ioapic_gsi_unmask_irq
    | SetTriggerMode(irq: nat, level: bool)      // set_irq_trigger_mode
    | SetRte(irq: nat, rte: bv64)                // ioapic_set_rte
    | FreeIrte(src: IntrSource, index: bv16)     // iommu_ir_free_irte

  /**
   * activate_physical_ioapic once the entry is built: mask the pin, set the
   * IRQ's trigger mode from the entry, write the entry with its mask bit
   * set, and unmask the pin only if the built entry was unmasked.
   */
  function ActivateSteps(physIrq: nat, rte: bv64): (s: seq<HwStep>)
    ensures |s| == 3 || |s| == 4
    ensures s[0] == MaskGsi(physIrq)
    ensures s[1] == SetTriggerMode(physIrq, IoapicRte.RteTriggerMode(rte) == IoapicRte.IOAPIC_RTE_TRGRMODE_LEVEL)
    ensures s[2].SetRte? && s[2].irq == physIrq && IoapicRte.RteMask(s[2].rte) == IoapicRte.IOAPIC_RTE_MASK_SET
    ensures |s| == 4 <==> IoapicRte.RteMask(rte) == IoapicRte.IOAPIC_RTE_MASK_CLR
    ensures |s| == 4 ==> s[3] == UnmaskGsi(physIrq)
  {
    [MaskGsi(physIrq),
     SetTriggerMode(physIrq, IoapicRte.RteTriggerMode(rte) == IoapicRte.IOAPIC_RTE_TRGRMODE_LEVEL),
     SetRte(physIrq, IoapicRte.WithMask(rte, IoapicRte.IOAPIC_RTE_MASK_SET))]
    + (if IoapicRte.RteMask(rte) == IoapicRte.IOAPIC_RTE_MASK_CLR then [UnmaskGsi(physIrq)] else [])
  }

  /** The physical entry of pin irq after the steps, masking and unmasking through its mask bit. */
  function PinAfter(steps: seq<HwStep>, irq: nat, cur: bv64): bv64
  {
    if steps == [] then cur
    else
      var next := match steps[0]
        case MaskGsi(i) => if i == irq then IoapicRte.WithMask(cur, IoapicRte.IOAPIC_RTE_MASK_SET) else cur
        case UnmaskGsi(i) => if i == irq then IoapicRte.WithMask(cur, IoapicRte.IOAPIC_RTE_MASK_CLR) else cur
        case SetRte(i, r) => if i == irq then r else cur
        case _ => cur;
      PinAfter(steps[1..], irq, next)
  }

  /** The pin ends with exactly the built entry, mask bit included, whatever it held before. */
  lemma ActivateInstallsRte(physIrq: nat, rte: bv64, cur: bv64)
    ensures PinAfter(ActivateSteps(physIrq, rte), physIrq, cur) == rte
  {
    var s := ActivateSteps(physIrq, rte);
    var masked := IoapicRte.WithMask(rte, IoapicRte.IOAPIC_RTE_MASK_SET);
    var w := IoapicRte.WithMask(cur, IoapicRte.IOAPIC_RTE_MASK_SET);
    assert PinAfter(s, physIrq, cur) == PinAfter(s[1..], physIrq, w);
    assert s[1..][1..] == s[2..] && s[2..][1..] == s[3..];
    assert PinAfter(s[1..], physIrq, w) == PinAfter(s[2..], physIrq, w);
    assert PinAfter(s[2..], physIrq, w) == PinAfter(s[3..], physIrq, masked);
    if IoapicRte.RteMask(rte) == IoapicRte.IOAPIC_RTE_MASK_CLR {
      IoapicRte.MaskUnmaskRoundTrip(rte);
      assert s[3..][1..] == [];
      assert PinAfter(s[3..], physIrq, masked) ==
        PinAfter(s[3..][1..], physIrq, IoapicRte.WithMask(masked, IoapicRte.IOAPIC_RTE_MASK_CLR));
    } else {
      assert s[3..] == [];
    }
  }

  /** Steps s leave pin physIrq holding rte, whatever it held before. */
  ghost predicate InstallsRte(s: seq<HwStep>, physIrq: nat, rte: bv64)
  {
    forall cur :: PinAfter(s, physIrq, cur) == rte
  }

  /**
   * Steps s leave a PIC-routed pin whose entry was cur as activation does:
   * three steps, so no unmask; the pin ends masked, with trigger mode level
   * exactly when the virtual PIC line is level, and every other bit of cur.
   */
  predicate PicPinLeftMasked(s: seq<HwStep>, physIrq: nat, cur: bv64, level: bool)
  {
    var after := PinAfter(s, physIrq, cur);
    |s| == 3 && IoapicRte.RteMask(after) == IoapicRte.IOAPIC_RTE_MASK_SET &&
    IoapicRte.RteTriggerMode(after) ==
      (if level then IoapicRte.IOAPIC_RTE_TRGRMODE_LEVEL else IoapicRte.IOAPIC_RTE_TRGRMODE_EDGE) &&
    after & 0xFFFF_FFFF_FFFE_7FFF == cur & 0xFFFF_FFFF_FFFE_7FFF
  }

  /**
   * activate_physical_ioapic on a PIC-routed pin whose entry was cur: the
   * entry read back is already masked, so the pin is left masked.
   */
  lemma PicActivateLeavesMasked(physIrq: nat, cur: bv64, level: bool)
    ensures var rte := PicRte(IoapicRte.WithMask(cur, IoapicRte.IOAPIC_RTE_MASK_SET), level);
      var s := ActivateSteps(physIrq, rte);
      PinAfter(s, physIrq, cur) == rte && PicPinLeftMasked(s, physIrq, cur, level)
  {
    var m := IoapicRte.WithMask(cur, IoapicRte.IOAPIC_RTE_MASK_SET);
    var rte := PicRte(m, level);
    PicRteKeepsOtherBits(m, level);
    assert IoapicRte.RteMask(rte) == IoapicRte.IOAPIC_RTE_MASK_SET by {
      assert rte & 0x1_0000 == m & 0x1_0000;
    }
    ActivateInstallsRte(physIrq, rte, cur);
  }

  /**
   * remove_remapping and the arch remove hooks: an INTx pin is first masked;
   * then the IRTE of the physical IRQ is released, for an MSI at its
   * requester, for an INTx at its I/O APIC.
   */
  function RemoveSteps(e: PtIntr, physIrq: nat, ioapicId: nat): (s: seq<HwStep>)
    ensures e.intrType == PTDEV_INTR_MSI ==> s == [FreeIrte(MsiSource(MsiBdf(e.physSid), 0), IrteIndex(physIrq))]
    ensures e.intrType != PTDEV_INTR_MSI ==> s == [MaskGsi(physIrq), FreeIrte(IoapicSource(ioapicId), IrteIndex(physIrq))]
  {
    if e.intrType == PTDEV_INTR_MSI then [FreeIrte(MsiSource(MsiBdf(e.physSid), 0), IrteIndex(physIrq))]
    else [MaskGsi(physIrq), FreeIrte(IoapicSource(ioapicId), IrteIndex(physIrq))]
  }

  // ---------------------------------------------- calls out of the arch layer

  /**
   * The answers of the hypervisor services the mapping layer calls: the
   * vLAPIC (vlapic_calc_dest, a VM's LAPIC pass-through and vLAPIC mode,
   * PI capability and the vCPUs' posted-interrupt descriptors), the vCPU
   * to CPU mask translation, the CPUs' logical APIC ids, the IOMMU
   * (iommu_ir_assign_irte), the virtual I/O APIC and PIC, the physical
   * I/O APIC, the vUART pin check and request_irq.
   */
  datatype Env = Env(
    calcDest: (Vm, bv32, bool, bool) -> u64,    // vlapic_calc_dest(vm, dest, phys, lowprio)
    pcpuMask: (Vm, u64) -> u64,                 // vcpumask2pcpumask
    lapicLdr: seq<bv32>,                        // per_cpu(lapic_ldr, cpu)
    lapicPt: Vm -> bool,                        // is_lapic_pt_configured
    vlapicState: Vm -> VlapicState,             // check_vm_vlapic_state
    piCapable: Vm -> bool,                      // is_pi_capable
    piDesc: (Vm, nat) -> u64,                   // hva2hpa(get_pi_desc(vcpu))
    assignIrte: (IntrSource, Irte, bv16) -> int, // iommu_ir_assign_irte
    vioapicRte: (Vm, u32) -> bv64,              // vioapic_get_rte
    vpicLevel: (Vm, u32) -> bool,               // vpic_get_irqline_trigger_mode == LEVEL_TRIGGER
    ioapicRte: nat -> bv64,                     // the physical pin's entry before activation
    ioapicIdOf: nat -> nat,                     // ioapic_irq_to_ioapic_id
    isVuartIntx: (Vm, u32) -> bool,             // is_vuart_intx
    requestIrq: nat -> int)                     // request_irq

  predicate EnvShaped(env: Env)
  {
    |env.lapicLdr| == MAX_PCPU_NUM
  }

  /** The logical destination of a guest MSI: the CPUs running the vCPUs its address names. */
  function MsiDestMask(vm: Vm, vmsi: MsiInfo, env: Env): bv32
    requires EnvShaped(env)
  {
    var vdmask := env.calcDest(vm, AddrDestField(vmsi.addr) as bv32,
                               AddrDestMode(vmsi.addr) == MSI_ADDR_DESTMODE_PHYS, false);
    LogicalDestMask(env.pcpuMask(vm, vdmask), env.lapicLdr)
  }

  /** The logical destination of a guest redirection entry. */
  function RteDestMask(vm: Vm, virtRte: bv64, env: Env): bv32
    requires EnvShaped(env)
  {
    var vdmask := env.calcDest(vm, IoapicRte.RteDestField(virtRte) as bv32,
                               IoapicRte.RteDestMode(virtRte) == IoapicRte.IOAPIC_RTE_DESTMODE_PHY, false);
    LogicalDestMask(env.pcpuMask(vm, vdmask), env.lapicLdr)
  }

  /** The IRTE of an MSI: the vector, the normalised delivery mode, logical mode, RH set, destMask. */
  function MsiIrte(vmsi: MsiInfo, vector: bv32, destMask: bv32): Irte
  {
    Irte(vector, NormalizeDelMode(DataDeliveryMode(vmsi.data) as bv64),
         MSI_ADDR_DESTMODE_LOGICAL, MSI_ADDR_RH, destMask, 0)
  }

  /** The IRTE of a guest redirection entry: as for an MSI, RH clear, with the entry's trigger mode. */
  function RteIrte(virtRte: bv64, vector: bv32, destMask: bv32): Irte
  {
    Irte(vector, NormalizeDelMode(IoapicRte.RteDeliveryMode(virtRte)),
         IoapicRte.IOAPIC_RTE_DESTMODE_LOGICAL, 0, destMask, IoapicRte.RteTriggerMode(virtRte))
  }

  /**
   * build_physical_msi: compute the logical destination, ask the IOMMU
   * for an IRTE at the physical IRQ's index (for the requester physBdf and
   * the posted-interrupt descriptor pidPaddr) and compose the physical MSI
   * from its answer.
   */
  method BuildPhysicalMsi(vm: Vm, physBdf: u16, vmsi: MsiInfo, vector: bv32, pidPaddr: u64,
                          physIrq: nat, env: Env) returns (pmsi: MsiInfo)
    requires EnvShaped(env)
    ensures var destMask := MsiDestMask(vm, vmsi, env);
      pmsi == PhysicalMsi(vmsi, vector, physIrq, destMask,
        env.assignIrte(MsiSource(physBdf, pidPaddr), MsiIrte(vmsi, vector, destMask), IrteIndex(physIrq)))
  {
    var dest := AddrDestField(vmsi.addr) as bv32;
    var phys := AddrDestMode(vmsi.addr) == MSI_ADDR_DESTMODE_PHYS;
    var vdmask := env.calcDest(vm, dest, phys, false);
    var pdmask := env.pcpuMask(vm, vdmask);
    var destMask := CalculateLogicalDestMask(pdmask, env.lapicLdr);
    var ret := env.assignIrte(MsiSource(physBdf, pidPaddr), MsiIrte(vmsi, vector, destMask), IrteIndex(physIrq));
    pmsi := PhysicalMsi(vmsi, vector, physIrq, destMask, ret);
  }

  /** The delivery ptintr_remap_msix_arch chooses for a mapping of vm and the guest MSI. */
  function MsiPolicy(vm: Vm, vmsi: MsiInfo, hostVector: bv32, env: Env): Option<MsiDelivery>
  {
    var vdmask := env.calcDest(vm, AddrDestField(vmsi.addr) as bv32,
                               AddrDestMode(vmsi.addr) == MSI_ADDR_DESTMODE_PHYS,
                               DataDeliveryMode(vmsi.data) == MSI_DATA_DELMODE_LOPRI);
    var single := IsSingleDestination(DataDeliveryMode(vmsi.data), vdmask);
    RemapPolicy(env.lapicPt(vm), env.vlapicState(vm), env.piCapable(vm), single,
                DataVector(vmsi.data), hostVector, (vcpu: nat) => env.piDesc(vm, vcpu))
  }

  /**
   * The physical MSI ptintr_remap_msix_arch programs for a mapping e of
   * vm (None when it programs nothing): built for the vector and
   * descriptor the policy chooses.
   */
  function ProgrammedMsi(e: PtIntr, vm: Vm, vmsi: MsiInfo, physIrq: nat, hostVector: bv32, env: Env): Option<MsiInfo>
    requires EnvShaped(env)
  {
    var d := MsiPolicy(vm, vmsi, hostVector, env);
    if d.None? then None
    else
      var destMask := MsiDestMask(vm, vmsi, env);
      var src := MsiSource(MsiBdf(e.physSid), d.value.pidPaddr);
      Some(PhysicalMsi(vmsi, d.value.vector, physIrq, destMask,
        env.assignIrte(src, MsiIrte(vmsi, d.value.vector, destMask), IrteIndex(physIrq))))
  }

  /**
   * ptintr_remap_msix_arch for a mapping e of vm whose per-IRQ record
   * holds physIrq, with hostVector the vector bound to physIrq: -EFAULT
   * and no change when the policy programs nothing; otherwise 0 and the
   * physical MSI built for the chosen vector and descriptor.
   */
  method RemapMsixArch(e: PtIntr, vm: Vm, vmsi: MsiInfo, physIrq: nat, hostVector: bv32, env: Env)
    returns (ret: int, pmsi: MsiInfo)
    requires EnvShaped(env)
    ensures var p := ProgrammedMsi(e, vm, vmsi, physIrq, hostVector, env);
      if p.None? then ret == -EFAULT && pmsi == e.pmsi else ret == 0 && pmsi == p.value
  {
    var d := MsiPolicy(vm, vmsi, hostVector, env);
    if d.None? {
      ret := -EFAULT;
      pmsi := e.pmsi;
    } else {
      ret := 0;
      pmsi := BuildPhysicalMsi(vm, MsiBdf(e.physSid), vmsi, d.value.vector, d.value.pidPaddr, physIrq, env);
    }
  }

  /** What build_physical_rte produces: the entry, the virtual line move and the polarity to record. */
  datatype RteBuild = RteBuild(rte: bv64, line: Option<ArchPtIrq.LineOp>, polarity: Option<u32>)

  /**
   * What build_physical_rte makes of a mapping e of vm whose per-IRQ
   * record holds physIrq with polarity oldPolarity, hostVector being the
   * vector bound to physIrq. A guest pin of the virtual I/O APIC gets its
   * polarity step and the guest's entry retargeted (remappable when the
   * IOMMU assigns an IRTE); a guest pin of the virtual PIC keeps the
   * physical entry with the PIC's trigger mode. That physical entry is
   * read back (ioapic_get_rte) after activate_physical_ioapic has masked
   * the pin, so it is the pin's earlier entry with its mask bit set.
   */
  function RteFor(e: PtIntr, vm: Vm, physIrq: nat, hostVector: bv32, oldPolarity: u32, env: Env): RteBuild
    requires EnvShaped(env)
  {
    var gsi := IntxGsi(e.virtSid);
    if IntxCtlr(e.virtSid) == INTX_CTLR_IOAPIC then
      var virt := env.vioapicRte(vm, gsi);
      var destMask := RteDestMask(vm, virt, env);
      var irte := RteIrte(virt, hostVector, destMask);
      var ret := env.assignIrte(IoapicSource(env.ioapicIdOf(physIrq)), irte, IrteIndex(physIrq));
      var pol := PolarityUpdate(virt, oldPolarity);
      RteBuild(PhysicalRte(virt, hostVector as bv64, physIrq, destMask, ret), pol.0, Some(pol.1))
    else
      RteBuild(PicRte(IoapicRte.WithMask(env.ioapicRte(physIrq), IoapicRte.IOAPIC_RTE_MASK_SET), env.vpicLevel(vm, gsi)), None, None)
  }

  /**
   * activate_physical_ioapic for mapping e: the steps leave the pin with the
   * entry build_physical_rte makes, whatever the pin then held, and a
   * PIC-routed pin is left masked with its earlier entry's other bits.
   */
  lemma ActivationOf(e: PtIntr, vm: Vm, physIrq: nat, hostVector: bv32, oldPolarity: u32, env: Env)
    requires EnvShaped(env)
    ensures var b := RteFor(e, vm, physIrq, hostVector, oldPolarity, env);
      var s := ActivateSteps(physIrq, b.rte);
      InstallsRte(s, physIrq, b.rte) &&
      (IntxCtlr(e.virtSid) != INTX_CTLR_IOAPIC ==>
        PicPinLeftMasked(s, physIrq, env.ioapicRte(physIrq), env.vpicLevel(vm, IntxGsi(e.virtSid))))
  {
    var b := RteFor(e, vm, physIrq, hostVector, oldPolarity, env);
    forall cur: bv64 ensures PinAfter(ActivateSteps(physIrq, b.rte), physIrq, cur) == b.rte {
      ActivateInstallsRte(physIrq, b.rte, cur);
    }
    if IntxCtlr(e.virtSid) != INTX_CTLR_IOAPIC {
      PicActivateLeavesMasked(physIrq, env.ioapicRte(physIrq), env.vpicLevel(vm, IntxGsi(e.virtSid)));
    }
  }

  /** build_physical_rte, computing the destination mask with the loop. */
  method BuildPhysicalRte(e: PtIntr, vm: Vm, physIrq: nat, hostVector: bv32, oldPolarity: u32, env: Env)
    returns (b: RteBuild)
    requires EnvShaped(env)
    ensures b == RteFor(e, vm, physIrq, hostVector, oldPolarity, env)
  {
    var gsi := IntxGsi(e.virtSid);
    if IntxCtlr(e.virtSid) == INTX_CTLR_IOAPIC {
      var virt := env.vioapicRte(vm, gsi);
      var pol := PolarityUpdate(virt, oldPolarity);
      var dest := IoapicRte.RteDestField(virt) as bv32;
      var phys := IoapicRte.RteDestMode(virt) == IoapicRte.IOAPIC_RTE_DESTMODE_PHY;
      var vdmask := env.calcDest(vm, dest, phys, false);
      var pdmask := env.pcpuMask(vm, vdmask);
      var destMask := CalculateLogicalDestMask(pdmask, env.lapicLdr);
      var irte := RteIrte(virt, hostVector, destMask);
      var ret := env.assignIrte(IoapicSource(env.ioapicIdOf(physIrq)), irte, IrteIndex(physIrq));
      b := RteBuild(PhysicalRte(virt, hostVector as bv64, physIrq, destMask, ret), pol.0, Some(pol.1));
    } else {
      b := RteBuild(PicRte(IoapicRte.WithMask(env.ioapicRte(physIrq), IoapicRte.IOAPIC_RTE_MASK_SET), env.vpicLevel(vm, gsi)), None, None);
    }
  }
}
