/**
 * The x86 half of the per-IRQ pass-through layer: what a deferred
 * interrupt does to the guest (drive a virtual I/O APIC or PIC line, or
 * inject the cached MSI), which physical IRQ an interrupt source uses, and
 * the acknowledgement of a level-triggered line. The virtual interrupt
 * controllers are not part of this model: their state enters as the
 * trigger mode read from them, and each call into them is returned as the
 * action it would perform.
 */
module ArchPtIrq {
  import opened Types
  import opened PtintrHdr
  import opened PtirqHdr
  import IoapicRte
  import Irq

  /** GSI_SET_LOW, GSI_SET_HIGH, GSI_FALLING_PULSE, GSI_RAISING_PULSE. */
  datatype LineOp = SetLow | SetHigh | FallingPulse | RaisingPulse

  /** The line is pulsed rather than held. */
  predicate IsPulse(op: LineOp)
  {
    op.FallingPulse? || op.RaisingPulse?
  }

  /** The line is taken high (held high, or a rising edge). */
  predicate DrivesHigh(op: LineOp)
  {
    op.SetHigh? || op.RaisingPulse?
  }

  /** One call into a virtual interrupt controller or the virtual LAPIC. */
  datatype Action =
    | VioapicLine(vm: Option<Vm>, gsi: u32, op: LineOp)     // vioapic_set_irqline_*
    | VpicLine(vm: Option<Vm>, gsi: u32, op: LineOp)        // vpic_set_irqline_*
    | InjectMsi(vm: Option<Vm>, addr: bv64, data: bv32)     // vlapic_intr_msi
    | NoAction

  /**
   * The assertion of a virtual I/O APIC line: a level-triggered line is
   * held, an edge-triggered one pulsed, always towards the line's active
   * level (low when the polarity is non-zero).
   */
  function VioapicAssertOp(level: bool, polarity: u32): (op: LineOp)
    ensures IsPulse(op) <==> !level
    ensures DrivesHigh(op) <==> polarity == 0
  {
    if level then (if polarity != 0 then SetLow else SetHigh)
    else (if polarity != 0 then FallingPulse else RaisingPulse)
  }

  /** The assertion of a virtual PIC line, always active high: held if level-triggered, else a rising pulse. */
  function VpicAssertOp(level: bool): (op: LineOp)
    ensures IsPulse(op) <==> !level
    ensures DrivesHigh(op)
  {
    if level then SetHigh else RaisingPulse
  }

  /**
   * ptirq_handle_intx: the line action for an INTx record. vioapicRte is
   * the virtual redirection entry of the record's GSI (vioapic_get_rte)
   * and vpicLevel whether the virtual PIC has that line level-triggered.
   */
  function HandleIntx(e: PtIrq, vioapicRte: bv64, vpicLevel: bool): (a: Action)
    ensures a.VioapicLine? <==> IntxCtlr(e.virtSid) == INTX_CTLR_IOAPIC
    ensures a.VpicLine? <==> IntxCtlr(e.virtSid) == INTX_CTLR_PIC
    ensures a.VioapicLine? || a.VpicLine? || a.NoAction?
    ensures (a.VioapicLine? || a.VpicLine?) ==> a.vm == e.vm && a.gsi == IntxGsi(e.virtSid)
    ensures a.VioapicLine? ==>
      (IsPulse(a.op) <==> IoapicRte.RteTriggerMode(vioapicRte) != IoapicRte.IOAPIC_RTE_TRGRMODE_LEVEL) &&
      (DrivesHigh(a.op) <==> e.polarity == 0)
    ensures a.VpicLine? ==> (IsPulse(a.op) <==> !vpicLevel) && DrivesHigh(a.op)
  {
    var gsi := IntxGsi(e.virtSid);
    var ctlr := IntxCtlr(e.virtSid);
    if ctlr == INTX_CTLR_IOAPIC then
      var level := IoapicRte.RteTriggerMode(vioapicRte) == IoapicRte.IOAPIC_RTE_TRGRMODE_LEVEL;
      VioapicLine(e.vm, gsi, VioapicAssertOp(level, e.polarity))
    else if ctlr == INTX_CTLR_PIC then
      VpicLine(e.vm, gsi, VpicAssertOp(vpicLevel))
    else
      NoAction
  }

  /**
   * ptirq_softirq_arch: an INTx record goes to the line logic; any other
   * record injects exactly its cached guest MSI address and data.
   */
  function SoftirqArch(e: PtIrq, vioapicRte: bv64, vpicLevel: bool): (a: Action)
    ensures e.intrType == PTDEV_INTR_INTX ==> !a.InjectMsi?
    ensures e.intrType != PTDEV_INTR_INTX ==> a.InjectMsi? && a.vm == e.vm && a.addr == e.vmsi.addr && a.data == e.vmsi.data
  {
    if e.intrType == PTDEV_INTR_INTX then HandleIntx(e, vioapicRte, vpicLevel)
    else InjectMsi(e.vm, e.vmsi.addr, e.vmsi.data)
  }

  /**
   * ptirq_get_irq_arch: an INTx source uses the IRQ numbered like its
   * physical GSI (ioapic_gsi_to_irq is the identity); an MSI source has no
   * fixed IRQ, so request_irq is asked for IRQ_INVALID, meaning any free one.
   */
  function GetIrqArch(intrType: u32, physSid: u64): (irq: nat)
    ensures intrType != PTDEV_INTR_INTX ==> irq == Irq.IRQ_INVALID
    ensures intrType == PTDEV_INTR_INTX ==> irq < U32 && IntxSid(irq, IntxCtlr(physSid)) == physSid
  {
    if intrType == PTDEV_INTR_INTX then IntxGsi(physSid) else Irq.IRQ_INVALID
  }

  /** The IRQ of an INTx source is its GSI, whichever controller it names. */
  lemma GetIrqArchIntx(gsi: u32, ctlr: u32)
    ensures GetIrqArch(PTDEV_INTR_INTX, IntxSid(gsi, ctlr)) == gsi
  {
  }

  /** What ptirq_intx_ack_arch does: the line action, and the physical IRQ it unmasks. */
  datatype Ack = Ack(line: Action, unmask: Option<nat>)

  /**
   * ptirq_intx_ack_arch: nothing for an inactive record; otherwise the
   * virtual line is held at its inactive level (for the I/O APIC, low when
   * the polarity is 0 and high otherwise; for the PIC, low) and the
   * physical IRQ is unmasked.
   */
  function IntxAckArch(e: PtIrq): (r: Ack)
    ensures !e.active ==> r == Ack(NoAction, None)
    ensures e.active ==> r.unmask == Some(e.allocatedPirq as nat)
    ensures r.line.VioapicLine? <==> e.active && IntxCtlr(e.virtSid) == INTX_CTLR_IOAPIC
    ensures r.line.VpicLine? <==> e.active && IntxCtlr(e.virtSid) == INTX_CTLR_PIC
    ensures r.line.VioapicLine? || r.line.VpicLine? || r.line.NoAction?
    ensures r.line.VioapicLine? || r.line.VpicLine? ==>
      r.line.vm == e.vm && r.line.gsi == IntxGsi(e.virtSid) && !IsPulse(r.line.op)
    ensures r.line.VioapicLine? ==> (DrivesHigh(r.line.op) <==> e.polarity != 0)
    ensures r.line.VpicLine? ==> !DrivesHigh(r.line.op)
  {
    if !e.active then Ack(NoAction, None)
    else
      var gsi := IntxGsi(e.virtSid);
      var ctlr := IntxCtlr(e.virtSid);
      var line :=
        if ctlr == INTX_CTLR_IOAPIC then VioapicLine(e.vm, gsi, if e.polarity == 0 then SetLow else SetHigh)
        else if ctlr == INTX_CTLR_PIC then VpicLine(e.vm, gsi, SetLow)
        else NoAction;
      Ack(line, Some(e.allocatedPirq as nat))
  }

  /**
   * For a level-triggered INTx line, the acknowledgement undoes the
   * assertion the deferred delivery made: both hold the same line of the
   * same controller of the same VM, at opposite levels.
   */
  lemma AckReleasesLine(e: PtIrq, vioapicRte: bv64, vpicLevel: bool)
    requires e.active && e.intrType == PTDEV_INTR_INTX
    requires IntxCtlr(e.virtSid) == INTX_CTLR_IOAPIC ==>
      IoapicRte.RteTriggerMode(vioapicRte) == IoapicRte.IOAPIC_RTE_TRGRMODE_LEVEL
    requires IntxCtlr(e.virtSid) == INTX_CTLR_PIC ==> vpicLevel
    ensures var up := SoftirqArch(e, vioapicRte, vpicLevel);
            var down := IntxAckArch(e).line;
            if IntxCtlr(e.virtSid) == INTX_CTLR_IOAPIC || IntxCtlr(e.virtSid) == INTX_CTLR_PIC then
              (up.VioapicLine? <==> down.VioapicLine?) && (up.VpicLine? <==> down.VpicLine?) &&
              (up.VioapicLine? || up.VpicLine?) &&
              up.vm == down.vm && up.gsi == down.gsi && !IsPulse(up.op) && !IsPulse(down.op) &&
              DrivesHigh(up.op) != DrivesHigh(down.op)
            else up.NoAction? && down.NoAction?
  {
  }
}
