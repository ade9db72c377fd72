/**
 * The per-IRQ pass-through record (struct ptirq). The softirq list node
 * and the delay timer of the C record are represented by the table that
 * holds the records: queue membership is a sequence of slot numbers and
 * the delay timer is the timer whose id is the slot number in the CPU's
 * timer list (see DelayTimer).
 */
module PtirqHdr {
  import opened Types
  import opened PtintrHdr
  import opened Timer

  datatype PtIrq = PtIrq(
    id: nat,                 // slot number in the table
    vm: Option<Vm>,          // owning VM; None for a never-requested slot
    intrType: u32,           // PTDEV_INTR_MSI or PTDEV_INTR_INTX
    virtSid: u64,            // virtual source id
    active: bool,
    allocatedPirq: u32,      // physical IRQ returned by request_irq
    polarity: u32,           // 0 = active high, 1 = active low
    vmsi: MsiInfo,           // guest MSI to inject
    intrCount: u64,          // interrupts seen for a non-service VM
    delayTimeout: u64)       // deadline of the delay timer, 0 when none

  /** A record of all-zero bytes, as memset leaves it. */
  const ZERO_PTIRQ: PtIrq := PtIrq(0, None, 0, 0, false, 0, 0, MsiInfo(0, 0), 0, 0)

  /** is_sos_vm(irq->vm). */
  predicate IsService(e: PtIrq)
  {
    e.vm.Some? && e.vm.value.isService
  }

  /** A record whose interrupts are held back by a delay timer: a non-service VM with a non-zero delay. */
  predicate IsDelayed(e: PtIrq)
  {
    e.vm.Some? && !e.vm.value.isService && e.vm.value.injectDelayDelta > 0
  }

  /**
   * The delay timer of slot x as the timer list holds it: one-shot, no
   * period, with the ptirq callback, identified by the slot number.
   */
  function DelayTimer(x: nat, e: PtIrq): (t: HvTimer)
    ensures t.id == x && t.timeout == e.delayTimeout
    ensures t.mode == OneShot && t.hasFunc
  {
    HvTimer(x, e.delayTimeout, OneShot, 0, true)
  }
}
