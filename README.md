# Pass-through interrupt remapping, modelled in Dafny

This project models the pass-through interrupt core of the ACRN hypervisor.
That core lends physical interrupt sources to virtual machines: legacy I/O APIC
pins and PCI MSI/MSI-X vectors. It translates between the source a guest
programs and the one the hardware raises. One file (one module) stands for
each file of the core:

| module | file | what it holds |
|---|---|---|
| `Types` | (shared) | error codes, `Option`, the VM handle, the build-time configuration |
| `PtintrHdr` | `include/common/ptintr.h` | the source-id word, the MSI address and data layouts, the mapping record |
| `PtirqHdr` | `include/common/ptirq.h` | the per-IRQ record and its delay timer |
| `Vtd` | `include/arch/x86/vtd.h` | the VT-d register decoders and encoders |
| `Cycles`, `Timecount` | `common/cycles.c`, `common/timecount.c` | cycle/tick and time conversions |
| `Timer` | `common/timer.c` | the per-CPU timer list (class `CpuTimers`) |
| `IoapicRte` | (the `union ioapic_rte` layout) | the redirection-entry fields |
| `Ioapic` | `arch/x86/ioapic.c` | I/O APIC discovery, masking, suspend/resume (class `Ioapics`) |
| `Irq` | `arch/x86/irq.c` | the IRQ-to-vector tables (class `IrqVectors`) |
| `IoapicIrq` | `arch/x86/ioapic_irq.c` | the GSI table and the boot-time pin walk (class `GsiTable`) |
| `PtIrq` | `common/ptirq.c` | the per-IRQ table, interrupt handler and softirq queue (class `PtIrqTable`) |
| `ArchPtIrq` | `arch/x86/ptirq.c` | what a deferred interrupt does to the guest, and the INTx acknowledgement |
| `ArchPtIntr` | `arch/x86/ptintr.c` | physical MSI and RTE composition, delivery policy, destination-mask loop |
| `Ptintr` | `common/ptintr.c` | the mapping table (class `PtIntrTable`), with add, remap, remove, ack and statistics |

The source mutates tables in place, and the model does the same: `array`
fields of classes, with methods that carry `modifies` clauses. Each method is
tied to a specification function on the values, and the properties are proved
about those functions. There are two table invariants.

- **`PtIrq.PtIrqTable.Valid`** (per-IRQ records):
  - the bitmap agrees with the active records;
  - the softirq queue has no repetitions and holds only active records;
  - a running delay timer belongs to an active, delayed record that is not queued.
- **`Ptintr.Linked`** (mappings):
  - each active mapping owns exactly one active per-IRQ record, with the same VM, kind and virtual source;
  - no two active mappings share a record, a physical source, or (for one VM) a virtual source.

Code that the core calls but that is not part of it enters as parameters:

- `request_irq`, `vlapic_calc_dest`, `vcpumask2pcpumask`, `iommu_ir_assign_irte` and `is_vuart_intx`;
- the vIOAPIC and vPIC state, the LAPIC mode, PI capability and the posted-interrupt descriptors;
- the current time.

These parameters are bundled in the `ArchPtIntr.Env` record or passed
separately. Each call that acts on hardware or on a virtual controller comes
back as a value:

- a `HwStep` (mask, unmask, write RTE, free IRTE);
- an `ArchPtIrq.Action` (set or pulse a virtual line, inject an MSI);
- the list of timers whose callbacks ran.

The headers `x86/irq.h`, `x86/ioapic.h`, `errno.h` and the board
configuration are not part of this model. Their constants take ACRN's usual
values:

| constant | value |
|---|---|
| `NR_IRQS` | 256 |
| vector ranges | dynamic 0x20-0xDF, fixed from 0xE0 |
| `CONFIG_MAX_PT_IRQ_ENTRIES` | 256 |
| `MAX_PCPU_NUM` | 8 |
| `MAX_IOAPIC_NUM` | 1 |
| `MAX_IOAPIC_LINES` | 120 |
| `NR_LEGACY_PIN` | 16 |
| `EACCES`, `EFAULT`, `ENODEV`, `EINVAL` | 13, 14, 19, 22 |

The redirection-entry layout follows section 3.2.4 of the Intel 82093AA I/O
APIC datasheet. Its remappable view follows section 5.1.5.2 of the Intel VT-d
Architecture Specification.

Three places where the code reads differently from its own comments:

- **MSI add.** The comment above `add_msix_entry` (hypervisor/common/ptintr.c:115-120) says a source held by the service VM changes owner and one held by another VM gives NULL. The code returns the existing mapping whoever owns it, and `add_msix_remapping` reports 0. The model follows the code (`Ptintr.PtIntrTable.AddMsixEntry`).
- **Storm mitigation.** For a non-service VM with a delay, the interrupt handler only sets the record's deadline and enqueues it. `deq_softirq` then finds the record not yet due and adds its delay timer. Later interrupts are dropped while that timer runs.
- **INTx hand-over.** Both hand-over paths update the mapping in place and leave a "FIXME re-insert" for the hash chain: `add_intx_entry` and `ptintr_add_intx_arch`. Only the arch path returns `-EACCES`, which `add_intx_remapping` turns into 0. What the hand-overs leave out of the per-IRQ record is listed under Findings.

## Model

| member | source | states |
|---|---|---|
| PtintrHdr.MsiSid | hypervisor/include/common/ptintr.h:23-35 | the MSI source id carries the function number in its low half-word and the entry number cut to 16 bits above it, with the reserved upper word zero |
| PtintrHdr.IntxSid | hypervisor/include/common/ptintr.h:26-43 | the INTx source id reads back the pin as gsi and the controller as ctlr |
| PtintrHdr.IntxSidRoundTrip | hypervisor/include/common/ptintr.h:37-43 | every 64-bit source id is the INTx id built from its own gsi and ctlr halves |
| PtintrHdr.MsiSidRoundTrip | hypervisor/include/common/ptintr.h:29-35 | every source id with a zero reserved word is the MSI id built from its own bdf and entry_nr |
| PtintrHdr.SourceIdViewsOverlap | hypervisor/include/common/ptintr.h:29-44 | the two views of the union share their bits: MSI id (0, 0) is the INTx id of pin 0 on the I/O APIC |
| PtintrHdr.WithDestField | hypervisor/include/common/ptintr.h:54-64 | writing dest_field stores the low eight bits and keeps dest_mode, rh, addr_base, hi_32 and the reserved low bits |
| PtintrHdr.WithRh | hypervisor/include/common/ptintr.h:54-64 | writing rh stores one bit and keeps every other field of the address |
| PtintrHdr.WithDestMode | hypervisor/include/common/ptintr.h:54-64 | writing dest_mode stores one bit and keeps every other field of the address |
| PtintrHdr.RemappableAddr | hypervisor/include/common/ptintr.h:65-73 | the remappable address carries the handle split over intr_index_high and intr_index_low, format 1, shv 0 and constant 0xfee, upper word zero |
| PtintrHdr.RemappableAddrIndex | hypervisor/include/common/ptintr.h:65-73 | the two index fields of a remappable address give back the 16-bit handle |
| PtintrHdr.WithVector | hypervisor/include/common/ptintr.h:85-95 | writing vector stores the low eight bits and keeps delivery_mode, level, trigger_mode and the upper half |
| PtintrHdr.WithDeliveryMode | hypervisor/include/common/ptintr.h:85-95 | writing delivery_mode stores three bits and keeps the other fields |
| Vtd.DmarVerMajor | hypervisor/include/arch/x86/vtd.h:127-130 | the major version is bits 7:4 of the register |
| Vtd.DmarVerMinor | hypervisor/include/arch/x86/vtd.h:132-135 | the minor version is bits 3:0 of the register |
| Vtd.DmarVersionSplit | hypervisor/include/arch/x86/vtd.h:127-135 | major and minor together are the register's low byte |
| Vtd.IommuCapPi | hypervisor/include/arch/x86/vtd.h:140-143 | the result is 1 exactly when capability bit 59 (posted interrupts supported) is set, else 0 |
| Vtd.IommuCapReadDrain | hypervisor/include/arch/x86/vtd.h:145-148 | the result is 1 exactly when capability bit 55 (read draining supported) is set, else 0 |
| Vtd.IommuCapWriteDrain | hypervisor/include/arch/x86/vtd.h:150-153 | the result is 1 exactly when capability bit 54 (write draining supported) is set, else 0 |
| Vtd.IommuCapPgselInv | hypervisor/include/arch/x86/vtd.h:165-168 | the result is 1 exactly when capability bit 39 (page-selective invalidation supported) is set, else 0 |
| Vtd.IommuCapZlr | hypervisor/include/arch/x86/vtd.h:186-189 | the result is 1 exactly when capability bit 22 (zero-length reads supported) is set, else 0 |
| Vtd.IommuCapIsoch | hypervisor/include/arch/x86/vtd.h:191-194 | the result is 1 exactly when capability bit 23 (isochrony supported) is set, else 0 |
| Vtd.IommuCapCachingMode | hypervisor/include/arch/x86/vtd.h:206-209 | the result is 1 exactly when capability bit 7 (caching mode) is set, else 0 |
| Vtd.IommuCapPhmr | hypervisor/include/arch/x86/vtd.h:211-214 | the result is 1 exactly when capability bit 6 (protected high-memory region) is set, else 0 |
| Vtd.IommuCapPlmr | hypervisor/include/arch/x86/vtd.h:216-219 | the result is 1 exactly when capability bit 5 (protected low-memory region) is set, else 0 |
| Vtd.IommuCapAfl | hypervisor/include/arch/x86/vtd.h:221-224 | the result is 1 exactly when capability bit 3 (advanced fault logging) is set, else 0 |
| Vtd.IommuCapMaxAmaskVal | hypervisor/include/arch/x86/vtd.h:155-158 | the result is bits 53:48 of the capability register (maximum address mask value), nothing more |
| Vtd.IommuCapSuperPageVal | hypervisor/include/arch/x86/vtd.h:170-173 | the result is bits 37:34 of the capability register (super-page support), nothing more |
| Vtd.IommuCapSagaw | hypervisor/include/arch/x86/vtd.h:201-204 | the result is bits 12:8 of the capability register (supported adjusted guest address widths), nothing more |
| Vtd.IommuCapNumFaultRegs | hypervisor/include/arch/x86/vtd.h:160-163 | the count is one more than bits 47:40, so 1 to 256 |
| Vtd.IommuCapFaultRegOffset | hypervisor/include/arch/x86/vtd.h:175-178 | the offset is bits 33:24 times 16 |
| Vtd.IommuCapMaxFaultRegOffset | hypervisor/include/arch/x86/vtd.h:180-184 | offset plus 16 bytes per fault register, without 16-bit wrap |
| Vtd.IommuCapMgaw | hypervisor/include/arch/x86/vtd.h:196-199 | the width is one more than bits 21:16, so 1 to 64 |
| Vtd.IommuCapNdoms | hypervisor/include/arch/x86/vtd.h:226-229 | the domain count is a power of two between 16 and 2^18 |
| Vtd.IommuCapNdomsStep | hypervisor/include/arch/x86/vtd.h:226-229 | raising the ND field by one multiplies the domain count by four |
| Vtd.IommuEcapC | hypervisor/include/arch/x86/vtd.h:234-237 | the result is 1 exactly when extended-capability bit 0 (page-walk coherency) is set, else 0 |
| Vtd.IommuEcapQi | hypervisor/include/arch/x86/vtd.h:239-242 | the result is 1 exactly when extended-capability bit 1 (queued invalidation) is set, else 0 |
| Vtd.IommuEcapDt | hypervisor/include/arch/x86/vtd.h:244-247 | the result is 1 exactly when extended-capability bit 2 (device TLB) is set, else 0 |
| Vtd.IommuEcapIr | hypervisor/include/arch/x86/vtd.h:249-252 | the result is 1 exactly when extended-capability bit 3 (interrupt remapping) is set, else 0 |
| Vtd.IommuEcapEim | hypervisor/include/arch/x86/vtd.h:254-257 | the result is 1 exactly when extended-capability bit 4 (extended interrupt mode) is set, else 0 |
| Vtd.IommuEcapPt | hypervisor/include/arch/x86/vtd.h:259-262 | the result is 1 exactly when extended-capability bit 6 (pass-through translation) is set, else 0 |
| Vtd.IommuEcapEcs | hypervisor/include/arch/x86/vtd.h:274-277 | the result is 1 exactly when extended-capability bit 24 (extended context) is set, else 0 |
| Vtd.IommuEcapMts | hypervisor/include/arch/x86/vtd.h:279-282 | the result is 1 exactly when extended-capability bit 25 (memory type) is set, else 0 |
| Vtd.IommuEcapNest | hypervisor/include/arch/x86/vtd.h:284-287 | the result is 1 exactly when extended-capability bit 26 (nested translation) is set, else 0 |
| Vtd.IommuEcapDis | hypervisor/include/arch/x86/vtd.h:289-292 | the result is 1 exactly when extended-capability bit 27 (deferred invalidate) is set, else 0 |
| Vtd.IommuEcapPrs | hypervisor/include/arch/x86/vtd.h:294-297 | the result is 1 exactly when extended-capability bit 29 (page requests) is set, else 0 |
| Vtd.IommuEcapErs | hypervisor/include/arch/x86/vtd.h:299-302 | the result is 1 exactly when extended-capability bit 30 (execute requests) is set, else 0 |
| Vtd.IommuEcapSrs | hypervisor/include/arch/x86/vtd.h:304-307 | the result is 1 exactly when extended-capability bit 31 (supervisor requests) is set, else 0 |
| Vtd.IommuEcapNwfs | hypervisor/include/arch/x86/vtd.h:309-312 | the result is 1 exactly when extended-capability bit 33 (no write flag) is set, else 0 |
| Vtd.IommuEcapEafs | hypervisor/include/arch/x86/vtd.h:314-317 | the result is 1 exactly when extended-capability bit 34 (extended accessed flag) is set, else 0 |
| Vtd.IommuEcapPasid | hypervisor/include/arch/x86/vtd.h:324-327 | the result is 1 exactly when extended-capability bit 40 (process address space IDs) is set, else 0 |
| Vtd.IommuEcapDit | hypervisor/include/arch/x86/vtd.h:329-332 | the result is 1 exactly when extended-capability bit 41 (device TLB invalidation throttling) is set, else 0 |
| Vtd.IommuEcapPds | hypervisor/include/arch/x86/vtd.h:334-337 | the result is 1 exactly when extended-capability bit 42 (page drain) is set, else 0 |
| Vtd.IommuEcapIro | hypervisor/include/arch/x86/vtd.h:264-267 | the result is bits 17:8 of the extended capability register (IOTLB register offset), nothing more |
| Vtd.IommuEcapMhmv | hypervisor/include/arch/x86/vtd.h:269-272 | the result is bits 23:20 of the extended capability register (maximum handle mask value), nothing more |
| Vtd.IommuEcapPss | hypervisor/include/arch/x86/vtd.h:319-322 | the result is bits 39:35 of the extended capability register (PASID size), nothing more |
| Vtd.DmaCcmdFm | hypervisor/include/arch/x86/vtd.h:369-372 | the function mask lands in bits 49:48 and nowhere else |
| Vtd.DmaCcmdSid | hypervisor/include/arch/x86/vtd.h:378-381 | the source id lands in bits 47:32 and nowhere else |
| Vtd.DmaCcmdDid | hypervisor/include/arch/x86/vtd.h:383-386 | the domain id lands in bits 31:16 and nowhere else |
| Vtd.DmaCcmdFieldsDisjoint | hypervisor/include/arch/x86/vtd.h:369-386 | the three command fields are disjoint and each is recovered from their OR |
| Vtd.DmaCcmdGetCaig32 | hypervisor/include/arch/x86/vtd.h:388-391 | the result is bits 28:27 of the word |
| Vtd.DmaIotlbDid | hypervisor/include/arch/x86/vtd.h:402-405 | the domain id lands in bits 31:16 and nowhere else |
| Vtd.DmaIotlbGetIaig32 | hypervisor/include/arch/x86/vtd.h:407-410 | the result is bits 26:25 of the word |
| Vtd.DmaIotlbInvlAddrAm | hypervisor/include/arch/x86/vtd.h:413-416 | the address mask is cut to six bits |
| Vtd.DmaIecIndex | hypervisor/include/arch/x86/vtd.h:421-424 | index in bits 47:32, mask in bits 31:27, nothing else set |
| Vtd.DmaFstsPfo | hypervisor/include/arch/x86/vtd.h:432-435 | true exactly when fault-status bit 0 (primary fault overflow) is set |
| Vtd.DmaFstsPpf | hypervisor/include/arch/x86/vtd.h:437-440 | true exactly when fault-status bit 1 (primary pending fault) is set |
| Vtd.DmaFstsAfo | hypervisor/include/arch/x86/vtd.h:442-445 | true exactly when fault-status bit 2 (advanced fault overflow) is set |
| Vtd.DmaFstsApf | hypervisor/include/arch/x86/vtd.h:447-450 | true exactly when fault-status bit 3 (advanced pending fault) is set |
| Vtd.DmaFstsIqe | hypervisor/include/arch/x86/vtd.h:452-455 | true exactly when fault-status bit 4 (invalidation queue error) is set |
| Vtd.DmaFstsIce | hypervisor/include/arch/x86/vtd.h:457-460 | true exactly when fault-status bit 5 (invalidation completion error) is set |
| Vtd.DmaFstsIte | hypervisor/include/arch/x86/vtd.h:462-465 | true exactly when fault-status bit 6 (invalidation time-out error) is set |
| Vtd.DmaFstsPro | hypervisor/include/arch/x86/vtd.h:467-470 | true exactly when fault-status bit 7 (page request overflow) is set |
| Vtd.DmaFstsFri | hypervisor/include/arch/x86/vtd.h:472-475 | the fault record index is bits 15:8 |
| Vtd.DmaFrcdUpF | hypervisor/include/arch/x86/vtd.h:478-481 | true exactly when bit 63 (fault record valid) of the fault record is set |
| Vtd.DmaFrcdUpPp | hypervisor/include/arch/x86/vtd.h:503-506 | true exactly when bit 31 (PASID present) of the fault record is set |
| Vtd.DmaFrcdUpExe | hypervisor/include/arch/x86/vtd.h:508-511 | true exactly when bit 30 (execute request) of the fault record is set |
| Vtd.DmaFrcdUpPriv | hypervisor/include/arch/x86/vtd.h:513-516 | true exactly when bit 29 (privileged request) of the fault record is set |
| Vtd.DmaFrcdUpT | hypervisor/include/arch/x86/vtd.h:483-486 | 1 exactly when bit 62 (request type) is set, else 0 |
| Vtd.DmaFrcdUpAt | hypervisor/include/arch/x86/vtd.h:488-491 | the result is bits 61:60 of the fault record (address type of the fault record) |
| Vtd.DmaFrcdUpFr | hypervisor/include/arch/x86/vtd.h:498-501 | the result is bits 39:32 of the fault record (fault reason) |
| Vtd.DmaFrcdUpPasid | hypervisor/include/arch/x86/vtd.h:493-496 | the PASID is bits 59:40 |
| Vtd.DmaFrcdUpSid | hypervisor/include/arch/x86/vtd.h:518-521 | the source id is bits 15:0 |
| Vtd.DevFun | hypervisor/include/arch/x86/vtd.h:532 | device in bits 7:3, function in bits 2:0, below 0x100 |
| Vtd.DevFunRoundTrip | hypervisor/include/arch/x86/vtd.h:532 | every 8-bit devfn decodes and re-encodes to itself |
| Cycles.UsToCycles | hypervisor/common/cycles.c:10-13 | the result is the exact floor of us times the frequency over 1000: 1000·r ≤ us·freq < 1000·r + 1000, the 64-bit product never wrapping |
| Cycles.ProductFits | hypervisor/common/cycles.c:12 | the product of two 32-bit values is below 2^64, so the widening multiplication is exact |
| Cycles.CyclesToUs | hypervisor/common/cycles.c:15-24 | zero when the frequency is zero; otherwise the floor of (ticks·1000 mod 2^64) over the frequency |
| Cycles.CyclesToMs | hypervisor/common/cycles.c:26-29 | r·freq ≤ ticks < r·freq + freq, the floor of ticks over the frequency in kHz |
| Cycles.UsToCyclesMonotone | hypervisor/common/cycles.c:10-13 | a longer delay never converts to fewer cycles |
| Cycles.CyclesRoundTripBelow | hypervisor/common/cycles.c:10-24 | converting microseconds to cycles and back never gives more microseconds than went in |
| Cycles.CyclesToUsWrapsBack | hypervisor/common/cycles.c:20 | at 2 GHz one more cycle past 18446744073709551 makes the conversion drop from 9223372036854 us to 0 |
| Cycles.CyclesToUsUnwrapped | hypervisor/common/cycles.c:15-24 | zero for a zero frequency, otherwise the exact floor of ticks·1000 over the frequency with no wrap |
| Cycles.CyclesToUsUnwrappedMonotone | hypervisor/common/cycles.c:15-24 | the unwrapped conversion never decreases as ticks grow |
| Cycles.CyclesToUsAgreesBelowWrap | hypervisor/common/cycles.c:20 | while ticks·1000 stays below 2^64 the conversion as written equals the unwrapped one |
| Timecount.UsToTicks | hypervisor/common/timecount.c:10-13 | the result is the exact floor of us times the frequency over 1000, the 64-bit product never wrapping |
| Timecount.TicksToUs | hypervisor/common/timecount.c:15-24 | zero when the frequency is zero; otherwise the floor of (ticks·1000 mod 2^64) over the frequency |
| Timecount.TicksToMs | hypervisor/common/timecount.c:26-29 | r·freq ≤ ticks < r·freq + freq, the floor of ticks over the frequency in kHz |
| Timecount.UsToTicksMonotone | hypervisor/common/timecount.c:10-13 | a longer delay never converts to fewer ticks |
| Timecount.TicksRoundTripBelow | hypervisor/common/timecount.c:10-24 | converting microseconds to ticks and back never gives more microseconds than went in |
| Timer.InsertPos | hypervisor/common/timer.c:51-60 | the insertion point has only strictly earlier deadlines before it and, if it is not the end, a deadline no earlier than the new one at it |
| Timer.InsertPosUnique | hypervisor/common/timer.c:51-60 | any position with those two properties is the insertion point |
| Timer.InsertAt | hypervisor/common/timer.c:62 | the list after insertion is one longer: the old timers before the insertion point, the new timer at it, the old timers shifted one place after it |
| Timer.InsertSorted | hypervisor/common/timer.c:44-62 | linking a timer keeps the list in deadline order |
| Timer.InsertDistinct | hypervisor/common/timer.c:77 | linking a timer that is not started keeps the ids on the list distinct |
| Timer.InsertStarted | hypervisor/common/timer.c:62 | after linking, a timer is started exactly when it was started before or is the new one |
| Timer.InsertValid | hypervisor/common/timer.c:44-65 | linking a timer that is not started keeps the list ordered with distinct ids, grows it by one and starts exactly the new timer |
| Timer.Remove | hypervisor/common/timer.c:101-110 | unlinking never makes the list longer |
| Timer.RemoveAt | hypervisor/common/timer.c:106-108 | with distinct ids, unlinking the timer at position i cuts out exactly that element |
| Timer.RemoveAbsent | hypervisor/common/timer.c:106 | unlinking a timer that is not started leaves the list as it was |
| Timer.RemoveStarted | hypervisor/common/timer.c:101-110 | after unlinking, a timer is started exactly when it was started before and is not the one unlinked |
| Timer.RemoveIdempotent | hypervisor/common/timer.c:101-110 | deleting a timer twice is deleting it once |
| Timer.CutValid | hypervisor/common/timer.c:107 | cutting one timer out keeps the list ordered with distinct ids and leaves that timer not started |
| Timer.SoftirqBound | hypervisor/common/timer.c:125-141 | a walk with n tries runs at most n - 1 callbacks, so timer_softirq runs at most 31 |
| Timer.SoftirqValid | hypervisor/common/timer.c:137-154 | the walk, with its unlinking and periodic re-linking, keeps the list ordered with distinct ids |
| Timer.DuePrefix | hypervisor/common/timer.c:141 | the count of leading timers that are due: all before it are due and the next one is not |
| Timer.SoftirqOneShot | hypervisor/common/timer.c:137-154 | with only one-shot timers the walk fires the due prefix in list order, capped at tries - 1 timers, and leaves exactly the rest on the list |
| Timer.Clamped | hypervisor/common/timer.c:79-82 | a periodic timer's period becomes the larger of its own and MIN_TIMER_PERIOD_US in cycles; a one-shot timer and every other field are unchanged |
| Timer.CpuTimers.constructor | hypervisor/common/timer.c:112-118 | init_percpu_timer starts with an empty timer list and nothing programmed |
| Timer.CpuTimers.LocalAdd | hypervisor/common/timer.c:44-65 | the timer is linked at its insertion point, the list stays ordered with distinct ids, and the result is true exactly when it became the head |
| Timer.CpuTimers.UpdatePhysicalTimer | hypervisor/common/timer.c:27-39 | the head's deadline is programmed when the list is not empty; otherwise the programmed deadline is unchanged |
| Timer.CpuTimers.AddTimer | hypervisor/common/timer.c:67-99 | -EINVAL, with nothing changed, exactly for a missing timer, callback or deadline; otherwise the clamped timer is linked in order and the hardware is reprogrammed exactly when it became the head |
| Timer.CpuTimers.DelTimer | hypervisor/common/timer.c:101-110 | the timer, if given, is unlinked and no longer started; every other timer keeps its started state and the list stays ordered |
| Timer.CpuTimers.Expire | hypervisor/common/timer.c:142-150 | the due timer is unlinked, its callback reported, a periodic one re-linked one period later (modulo 2^64), and the saved successor followed |
| Timer.CpuTimers.Turn | hypervisor/common/timer.c:140-153 | one try is spent; a due timer with tries left is expired, otherwise the walk stops with the list unchanged |
| Timer.CpuTimers.Softirq | hypervisor/common/timer.c:120-158 | the callbacks run and the new list are those of the walk from the head with 32 tries, the list stays ordered, and the new head's deadline is programmed |
| Timer.CpuTimers.Walk | hypervisor/common/timer.c:137-154 | the list_for_each_safe loop yields exactly the callbacks and final list of the walk from the head with 32 tries |
| IoapicRte.WithMask | hypervisor/arch/x86/ioapic_irq.c:96 | writing intr_mask sets bit 16 to the mask value and keeps every other bit of the entry |
| IoapicRte.WithTriggerMode | hypervisor/arch/x86/ioapic_irq.c:97 | writing trigger_mode sets bit 15 and keeps every other bit |
| IoapicRte.WithPolarity | hypervisor/arch/x86/ioapic_irq.c:103 | writing intr_polarity sets bit 13 and keeps every other bit |
| IoapicRte.WithDestMode | hypervisor/arch/x86/ioapic_irq.c:98 | writing dest_mode sets bit 11 and keeps every other bit |
| IoapicRte.WithDeliveryMode | hypervisor/arch/x86/ioapic_irq.c:99 | writing delivery_mode sets bits 8-10 and keeps every other bit |
| IoapicRte.WithVector | hypervisor/arch/x86/ioapic_irq.c:100 | writing vector sets bits 0-7 and keeps every other bit |
| IoapicRte.WithDestField | hypervisor/arch/x86/ioapic_irq.c:106 | writing dest_field sets bits 56-63 and keeps every other bit |
| IoapicRte.MaskUnmaskRoundTrip | hypervisor/arch/x86/ioapic_irq.c:237-241 | masking and then unmasking an entry whose mask bit was clear gives back the same entry |
| IoapicRte.ComposeRte | hypervisor/arch/x86/ioapic_irq.c:95-106 | an entry built from zero reads back each field written, truncated to its width, with delivery status, remote IRR and the reserved bits zero |
| IoapicRte.MaskedRteIsMasked | hypervisor/arch/x86/ioapic.c:115-116 | the entry written to every pin at init is zero except for a set mask bit |
| IoapicIrq.LegacyTriggerOnlyNine | hypervisor/arch/x86/ioapic_irq.c:19-36 | in the legacy trigger table only IRQ 9 is level-triggered; the other fifteen are edge-triggered |
| IoapicIrq.GetPicPin | hypervisor/arch/x86/ioapic_irq.c:57-64 | a legacy pin maps to a legacy pin; any pin from 16 up gives INVALID_INTERRUPT_PIN |
| IoapicIrq.PinMapInvolution | hypervisor/arch/x86/ioapic_irq.c:38-55 | the map swaps pins 0 and 2, fixes every other legacy pin, and so is its own inverse |
| IoapicIrq.CreateRteForLegacyIrq | hypervisor/arch/x86/ioapic_irq.c:85-109 | the legacy entry is masked, active high, has the table's trigger mode, logical lowest-priority delivery, the given vector and destination 1 |
| IoapicIrq.CreateRteForGsiIrq | hypervisor/arch/x86/ioapic_irq.c:111-136 | below 16 it is the legacy entry; from 16 up it is masked, level-triggered and active high with ALL_CPUS_MASK cut to eight bits as destination |
| IoapicIrq.GsiRteLevel | hypervisor/arch/x86/ioapic_irq.c:147-151 | a GSI's entry is level-triggered exactly when the GSI is 9 or not a legacy one, which is what set_irq_trigger_mode is told |
| IoapicIrq.GsiTable.IoapicIrqOfGsi | hypervisor/arch/x86/ioapic_irq.c:190-223 | the IRQ of a GSI is an I/O APIC IRQ exactly when the GSI is below NR_MAX_GSI and marked valid in the table |
| IoapicIrq.GsiTable.constructor | hypervisor/arch/x86/ioapic_irq.c:16-17 | the static GSI table starts with no GSI valid and no base mapped, and ioapic_max_nr_gsi zero |
| IoapicIrq.GsiTable.MaskUnmask | hypervisor/arch/x86/ioapic_irq.c:225-248 | only the mask bit of the GSI's own redirection entry changes; nothing changes when its I/O APIC base is NULL |
| IoapicIrq.GsiTable.SetRouting | hypervisor/arch/x86/ioapic_irq.c:138-156 | the GSI's pin gets the entry create_rte_for_gsi_irq builds, no other pin changes, and the result says level-triggered exactly for GSI 9 and the non-legacy ones |
| IoapicIrq.GsiTable.SetupPin | hypervisor/arch/x86/ioapic_irq.c:284-313 | one pin of the walk: the GSI's table entry is recorded (when the GSI fits the table), a vector is allocated for a reserved legacy GSI, and the pin is routed unless reservation or allocation failed |
| IoapicIrq.GsiTable.RoutePin | hypervisor/arch/x86/ioapic_irq.c:291-312 | a GSI whose IRQ number cannot be reserved is skipped; a legacy one gets a vector first; the rest are routed with vector 0 |
| IoapicIrq.GsiTable.RouteLegacy | hypervisor/arch/x86/ioapic_irq.c:301-312 | a legacy GSI is routed with the vector alloc_irq_vector gives it, or left unrouted when that fails |
| IoapicIrq.GsiTable.SetupPins | hypervisor/arch/x86/ioapic_irq.c:280-314 | the walk over one I/O APIC's pins changes the GSI table, vector tables and entries exactly as the per-pin steps do, ending at gsi_base + nr_pins |
| IoapicIrq.GsiTable.SetupIrqs | hypervisor/arch/x86/ioapic_irq.c:269-319 | the GSI table, vector tables and entries change exactly as the walk over every pin of every I/O APIC, and ioapic_max_nr_gsi is the GSI after the last pin of the last I/O APIC |
| IoapicIrq.NoWrites | hypervisor/arch/x86/ioapic_irq.c:269-273 | before the walk no pin is planned to be written |
| IoapicIrq.Render | hypervisor/arch/x86/ioapic_irq.c:145 | the entries after a plan hold the planned entry at each written pin and the old entry elsewhere |
| IoapicIrq.StepEntries | hypervisor/arch/x86/ioapic_irq.c:285-289 | the step for a pin records its GSI's entry only when the GSI fits the table, and never changes the table's size |
| IoapicIrq.RenderStep | hypervisor/arch/x86/ioapic_irq.c:312 | writing one step's entry to the rendered entries is rendering the plan with that step added |
| IoapicIrq.RenderNothing | hypervisor/arch/x86/ioapic_irq.c:269-273 | rendering the plan before the walk changes no entry |
| IoapicIrq.StepPlanAt | hypervisor/arch/x86/ioapic_irq.c:312 | one step writes the pin it routes and no other pin |
| IoapicIrq.TablesWalkLegacy | hypervisor/arch/x86/ioapic_irq.c:298-310 | the walk over a run of pins allocates vectors, in pin order, exactly for the legacy GSIs among them whose reservation succeeded |
| IoapicIrq.PinsWalkStep | hypervisor/arch/x86/ioapic_irq.c:284-314 | the state after one more pin's step is the walk one pin further |
| IoapicIrq.StepKeeps | hypervisor/arch/x86/ioapic_irq.c:292-310 | the step for one GSI keeps every other GSI's routing status and vector |
| IoapicIrq.PinsWalkEntries | hypervisor/arch/x86/ioapic_irq.c:284-289 | the walk over n pins records each pin's GSI entry and changes no other GSI's entry |
| IoapicIrq.PinsWalkPlanAt | hypervisor/arch/x86/ioapic_irq.c:284-314 | after n pins, a pin whose GSI ended routed is written with that GSI and its final vector, every other pin is untouched |
| IoapicIrq.SetupWalkEntries | hypervisor/arch/x86/ioapic_irq.c:275-315 | after the whole walk every pin's GSI entry carries the I/O APIC's id, a base, the pin and the I/O APIC's index; GSIs outside every I/O APIC's range are unchanged |
| IoapicIrq.SetupValidGsis | hypervisor/arch/x86/ioapic_irq.c:285 | from the zero-filled table, the walk marks valid exactly the GSIs that lie in some I/O APIC's pin range |
| IoapicIrq.SetupWalkTables | hypervisor/arch/x86/ioapic_irq.c:298-310 | the walk's effect on the vector tables is allocation for the reserved legacy GSIs, in walk order |
| IoapicIrq.SetupWalkRows | hypervisor/arch/x86/ioapic_irq.c:275-315 | after the walk, every pin whose GSI is routed holds that GSI's entry with its final vector and every other pin keeps its entry |
| IoapicIrq.PinsWalkRows | hypervisor/arch/x86/ioapic_irq.c:284-314 | the same for the pins of one I/O APIC |
| IoapicIrq.SetupWriteIndexEscapes | hypervisor/arch/x86/ioapic_irq.c:283-285 | an I/O APIC with GSI base NR_MAX_GSI passes init_ioapic_id_info's checks, and the walk then writes gsi_table_data at index NR_MAX_GSI, past the table |
| Ioapic.NrPins | hypervisor/arch/x86/ioapic.c:39-55 | the pin count is one more than bits 23:16 of the version register, so between 1 and 256 |
| Ioapic.NrPinsField | hypervisor/arch/x86/ioapic.c:51 | two version registers with the same bits 23:16 give the same pin count |
| Ioapic.FirstOversized | hypervisor/arch/x86/ioapic.c:73-87 | the index of the first I/O APIC with more pins than CONFIG_MAX_IOAPIC_LINES: all before it fit, it does not (or it is the end) |
| Ioapic.TotalPinsAppend | hypervisor/arch/x86/ioapic.c:79 | the running GSI count grows by each accepted I/O APIC's pin count |
| Ioapic.AcceptableIff | hypervisor/arch/x86/ioapic.c:57-108 | a platform is accepted exactly when it has at most CONFIG_MAX_IOAPIC_NUM I/O APICs, each fits the pin limit, and together they have at least the 16 legacy pins |
| Ioapic.CellsSplit | hypervisor/arch/x86/ioapic.c:16 | every (I/O APIC, pin) pair has its own place in the flat table and every place belongs to one pair |
| Ioapic.Ioapics.Rtes | hypervisor/arch/x86/ioapic.c:16 | the flat view holds at each pair's place that pair's redirection entry |
| Ioapic.Ioapics.constructor | hypervisor/arch/x86/ioapic.c:16-20 | the static state: no I/O APIC recorded, tables of the configured size |
| Ioapic.Ioapics.InitIdInfo | hypervisor/arch/x86/ioapic.c:57-108 | -EINVAL or 0, and 0 exactly for an acceptable platform; the MADT's id, address and GSI base are recorded, and each I/O APIC before the first oversized one gets its pin count |
| Ioapic.Ioapics.InitIoapic | hypervisor/arch/x86/ioapic.c:110-132 | every pin of every recorded I/O APIC gets the entry with only the mask bit set; no other place changes |
| Ioapic.Ioapics.Suspend | hypervisor/arch/x86/ioapic.c:134-148 | every pin's entry is saved in its own place of saved_rte; no other saved place changes |
| Ioapic.Ioapics.Resume | hypervisor/arch/x86/ioapic.c:150-164 | every pin gets back its saved entry; no other place changes |
| Ioapic.Ioapics.SuspendResume | hypervisor/arch/x86/ioapic.c:134-164 | a suspend followed by a resume leaves every redirection entry as it was |
| Irq.AllocatedIffBound | hypervisor/arch/x86/irq.c:272-289 | with consistent tables an IRQ in range is allocated exactly when its vector is not VECTOR_INVALID |
| Irq.FirstFreeVector | hypervisor/arch/x86/irq.c:70-77 | the result is the lowest vector from the start point up to VECTOR_DYNAMIC_END that no IRQ holds, or one past the range when every vector there is taken |
| Irq.AllocVectorBinds | hypervisor/arch/x86/irq.c:45-87 | a result other than VECTOR_INVALID is a vector bound to the IRQ in both tables; VECTOR_INVALID leaves the tables unchanged; the result is valid exactly when the IRQ ends up allocated |
| Irq.AllocVectorFirstFit | hypervisor/arch/x86/irq.c:64-80 | a fresh binding takes the lowest free vector of the dynamic range, and allocation fails exactly when every dynamic vector is taken |
| Irq.AllocVectorConsistent | hypervisor/arch/x86/irq.c:72-75 | allocation keeps the forward and inverse tables consistent |
| Irq.AllocVectorOthers | hypervisor/arch/x86/irq.c:72-75 | allocation for one IRQ leaves every other IRQ's vector and allocation status alone |
| Irq.FreeVectorReleases | hypervisor/arch/x86/irq.c:108-130 | a device IRQ below the fixed range loses its vector and is no longer allocated; legacy IRQs, out-of-range IRQs and fixed vectors are left alone; freeing twice is freeing once |
| Irq.FreeVectorConsistent | hypervisor/arch/x86/irq.c:119-126 | release keeps the forward and inverse tables consistent |
| Irq.AllocFreeRoundTrip | hypervisor/arch/x86/irq.c:45-130 | freeing the vector that allocation just bound to an unbound device IRQ restores both tables |
| Irq.StaticMapping | hypervisor/arch/x86/irq.c:27-37 | every static binding pairs an IRQ in range with a vector of the fixed range |
| Irq.StaticMappingsDistinct | hypervisor/arch/x86/irq.c:27-37 | no two static bindings share an IRQ or a vector |
| Irq.DispatchConsistent | hypervisor/arch/x86/irq.c:189-218 | with consistent tables a vector bound to an IRQ reaches do_irq for that IRQ, which is allocated, and any other vector is spurious; none is ignored |
| Irq.UnmaskIffMaskedNotPassthrough | hypervisor/arch/x86/irq.c:141-154 | an interrupt needs unmasking exactly when it needed masking and is not pass-through, so a pass-through line stays masked |
| Irq.IrqVectors.constructor | hypervisor/arch/x86/irq.c:23-37 | the static mapping list holds the three fixed bindings and empty posted-interrupt slots |
| Irq.IrqVectors.InitIrqDescs | hypervisor/arch/x86/irq.c:294-330 | every posted-interrupt slot is filled, exactly the static bindings are present in both tables, every other entry is invalid, and the tables are consistent |
| Irq.IrqVectors.InitConsistent | hypervisor/arch/x86/irq.c:312-329 | tables holding exactly the static bindings are consistent |
| Irq.IrqVectors.Alloc | hypervisor/arch/x86/irq.c:45-87 | the vector returned and the new tables are those of alloc_irq_vector on the old tables |
| Irq.IrqVectors.IrqToVector | hypervisor/arch/x86/irq.c:89-101 | with consistent tables the result is a vector or VECTOR_INVALID, and a vector means the IRQ is allocated |
| Irq.IrqVectors.RequestIrqArch | hypervisor/arch/x86/irq.c:103-106 | success exactly when allocation gives a vector, with allocation's effect on the tables |
| Irq.IrqVectors.FreeIrqArch | hypervisor/arch/x86/irq.c:132-139 | the tables change exactly as free_irq_vector describes |
| Irq.IrqVectors.DispatchInterrupt | hypervisor/arch/x86/irq.c:189-218 | the outcome is that of the dispatch rule on the tables, and the spurious count grows by one exactly for a spurious vector |
| Irq.IrqVectors.HandleSpurious | hypervisor/arch/x86/irq.c:176-187 | the spurious count grows by one and the registered handler, if any, is called |
| PtirqHdr.DelayTimer | hypervisor/common/ptirq.c:180-181 | a record's delay timer is one-shot with the delay callback, keyed by the record's slot, and carries the record's deadline |
| PtIrq.FirstClear | hypervisor/common/ptirq.c:21-32 | the lowest clear slot of the bitmap: every slot before it is set and it is clear, or it is the size when all are set |
| PtIrq.Without | hypervisor/common/ptirq.c:49 | unlinking a record leaves exactly the other queued records, never a longer queue |
| PtIrq.WithoutDistinct | hypervisor/common/ptirq.c:49 | unlinking keeps a queue without repetitions |
| PtIrq.DistinctCons | hypervisor/common/ptirq.c:41-54 | a record not queued can join the queue at the head without repetition |
| PtIrq.DistinctSnoc | hypervisor/common/ptirq.c:51 | a record not queued can join the queue at the tail without repetition |
| PtIrq.WithoutAbsent | hypervisor/common/ptirq.c:49 | unlinking a record that is not queued changes nothing |
| PtIrq.WithoutAppend | hypervisor/common/ptirq.c:49 | unlinking from a joined queue unlinks from each part |
| PtIrq.EnqueueOnce | hypervisor/common/ptirq.c:41-54 | after enq_softirq the record is queued exactly once, at the tail, the other records keep their membership and order, and a queue without repetition stays so |
| PtIrq.EnqueueIdempotent | hypervisor/common/ptirq.c:48-51 | enqueuing a record that was just enqueued changes nothing |
| PtIrq.FirstDue | hypervisor/common/ptirq.c:103-118 | the position of the first queued record that is due (service VM or delay expired): none before it is due |
| PtIrq.FirstDueAt | hypervisor/common/ptirq.c:103-118 | any position with no due record before it and a due one at it is the first due position |
| PtIrq.ParkAppend | hypervisor/common/ptirq.c:115 | parking two runs of records in turn is parking their concatenation |
| PtIrq.ParkValid | hypervisor/common/ptirq.c:115 | parking distinct records that are not started keeps the timer list ordered with distinct ids and starts exactly those records |
| PtIrq.FiltersMembers | hypervisor/common/ptirq.c:103-133 | a queued record is handed over exactly when it is due and active, and parked exactly when it is not due |
| PtIrq.DeliveredAppend | hypervisor/common/ptirq.c:128-133 | the records handed over from a joined queue are those of each part in turn |
| PtIrq.ParkedAppend | hypervisor/common/ptirq.c:103-118 | the records parked from a joined queue are those of each part in turn |
| PtIrq.FiltersNotDue | hypervisor/common/ptirq.c:113-116 | a run with no due record is parked whole and nothing from it is handed over |
| PtIrq.DeqSplit | hypervisor/common/ptirq.c:103-121 | a deq_softirq that stops at a due record parks the run before it, hands over that record when active, and leaves the rest of the queue |
| PtIrq.Pending | hypervisor/common/ptirq.c:128-133 | the record deq_softirq returned is handed over only when it is present and active |
| PtIrq.SoftirqTurn | hypervisor/common/ptirq.c:128-133 | one deq_softirq call in the loop moves the skipped run to the parked side and the returned record to the handed-over side |
| PtIrq.ParkStep | hypervisor/common/ptirq.c:115 | one add_timer in deq_softirq extends the parked run by one record |
| PtIrq.DistinctHead | hypervisor/common/ptirq.c:103-107 | a record at the head of the remaining queue was not among the records taken before it |
| PtIrq.ParkPrefix | hypervisor/common/ptirq.c:103-117 | before each turn of deq_softirq's loop the timer list is well formed and the head's delay timer is not running |
| PtIrq.PrefixDistinct | hypervisor/common/ptirq.c:103-117 | the records taken so far are distinct |
| PtIrq.DeqStart | hypervisor/common/ptirq.c:96-103 | the queue deq_softirq starts from has no repetition and holds only active records whose delay timer is not running |
| PtIrq.DeqValid | hypervisor/common/ptirq.c:96-121 | after deq_softirq the table invariant holds over the remaining queue and the timers, with the parked records started |
| PtIrq.DeqEnd | hypervisor/common/ptirq.c:103-121 | deq_softirq returns the first due record (none when the queue ran out), leaves the queue past it, and keeps the table invariant over the parked timers |
| PtIrq.FillValid | hypervisor/common/ptirq.c:169-194 | filling a free slot with a record of its own slot and owner and no deadline keeps the table invariant |
| PtIrq.FreeValid | hypervisor/common/ptirq.c:202-216 | a record going inactive, leaving the queue and the timer list and freeing its slot keeps the table invariant |
| PtIrq.PtIrqTable.constructor | hypervisor/common/ptirq.c:18-19 | the zero-filled static table: no record active, no slot set, an empty softirq queue |
| PtIrq.PtIrqTable.AllocId | hypervisor/common/ptirq.c:21-32 | the lowest clear slot is set and returned; with every slot set the result is INVALID_PTDEV_ENTRY_ID and nothing changes |
| PtIrq.PtIrqTable.FreeId | hypervisor/common/ptirq.c:34-39 | the slot's bit is cleared; an id outside the table changes nothing |
| PtIrq.PtIrqTable.Request | hypervisor/common/ptirq.c:160-200 | without a free slot -EINVAL and nothing changes; otherwise the slot is zeroed and filled, the result is request_irq's, a failure frees the slot again, and success makes the record active with the granted IRQ |
| PtIrq.PtIrqTable.Free | hypervisor/common/ptirq.c:202-216 | an active record goes inactive, its IRQ is released, it leaves the queue and the timer list, and its slot is freed; a missing or inactive record is left alone, so freeing twice is freeing once |
| PtIrq.PtIrqTable.EnqSoftirq | hypervisor/common/ptirq.c:41-61 | the record joins the queue as enq_softirq puts it, and the table invariant holds |
| PtIrq.PtIrqTable.InterruptHandler | hypervisor/common/ptirq.c:63-94 | a service-VM record is enqueued unchanged; otherwise the count grows by one modulo 2^64, a zero delay resets the deadline and enqueues, a running delay timer swallows the interrupt, and else the deadline becomes now plus the delay and the record is enqueued |
| PtIrq.PtIrqTable.Deq | hypervisor/common/ptirq.c:96-122 | the first due record is returned (none when the queue runs out), the queue is left past it, and every record taken before it has its delay timer added, in queue order |
| PtIrq.PtIrqTable.DeqOne | hypervisor/common/ptirq.c:103-117 | one turn takes the head off the queue and parks it unless it is due |
| PtIrq.PtIrqTable.ParkOne | hypervisor/common/ptirq.c:115 | the record's delay timer is added to the timer list, which stays well formed and gains exactly that timer |
| PtIrq.PtIrqTable.Softirq | hypervisor/common/ptirq.c:124-134 | the queue ends empty, exactly the due active records are handed over in queue order, and exactly the records not yet due are parked in queue order |
| PtIrq.PtIrqTable.SoftirqOne | hypervisor/common/ptirq.c:128-133 | one loop turn keeps the split between what is done and what the remaining queue gives, and ends the loop only on an empty queue |
| PtIrq.PtIrqTable.SetVmsi | hypervisor/common/ptirq.c:136-141 | an active MSI record takes the new guest MSI; any other record is left alone |
| PtIrq.PtIrqTable.SetPolarity | hypervisor/common/ptirq.c:143-148 | an active record takes the polarity, which ptirq_get_polarity then reports; an inactive one is left alone |
| PtIrq.PtIrqTable.SetOwner | hypervisor/common/ptintr.c:198-203 | the hand-over step of the service VM's mapping and of the controller switch (hypervisor/arch/x86/ptintr.c:288-296), as the model does it with the record taking the new owner and virtual source, which corrects the record left stale in the source (see Findings): the record's VM and virtual source are replaced and nothing else changes |
| PtIrq.PtIrqTable.GetPolarity | hypervisor/common/ptirq.c:150-153 | the polarity of an active record, 0 for an inactive one |
| PtIrq.PtIrqTable.GetIrq | hypervisor/common/ptirq.c:155-158 | the physical IRQ of an active record, IRQ_INVALID for an inactive one |
| PtIrq.PtIrqTable.GetIntrData | hypervisor/common/ptirq.c:218-235 | an inactive record writes nothing and reports 0; when two words do not fit it reports -1 and writes nothing; otherwise it writes the IRQ and the count at pos, advances pos by 2 and reports 2 |
| ArchPtIrq.VioapicAssertOp | hypervisor/arch/x86/ptirq.c:29-41 | a level-triggered virtual I/O APIC line is held and an edge line pulsed, towards high exactly when the polarity is 0 |
| ArchPtIrq.VpicAssertOp | hypervisor/arch/x86/ptirq.c:55-59 | a virtual PIC line is always driven high: held when level-triggered, else a rising pulse |
| ArchPtIrq.HandleIntx | hypervisor/arch/x86/ptirq.c:12-65 | the controller named by the virtual source decides: the record's VM and virtual GSI get an I/O APIC line action that pulses exactly for a non-level vRTE and drives high exactly for polarity 0, or a PIC line action that pulses exactly when not level and always drives high; any other controller gets nothing |
| ArchPtIrq.SoftirqArch | hypervisor/arch/x86/ptirq.c:67-86 | an INTx record never injects an MSI; any other record injects exactly its cached guest MSI address and data into its VM |
| ArchPtIrq.GetIrqArch | hypervisor/arch/x86/ptirq.c:88-97 | an MSI source asks for IRQ_INVALID; an INTx source asks for the IRQ numbered like its physical GSI, which rebuilds the source id |
| ArchPtIrq.GetIrqArchIntx | hypervisor/arch/x86/ptirq.c:92-94 | the IRQ of an INTx source is its GSI, whichever controller the source names |
| ArchPtIrq.IntxAckArch | hypervisor/arch/x86/ptirq.c:99-125 | an inactive record does nothing; an active one holds its virtual line (I/O APIC: high exactly for non-zero polarity; PIC: low) and unmasks its physical IRQ |
| ArchPtIrq.AckReleasesLine | hypervisor/arch/x86/ptirq.c:29-34 | for a level-triggered line the acknowledgement holds the same line of the same VM and controller at the opposite level to the one the delivery asserted |
| ArchPtIntr.Pow2 | hypervisor/arch/x86/ptintr.c:54 | 1UL << j is positive |
| ArchPtIntr.FfsFrom | hypervisor/arch/x86/ptintr.c:68-72 | the lowest set bit at or above i, with no set bit between i and it, or INVALID_BIT_INDEX when none of bits i to 63 is set |
| ArchPtIntr.Ffs64 | hypervisor/arch/x86/ptintr.c:51 | ffs64: the lowest set bit with none below it, or INVALID_BIT_INDEX for a word with no bit set |
| ArchPtIntr.ClearBit | hypervisor/arch/x86/ptintr.c:70 | bitmap_clear_nolock: exactly bit k is cleared, every other bit is kept, and the value does not grow |
| ArchPtIntr.ClearDigit | hypervisor/arch/x86/ptintr.c:70 | clearing a binary digit does not grow the value |
| ArchPtIntr.ClearBitDigits | hypervisor/arch/x86/ptintr.c:70 | clearing digit k clears bit k and keeps every other bit |
| ArchPtIntr.ClearDigitAt | hypervisor/arch/x86/ptintr.c:70 | the same, one bit position at a time |
| ArchPtIntr.Pow2Bits | hypervisor/arch/x86/ptintr.c:54 | 1UL << v has bit v set and no other |
| ArchPtIntr.ZeroBits | hypervisor/arch/x86/ptintr.c:51 | zero has no bit set |
| ArchPtIntr.LdrOrSkip | hypervisor/arch/x86/ptintr.c:69-73 | CPUs whose bit is clear add nothing to the logical destination mask |
| ArchPtIntr.LdrOrTake | hypervisor/arch/x86/ptintr.c:71 | a CPU whose bit is set ORs its logical APIC id into the mask |
| ArchPtIntr.LdrOrCovers | hypervisor/arch/x86/ptintr.c:62-75 | the mask holds the logical APIC id of every CPU in the physical mask |
| ArchPtIntr.LdrOrLeast | hypervisor/arch/x86/ptintr.c:62-75 | the mask holds nothing else: any word holding all those ids holds the mask |
| ArchPtIntr.CalculateLogicalDestMask | hypervisor/arch/x86/ptintr.c:62-75 | the loop returns the OR of the logical APIC ids of exactly the CPUs of pdmask below MAX_PCPU_NUM |
| ArchPtIntr.IsSingleDestination | hypervisor/arch/x86/ptintr.c:38-60 | a destination is reported only for a Fixed or Lowest-priority interrupt whose vCPU mask has exactly that one bit |
| ArchPtIntr.SingleDestinationExact | hypervisor/arch/x86/ptintr.c:48-57 | conversely a Fixed or Lowest-priority interrupt to exactly one vCPU reports that vCPU |
| ArchPtIntr.NormalizeDelMode | hypervisor/arch/x86/ptintr.c:104-108 | the physical delivery mode is Fixed or Lowest-priority: Fixed and Lowest-priority are kept, anything else becomes Lowest-priority |
| ArchPtIntr.DelModeCodesAgree | hypervisor/arch/x86/ptintr.c:202-205 | MSI data and I/O APIC entries use the same codes for Fixed and Lowest-priority |
| ArchPtIntr.PhysicalMsi | hypervisor/arch/x86/ptintr.c:126-154 | with an IRTE: data 0 and a remappable address with SHV 0, constant 0xFEE and the physical IRQ's index split over its two fields; without: the guest MSI with the logical-mode destination mask, RH set, the vector and the normalised delivery mode, every other bit kept |
| ArchPtIntr.RemapPolicy | hypervisor/arch/x86/ptintr.c:317-372 | nothing is programmed exactly for a LAPIC-pass-through VM in transition or with its vLAPICs disabled; posted mode (guest vector, descriptor) exactly for a PI-capable VM without LAPIC pass-through and a single destination; the guest vector also for x2APIC pass-through; the host vector in remapped mode otherwise |
| ArchPtIntr.PolarityUpdate | hypervisor/arch/x86/ptintr.c:181-192 | the record's polarity becomes 1 exactly for an active-low guest entry, and the virtual line is set high exactly on a 0 to 1 flip and low exactly on a 1 to 0 flip |
| ArchPtIntr.PolarityUpdateKeepsLineIdle | hypervisor/arch/x86/ptintr.c:181-192 | a virtual line at the old polarity's inactive level ends at the new polarity's inactive level |
| ArchPtIntr.RemappableRte | hypervisor/arch/x86/ptintr.c:224-230 | the entry in remappable format: the vector, constant 0, format bit 1 and the IRTE index split over bit 11 and bits 49-63, bits 12-47 of the guest entry kept |
| ArchPtIntr.CompatibleRte | hypervisor/arch/x86/ptintr.c:231-236 | the entry in compatibility format: logical destination mode, the delivery mode, the vector and the low byte of the destination mask, bits 12-55 of the guest entry kept |
| ArchPtIntr.PhysicalRte | hypervisor/arch/x86/ptintr.c:178-236 | with an IRTE the guest entry in remappable format pointing at the physical IRQ's index; without, the guest entry in compatibility format with the normalised delivery mode, the host vector and the destination mask; the guest's polarity, trigger mode and mask kept either way |
| ArchPtIntr.PicRte | hypervisor/arch/x86/ptintr.c:243-253 | a PIC-routed pin's entry is level-triggered exactly when the virtual PIC has the line level-triggered |
| ArchPtIntr.PicRteKeepsOtherBits | hypervisor/arch/x86/ptintr.c:247-249 | every other bit of that entry is the physical entry's |
| ArchPtIntr.ActivateSteps | hypervisor/arch/x86/ptintr.c:386-414 | the pin is masked first, the IRQ takes the entry's trigger mode, the entry is written masked, and the pin is unmasked last exactly when the built entry was unmasked |
| ArchPtIntr.ActivateInstallsRte | hypervisor/arch/x86/ptintr.c:386-414 | after those steps the pin holds exactly the built entry, mask bit included, whatever it held before |
| ArchPtIntr.PicActivateLeavesMasked | hypervisor/arch/x86/ptintr.c:386-410 | on a PIC-routed pin the entry build_physical_rte reads back is already masked, so activation takes three steps, never unmasks, and leaves the pin masked, with the virtual PIC's trigger mode and every other bit of its earlier entry |
| ArchPtIntr.ActivationOf | hypervisor/arch/x86/ptintr.c:386-410 | for any mapping, the activation steps of the entry build_physical_rte makes leave that entry on the pin, and a PIC-routed pin ends masked with its earlier entry's other bits |
| ArchPtIntr.RemoveSteps | hypervisor/arch/x86/ptintr.c:422-448 | an MSI mapping frees the IRTE at its requester; an INTx mapping masks its pin and then frees the IRTE at its I/O APIC, both at the physical IRQ's index |
| ArchPtIntr.BuildPhysicalMsi | hypervisor/arch/x86/ptintr.c:83-160 | the physical MSI is the one composed from the IOMMU's answer for the logical destination the loop computes and the IRTE it was asked to install |
| ArchPtIntr.RemapMsixArch | hypervisor/arch/x86/ptintr.c:317-384 | -EFAULT and the physical MSI unchanged when the policy programs nothing; otherwise 0 and the physical MSI built for the vector and descriptor the policy chooses |
| ArchPtIntr.BuildPhysicalRte | hypervisor/arch/x86/ptintr.c:162-262 | the entry, the virtual line move and the polarity to record are those the guest pin's controller calls for, with the destination mask the loop computes; a PIC-routed pin's entry is its earlier physical entry with the mask bit set, as the pin reads once activation has masked it |
| Ptintr.FirstMatch | hypervisor/common/ptintr.c:93-110 | the first slot holding an active mapping of the kind whose physical source (no VM given), or owner and virtual source, is the key; no slot before it matches; the table size when none does |
| Ptintr.Lookup | hypervisor/common/ptintr.c:85-113 | ptintr_find's answer is a matching active mapping, and there is no answer only when no mapping matches |
| Ptintr.FirstMatchAt | hypervisor/common/ptintr.c:93-110 | any slot with no match before it and a match at it is the first match |
| Ptintr.LookupUnique | hypervisor/common/ptintr.c:85-113 | under the table invariant a matching mapping is the one the lookup finds: keys are unique |
| Ptintr.Unreferenced | hypervisor/common/ptintr.c:41-49 | no active mapping uses an inactive per-IRQ record |
| Ptintr.LinkedIrqFrame | hypervisor/common/ptintr.c:41-82 | changes to the per-IRQ table that keep each active record active with its owner, kind and virtual source keep the table invariant |
| Ptintr.LinkedFill | hypervisor/common/ptintr.c:58-76 | filling a free slot with a mapping paired with its own record and apart from every other mapping keeps the table invariant |
| Ptintr.LinkedFree | hypervisor/common/ptintr.c:41-49 | deactivating a mapping together with its record and clearing its bit keeps the table invariant |
| Ptintr.LinkedRetarget | hypervisor/common/ptintr.c:198-203 | moving an active mapping and its record to a new owner and virtual source keeps the invariant when no other mapping has that key |
| Ptintr.FreedUnmapped | hypervisor/common/ptintr.c:41-49 | once a mapping is deactivated, neither its physical nor its virtual key finds a mapping |
| Ptintr.LinkedPmsi | hypervisor/arch/x86/ptintr.c:83-160 | the physical MSI a mapping keeps plays no part in the table invariant |
| Ptintr.KeepsActiveOverwrite | hypervisor/common/ptintr.c:72 | filling an inactive per-IRQ record leaves every active one as it was |
| Ptintr.SameActiveOverwrite | hypervisor/common/ptintr.c:58-73 | refilling a free slot with an inactive mapping leaves the active mappings as they were |
| Ptintr.LookupSameActive | hypervisor/common/ptintr.c:101 | lookups see only active mappings: tables with the same active mappings answer alike |
| Ptintr.AltIntxSid | hypervisor/arch/x86/ptintr.c:270-289 | the same GSI on the other controller: the I/O APIC for the PIC and the PIC for anything else, never the source itself |
| Ptintr.LinkedEmpty | hypervisor/common/ptintr.c:20-21 | a table with no active mapping and no bit set satisfies the invariant |
| Ptintr.LinkedAlloc | hypervisor/common/ptintr.c:51-82 | a successful allocation pairs the new active mapping with the record just requested and keeps the invariant, its keys having been unused |
| Ptintr.UnmapVmClears | hypervisor/common/ptintr.c:421-441 | after the sweep vm owns no active mapping, vm's mappings are deactivated and every other mapping is as it was |
| Ptintr.SweepStepsOwned | hypervisor/common/ptintr.c:429-439 | every hardware step of the sweep belongs to a mapping of vm, so none touches another VM's pin or IRTE |
| Ptintr.StatOf | hypervisor/common/ptintr.c:468-472 | a mapping reports two words, its record's IRQ and count, or none when its record is inactive |
| Ptintr.StatWordsPrefix | hypervisor/common/ptintr.c:465-474 | the report is made of whole pairs, and the report of fewer slots is a prefix of it |
| Ptintr.StatWordsCount | hypervisor/common/ptintr.c:465-474 | under the invariant the report holds one pair per active mapping of the VM |
| Ptintr.StatStopped | hypervisor/common/ptintr.c:469-471 | the walk stops at the first pair that does not fit: what was written is the longest whole-pair prefix of the report that fits the buffer |
| Ptintr.WriteTwo | hypervisor/common/ptintr.c:469-470 | writing two words just past a prefix replaces the two words after it |
| Ptintr.StatComplete | hypervisor/common/ptintr.c:465-477 | when the walk reaches the end the whole report fits in whole pairs |
| Ptintr.AllocResultAsWritten | hypervisor/common/ptintr.c:51-82 | as written, ptintr_alloc returns the slot whenever one was free, whatever ptirq_request answered |
| Ptintr.AddMsixRetAsWritten | hypervisor/common/ptintr.c:155-174 | as written, add_msix_remapping returns 0 whenever a slot was free |
| Ptintr.AllocFailureReportedAsAdded | hypervisor/common/ptintr.c:72-81 | a refused ptirq_request is reported as a successful add, while no lookup finds the physical source |
| Ptintr.TransferAsWritten | hypervisor/common/ptintr.c:198-203 | as written, the hand-over gives the mapping the new owner and virtual pin, while its record keeps the old ones and only has its polarity reset |
| Ptintr.TransferDeliversToOldOwner | hypervisor/common/ptintr.c:198-203 | after that hand-over the pair is broken and the deferred delivery still drives the service VM's virtual pin |
| Ptintr.SwitchAsWritten | hypervisor/arch/x86/ptintr.c:288-296 | as written, the controller switch gives the mapping the new virtual pin and leaves its record unchanged |
| Ptintr.SwitchDeliversToOldController | hypervisor/arch/x86/ptintr.c:288-296 | after that switch from the PIC the mapping names the I/O APIC pin while the delivery still drives the virtual PIC |
| Ptintr.PtIntrTable.constructor | hypervisor/common/ptintr.c:20-21 | the zero-filled static table: no slot allocated and no mapping active, satisfying the table invariant |
| Ptintr.PtIntrTable.Find | hypervisor/common/ptintr.c:85-113 | the slot scan returns the lookup's answer |
| Ptintr.PtIntrTable.AllocId | hypervisor/common/ptintr.c:28-39 | the lowest clear slot is marked and returned; with every slot set the result is INVALID_PTDEV_ENTRY_ID and the bitmap is unchanged |
| Ptintr.PtIntrTable.Alloc | hypervisor/common/ptintr.c:51-82 | a mapping is added at the lowest free slot exactly when a slot and a record are free and request_irq succeeds, and its IRQ is the granted one; otherwise the active mappings and the bitmap are as before; active records are never disturbed and the invariant holds |
| Ptintr.PtIntrTable.Attach | hypervisor/common/ptintr.c:59-76 | the slot is filled for the two sources; it becomes active with the requested record when the request succeeds, else it is left inactive and its bit cleared |
| Ptintr.PtIntrTable.Release | hypervisor/common/ptintr.c:73 | ptintr_free of a mapping without a record: only the slot's bit is cleared |
| Ptintr.PtIntrTable.Activate | hypervisor/common/ptintr.c:75 | the mapping becomes active and points at its record, keeping the invariant |
| Ptintr.PtIntrTable.AddMsixEntry | hypervisor/common/ptintr.c:121-146 | the mapping holding the physical MSI source is returned unchanged, whoever owns it; else nothing, with nothing changed, when vm already maps the virtual source; else a new mapping of vm in the lowest free slot exactly when a slot and a per-IRQ record are free and `request_irq` accepts, and no active change otherwise |
| Ptintr.PtIntrTable.AddMsix | hypervisor/common/ptintr.c:155-174 | 0 with nothing changed when the physical MSI source is already mapped; -ENODEV with nothing changed when vm already maps the virtual source; otherwise 0 exactly when a slot and a per-IRQ record are free and `request_irq` accepts, vm then owning the new mapping of both sources, and -ENODEV with no active change otherwise; 0 exactly when the physical source ends up mapped |
| Ptintr.PtIntrTable.Retarget | hypervisor/common/ptintr.c:200-201 | the mapping and its record both pass to the new owner and virtual source, keeping the invariant; nothing else changes |
| Ptintr.PtIntrTable.AddIntxEntry | hypervisor/common/ptintr.c:182-227 | when no mapping holds the physical pin, a new mapping of vm in the lowest free slot exactly when a slot and a per-IRQ record are free and `request_irq` accepts, and no active change otherwise; the holder's mapping, untouched, when vm holds it; handed to vm with its record's polarity reset when the service VM holds it; nothing, with nothing changed, when another VM does |
| Ptintr.PtIntrTable.Transfer | hypervisor/common/ptintr.c:198-203 | the service VM's mapping and its record pass to vm under the virtual pin, and the record's polarity returns to 0 |
| Ptintr.PtIntrTable.AddIntxArch | hypervisor/arch/x86/ptintr.c:264-308 | for the service VM and a legacy pin, vm's mapping of the same pin on the other controller is switched to the requested pin and -EACCES returned; -ENODEV with nothing changed otherwise |
| Ptintr.PtIntrTable.AddIntx | hypervisor/common/ptintr.c:232-271 | -EINVAL exactly for a virtual UART pin, with nothing changed; 0 with nothing changed when vm already maps the virtual pin; 0 with the switched mapping and record taking the virtual pin when the controller switch applies (its -EACCES becomes 0); otherwise, by the holder of the physical pin: when none, 0 exactly when a slot and a per-IRQ record are free and `request_irq` accepts, vm then owning the new mapping, and -ENODEV with no active change otherwise; 0 with nothing changed when vm holds it; 0 with the mapping and record handed to vm and the polarity reset when the service VM holds it; -ENODEV with nothing changed when another VM does |
| Ptintr.PtIntrTable.HostVector | hypervisor/arch/x86/ptintr.c:208 | irq_to_vector of the physical IRQ, read from the IRQ-to-vector table |
| Ptintr.PtIntrTable.RemapMsix | hypervisor/common/ptintr.c:292-316 | -EINVAL with nothing changed unless vm maps the virtual MSI source; else the record takes the guest MSI, and on success the mapping keeps the programmed physical MSI, which replaces the caller's, and the result is the callback's when there is one |
| Ptintr.PtIntrTable.ProgramMsi | hypervisor/arch/x86/ptintr.c:317-384 | -EFAULT and no change when nothing is programmed; otherwise 0 and the mapping keeps the physical MSI the policy builds |
| Ptintr.PtIntrTable.RemapIntx | hypervisor/common/ptintr.c:318-333 | -EINVAL with no step unless vm maps the virtual pin; else 0, the polarity the entry yields is recorded, and the activation steps write the built entry, which the pin then holds; for a pin of the virtual PIC the built entry is read back after the initial mask (hypervisor/arch/x86/ptintr.c:392, :247-248), so there are three steps, no unmask, and the pin ends masked with the virtual PIC's trigger mode and every other bit of its earlier entry |
| Ptintr.PtIntrTable.ActivateIntx | hypervisor/arch/x86/ptintr.c:386-416 | ptintr_remap_intx_arch for a mapping: the steps write the built entry, which the pin then holds whatever it held, the polarity it yields is recorded, and a pin of the virtual PIC is left masked with the virtual PIC's trigger mode and the other bits of its earlier entry |
| Ptintr.PtIntrTable.BuildRte | hypervisor/arch/x86/ptintr.c:162-262 | the entry build_physical_rte makes from the record's IRQ, its bound vector and its polarity, and the record's polarity replaced exactly when the guest pin's polarity step calls for it, with nothing else changed |
| Ptintr.PtIntrTable.FreeEntry | hypervisor/common/ptintr.c:41-49 | the mapping goes inactive, its record is freed and its IRQ released, and its bit is cleared; nothing else changes |
| Ptintr.PtIntrTable.RemoveEntry | hypervisor/common/ptintr.c:354-389 | the arch removal steps with the record's IRQ, then ptintr_free; neither key of the mapping finds anything afterwards |
| Ptintr.PtIntrTable.RemoveMsix | hypervisor/common/ptintr.c:366-378 | the mapping holding the physical MSI source is removed only when vm owns it, after which the source is unmapped; otherwise no step and nothing changes |
| Ptintr.PtIntrTable.RemoveIntx | hypervisor/common/ptintr.c:392-404 | vm's mapping of the virtual pin, if any, is removed with its steps; afterwards vm maps the pin no more |
| Ptintr.PtIntrTable.RemoveAndUnmap | hypervisor/common/ptintr.c:406-419 | the MSI or INTx removal the arguments name, with one step for an MSI and two for an INTx removal; nothing for any other kind |
| Ptintr.PtIntrTable.RemoveAndUnmapVm | hypervisor/common/ptintr.c:421-441 | every slot in order: the table ends as the sweep of vm's mappings leaves it and the steps are those of the removals in slot order |
| Ptintr.PtIntrTable.SweepSlot | hypervisor/common/ptintr.c:430-438 | one turn of the sweep removes slot i exactly when vm owns it, and leaves every later record's IRQ as it was |
| Ptintr.PtIntrTable.IntxAck | hypervisor/common/ptintr.c:443-455 | nothing without vm's mapping of the virtual pin; otherwise the arch acknowledgement of its record, which moves that pin of vm's matching controller and unmasks the mapping's IRQ |
| Ptintr.PtIntrTable.GetIntrData | hypervisor/common/ptintr.c:457-478 | the VM's [IRQ, count] pairs in slot order are written from the buffer's start while whole pairs fit, the rest of the buffer is left alone, and the number of words written is returned |
| Ptintr.StatWordsBound | hypervisor/common/ptintr.c:466-473 | the report over the first hi slots has at most 2·hi words, so the word position stays at most 512 and `*pos + 2U` cannot wrap |
| Ptintr.PtIntrTable.StatSlot | hypervisor/common/ptintr.c:466-473 | one turn writes slot i's pair after the words so far when the VM owns it and it fits, and stops with nothing written when it does not fit |
| Ptintr.PtIntrTable.Add | hypervisor/common/ptintr.c:273-290 | for MSI arguments, every outcome of `add_msix_remapping` as stated for AddMsix; for INTx arguments, every outcome of `add_intx_remapping` as stated for AddIntx; -EINVAL with nothing changed for any other kind; a failure changes no active mapping |
| Ptintr.PtIntrTable.Remap | hypervisor/common/ptintr.c:335-352 | the MSI or INTx remap the arguments name; -EINVAL with nothing changed for any other kind; an INTx remap succeeds exactly when vm maps the pin and changes no mapping |

## Left out

- Locks, per-CPU variables and interrupt disabling: one CPU is modelled, and each locked or interrupts-off region is one atomic method. Cross-core races are not modelled.
- The hash chains of `ptintr_find` (`phys_link`/`virt_link` and `hash64`): a lookup is the first active mapping of the kind whose key matches. The "FIXME bug" at hypervisor/common/ptintr.c:94 walks a bucket through the wrong link field. Whether a bucket links a mapping under the right key is therefore not modelled.
- The missing re-insertions after an ownership or controller change are not modelled either. They are the FIXMEs at hypervisor/common/ptintr.c:202 and :265 and at hypervisor/arch/x86/ptintr.c:295. Without hash chains, a lookup by the new virtual source always succeeds.
- MMIO, port and MSR access: redirection entries are arrays or values that the methods read and write, and the version register is an input. The hardware deadline is written to a field, which stands in for `set_hw_timeout`.
- Calls into code that is not part of the core become parameters or returned steps. These are `request_irq`, `free_irq`, `reserve_irq_num`, `iommu_ir_assign_irte`/`iommu_ir_free_irte`, `vlapic_*`, `vioapic_*`/`vpic_*`, `vcpumask2pcpumask`, `is_vuart_intx`, `is_pi_capable`, `get_cpu_cycles` and `get_cpu_freq`. `set_irq_trigger_mode` is a `SetTriggerMode` step of activation. Its call from `ioapic_set_routing` (hypervisor/arch/x86/ioapic_irq.c:147-151) is the level that `IoapicIrq.GsiTable.SetRouting` returns. `RoutePin` and `SetupIrqs` drop that level, because the IRQ layer's trigger flags are not part of this model. `ptirq_free`'s call of `free_irq` is reported only as the IRQ it releases.
- PtIrq.PtIrqTable.Deq: reads the clock once. The source calls `timer_expired` afresh in every turn of the loop (hypervisor/common/ptirq.c:110-111), so a record that falls due during the drain is here parked rather than returned.
- PtIrq.PtIrqTable.Softirq: the whole drain, through DeqOne and each `deq_softirq` call after a delivery (hypervisor/common/ptirq.c:124-134), sees one clock value. A nondecreasing clock read in each turn is not modelled.
- PtIrq.PtIrqTable.InterruptHandler: a record holds a copy of its VM's value rather than a reference to the VM, so the delay it reads as `irq->vm->intr_inject_delay_delta` (hypervisor/common/ptirq.c:77, :84) is the one recorded when the record was set up or handed over. A later change to the VM's delay is not seen.
- Timer callbacks are recorded as the ids of the timers that fired. They are assumed not to add or delete timers.
- `timer_is_started` is membership of the timer list. `timer_expired` is taken as a zero timeout or a deadline that has passed; the header that defines it is not part of this model.
- `ptirq_init`, `ptintr_init`, `ptintr_init_arch`, `timer_init` and `register_softirq` are left out: they are registration and CPU plumbing. `init_percpu_timer` is the `CpuTimers` constructor.
- IDT set-up, PIC disabling, `init_interrupt_arch`, `dispatch_exception` and `handle_nmi` are left out as boot-time or CPU plumbing.
- `pre_irq_arch`, `eoi_irq_arch` and `post_irq_arch` are kept only through their decisions `irq_need_mask` and `irq_need_unmask`. The mask or unmask they then perform is `IoapicIrq.GsiTable.MaskUnmask`.
- Simple accessors of the GSI table are read directly from it instead of being modelled. These are `get_gsi_to_ioapic_index`, `gsi_to_ioapic_base`, `get_max_nr_gsi`, `gsi_to_ioapic_pin` and `ioapic_set_rte`.
- `ioapic_get_rte` and `ioapic_irq_to_ioapic_id`, as the mapping layer calls them, are answers of `ArchPtIntr.Env`: `ioapicRte` is the physical pin's entry before activation, and `ioapicIdOf` the I/O APIC of an IRQ. The mapping layer is not connected to the `Ioapic.Ioapics` state, so nothing ties these answers to its entries. The entry read back during activation is `ioapicRte` with the mask bit set, as `ioapic_gsi_mask_irq` leaves it.
- Logging (`dev_dbg`, `pr_*`) is left out.
- The IRTE bit layout is consumed only by the IOMMU driver, which is not part of this model. The IRTE is a record of its fields (`ArchPtIntr.Irte`).
- In `ptirq_get_intr_data`, `*pos` is a `uint32_t` and `*pos + 2U` (hypervisor/common/ptirq.c:224) is modelled without wrap. It cannot wrap: the loop of `ptintr_get_intr_data` (hypervisor/common/ptintr.c:466-473) adds at most two words per slot, so `pos` never exceeds 2 · CONFIG_MAX_PT_IRQ_ENTRIES = 512 (`Ptintr.StatWordsBound`).
- Cycles.CyclesToMs: requires a non-zero frequency, because `cycles_to_ms` divides with no guard.
- Timecount.TicksToMs: requires a non-zero frequency, because `ticks_to_ms` divides with no guard.
- Timecount.TicksToUs: has the same 64-bit wrap as `cycles_to_us`. It is modelled as written; the corrected twin is `Cycles.CyclesToUsUnwrapped`, under Findings.

## Findings

| source | as written | input that shows it | evidently intended | confidence | as-written member | corrected member |
|---|---|---|---|---|---|---|
| hypervisor/common/cycles.c:20 | `ticks * 1000UL` is computed in 64 bits before the division, so the conversion wraps | frequency 2 000 000 kHz: 18 446 744 073 709 551 cycles give 9 223 372 036 854 us, one cycle more gives 0 | the floor of ticks·1000 / freq, monotone in ticks | not executed | Cycles.CyclesToUsWrapsBack | Cycles.CyclesToUsUnwrappedMonotone |
| hypervisor/arch/x86/ioapic_irq.c:283-285 | `gsi_table_data[gsi]` is written with `gsi = gsi_base + pin`, with no check against NR_MAX_GSI; `init_ioapic_id_info` checks only pin counts | one I/O APIC with GSI base NR_MAX_GSI and 24 pins passes init and is written at index NR_MAX_GSI | only GSIs below NR_MAX_GSI are recorded | not executed | IoapicIrq.SetupWriteIndexEscapes | IoapicIrq.StepEntries |
| hypervisor/common/ptintr.c:72-81 | after `ptirq_request` fails and `ptintr_free` releases the slot, `ptintr_alloc` still returns the slot, so `add_msix_remapping` returns 0; through `add_intx_entry` (hypervisor/common/ptintr.c:218-224) and the -ENODEV branch (hypervisor/common/ptintr.c:262-264) the same refused request makes `add_intx_remapping` return 0 too | MSI add on an empty table whose `request_irq` returns -EINVAL: the result is 0, while no lookup finds the source | NULL and -ENODEV when the request fails | not executed | Ptintr.AllocFailureReportedAsAdded | Ptintr.PtIntrTable.AddMsix |
| hypervisor/common/ptintr.c:198-203 | the service VM's INTx mapping passes to the new VM, but its per-IRQ record keeps the service VM and the old virtual pin, which `ptirq_softirq_arch` delivers to | the service VM holds vIOAPIC pin 5 for physical pin 5, and then a VM adds vIOAPIC pin 7: an interrupt still pulses the service VM's pin 5 | the record moves with the mapping | not executed | Ptintr.TransferDeliversToOldOwner | Ptintr.PtIntrTable.Transfer |
| hypervisor/arch/x86/ptintr.c:288-296 | the controller switch changes only the mapping's `virt_sid`, and the per-IRQ record keeps the old controller | the service VM maps vPIC pin 4, and then asks for vIOAPIC pin 4: delivery still drives the vPIC line | the record takes the new virtual pin too | not executed | Ptintr.SwitchDeliversToOldController | Ptintr.PtIntrTable.AddIntxArch |
