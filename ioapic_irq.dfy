/**
 * The GSI table of the I/O APICs (gsi_table_data[]): which GSIs exist,
 * on which I/O APIC and pin they sit, the redirection entries the
 * hypervisor builds for them, the masking of a GSI, and the boot-time
 * walk that fills the table and routes every pin.
 */
module IoapicIrq {
  import opened Types
  import opened IoapicRte
  import opened Ioapic
  import Irq

  const NR_MAX_GSI: nat := MAX_IOAPIC_NUM * MAX_IOAPIC_LINES
  /** x86/ioapic.h is not part of this model; the hypervisor's value. */
  const INVALID_INTERRUPT_PIN: nat := 0xffff_ffff

  /** legacy_irq_trigger_mode[]: only IRQ 9 (ACPI SCI) is level-triggered. */
  const LEGACY_IRQ_TRIGGER_MODE: seq<bv64> := [
    IOAPIC_RTE_TRGRMODE_EDGE, IOAPIC_RTE_TRGRMODE_EDGE, IOAPIC_RTE_TRGRMODE_EDGE, IOAPIC_RTE_TRGRMODE_EDGE,
    IOAPIC_RTE_TRGRMODE_EDGE, IOAPIC_RTE_TRGRMODE_EDGE, IOAPIC_RTE_TRGRMODE_EDGE, IOAPIC_RTE_TRGRMODE_EDGE,
    IOAPIC_RTE_TRGRMODE_EDGE, IOAPIC_RTE_TRGRMODE_LEVEL, IOAPIC_RTE_TRGRMODE_EDGE, IOAPIC_RTE_TRGRMODE_EDGE,
    IOAPIC_RTE_TRGRMODE_EDGE, IOAPIC_RTE_TRGRMODE_EDGE, IOAPIC_RTE_TRGRMODE_EDGE, IOAPIC_RTE_TRGRMODE_EDGE]

  /** pic_ioapic_pin_map[]: PIC input 0 (the timer) sits on I/O APIC pin 2, and vice versa. */
  const PIC_IOAPIC_PIN_MAP: seq<nat> := [2, 1, 0, 3, 4, 5, 6, 7, 8, 9, 10, 11, 12, 13, 14, 15]

  lemma LegacyTriggerOnlyNine(irq: nat)
    requires irq < NR_LEGACY_PIN
    ensures LEGACY_IRQ_TRIGGER_MODE[irq] == IOAPIC_RTE_TRGRMODE_LEVEL <==> irq == 9
    ensures LEGACY_IRQ_TRIGGER_MODE[irq] == IOAPIC_RTE_TRGRMODE_EDGE <==> irq != 9
  {
  }

  /** get_pic_pin_from_ioapic_pin: the mapped pin for the 16 legacy pins, INVALID_INTERRUPT_PIN otherwise. */
  function GetPicPin(pin: nat): (r: nat)
    ensures pin < NR_LEGACY_PIN ==> r < NR_LEGACY_PIN
    ensures pin >= NR_LEGACY_PIN ==> r == INVALID_INTERRUPT_PIN
  {
    if pin < NR_LEGACY_PIN then PIC_IOAPIC_PIN_MAP[pin] else INVALID_INTERRUPT_PIN
  }

  /** The map swaps pins 0 and 2, fixes every other legacy pin, and so is its own inverse. */
  lemma PinMapInvolution(pin: nat)
    requires pin < NR_LEGACY_PIN
    ensures GetPicPin(GetPicPin(pin)) == pin
    ensures GetPicPin(pin) == if pin == 0 then 2 else if pin == 2 then 0 else pin
  {
  }

  /**
   * create_rte_for_legacy_irq: masked, the table's trigger mode, logical
   * lowest-priority delivery of vector vr, active high, to CPU 0 (dest 1).
   */
  function CreateRteForLegacyIrq(irq: nat, vr: bv64): (r: bv64)
    requires irq < NR_LEGACY_PIN
    ensures RteMask(r) == IOAPIC_RTE_MASK_SET && RtePolarity(r) == IOAPIC_RTE_INTPOL_AHI
    ensures RteTriggerMode(r) == LEGACY_IRQ_TRIGGER_MODE[irq]
    ensures RteDestMode(r) == DEFAULT_DEST_MODE && RteDeliveryMode(r) == DEFAULT_DELIVERY_MODE
    ensures RteVector(r) == vr & 0xFF && RteDestField(r) == 1
  {
    ComposeRte(vr, DEFAULT_DELIVERY_MODE, DEFAULT_DEST_MODE, IOAPIC_RTE_INTPOL_AHI,
               LEGACY_IRQ_TRIGGER_MODE[irq], IOAPIC_RTE_MASK_SET, 1)
  }

  /**
   * create_rte_for_gsi_irq: the legacy entry below 16; above, masked,
   * level-triggered and active high, to every CPU (ALL_CPUS_MASK cut to
   * the 8-bit destination field).
   */
  function CreateRteForGsiIrq(irq: nat, vr: bv64, allCpusMask: bv64): (r: bv64)
    ensures irq < NR_LEGACY_PIN ==> r == CreateRteForLegacyIrq(irq, vr)
    ensures RteMask(r) == IOAPIC_RTE_MASK_SET && RtePolarity(r) == IOAPIC_RTE_INTPOL_AHI
    ensures RteDestMode(r) == DEFAULT_DEST_MODE && RteDeliveryMode(r) == DEFAULT_DELIVERY_MODE
    ensures RteVector(r) == vr & 0xFF
    ensures irq >= NR_LEGACY_PIN ==>
      RteTriggerMode(r) == IOAPIC_RTE_TRGRMODE_LEVEL && RteDestField(r) == allCpusMask & 0xFF
  {
    if irq < NR_LEGACY_PIN then CreateRteForLegacyIrq(irq, vr)
    else ComposeRte(vr, DEFAULT_DELIVERY_MODE, DEFAULT_DEST_MODE, IOAPIC_RTE_INTPOL_AHI,
                    IOAPIC_RTE_TRGRMODE_LEVEL, IOAPIC_RTE_MASK_SET, allCpusMask)
  }

  /** A GSI is routed level-triggered exactly when it is IRQ 9 or not a legacy one. */
  lemma GsiRteLevel(irq: nat, vr: bv64, allCpusMask: bv64)
    ensures RteTriggerMode(CreateRteForGsiIrq(irq, vr, allCpusMask)) == IOAPIC_RTE_TRGRMODE_LEVEL
      <==> irq == 9 || irq >= NR_LEGACY_PIN
  {
    if irq < NR_LEGACY_PIN {
      LegacyTriggerOnlyNine(irq);
    }
  }

  // ------------------------------------------------- the boot-time GSI walk
  // ioapic_setup_irqs walks every pin of every I/O APIC; for pin p of
  // I/O APIC k the GSI is g = gsi_base + p. Three folds state its effect:
  // on the GSI table, on the vector tables, and on the redirection entries,
  // the last through a plan of what is written to each pin.

  /** A table of redirection entries, pin p of I/O APIC a at Cell(a, p). */
  ghost predicate RowsShaped(rows: seq<bv64>)
  {
    |rows| == NR_CELLS
  }

  /** GSI g is one of the pins of this I/O APIC. */
  predicate InRange(info: IoapicInfo, g: nat)
  {
    info.gsiBase <= g < info.gsiBase + info.nrPins
  }

  /**
   * A GSI the walk has passed is routed in the tables t after its step: it
   * fits the table, its IRQ number was reserved, and it is not legacy or
   * got a vector.
   */
  ghost predicate StepRouted(g: nat, reserveFails: set<nat>, t: Irq.Tables)
    requires Irq.Shaped(t)
  {
    g < NR_MAX_GSI && g !in reserveFails && (g >= NR_LEGACY_PIN || Irq.IrqAllocated(t, g))
  }

  /** A vector number as written to the 8-bit vector field. */
  type VectorNum = v: nat | v <= Irq.NR_MAX_VECTOR

  /** The vector a routed GSI is given: its vector in t for a legacy GSI, 0 for any other. */
  function RoutedVector(g: nat, t: Irq.Tables): VectorNum
    requires Irq.Shaped(t)
  {
    if g < NR_LEGACY_PIN && t.fwd[g] <= Irq.NR_MAX_VECTOR then t.fwd[g] else 0
  }

  /** The entry a routed GSI gets with vector v. */
  function RoutedRte(g: nat, v: VectorNum, allCpusMask: bv64): bv64
  {
    CreateRteForGsiIrq(g, v as bv64, allCpusMask)
  }

  /** What the walk writes to one pin: nothing, or the entry of a GSI with a vector. */
  datatype PinWrite = Untouched | Routed(gsi: nat, vector: VectorNum)

  /** The write a pin whose GSI is g ends up with, given the final vector tables t. */
  ghost function FinalWrite(g: nat, reserveFails: set<nat>, t: Irq.Tables): PinWrite
    requires Irq.Shaped(t)
  {
    if StepRouted(g, reserveFails, t) then Routed(g, RoutedVector(g, t)) else Untouched
  }

  /** The plan before the walk: nothing written. */
  function NoWrites(): (plan: seq<PinWrite>)
    ensures |plan| == NR_CELLS && forall i :: 0 <= i < NR_CELLS ==> plan[i] == Untouched
  {
    seq(NR_CELLS, (i: int) => Untouched)
  }

  /** A pin's entry after a write. */
  function RenderCell(before: bv64, w: PinWrite, allCpusMask: bv64): bv64
  {
    match w
    case Untouched => before
    case Routed(g, v) => RoutedRte(g, v, allCpusMask)
  }

  /** The redirection entries after every write of a plan. */
  ghost function Render(rows: seq<bv64>, plan: seq<PinWrite>, allCpusMask: bv64): (r: seq<bv64>)
    requires RowsShaped(rows) && |plan| == NR_CELLS
    ensures RowsShaped(r)
    ensures forall i :: 0 <= i < NR_CELLS ==> r[i] == RenderCell(rows[i], plan[i], allCpusMask)
  {
    seq(NR_CELLS, (i: int) requires 0 <= i < NR_CELLS => RenderCell(rows[i], plan[i], allCpusMask))
  }

  /** The GSI table after the step for pin p of I/O APIC k: the entry is recorded (when the GSI fits the table). */
  function StepEntries(es: seq<GsiEntry>, info: IoapicInfo, k: nat, p: nat): (es': seq<GsiEntry>)
    requires |es| == NR_MAX_GSI
    ensures |es'| == NR_MAX_GSI
  {
    var g := info.gsiBase + p;
    if g < NR_MAX_GSI then es[g := GsiEntry(true, info.id, true, p, k)] else es
  }

  /** The vector tables after the step for GSI g: alloc_irq_vector for a reserved legacy GSI. */
  ghost function StepTables(t: Irq.Tables, g: nat, reserveFails: set<nat>): (t': Irq.Tables)
    requires Irq.Shaped(t)
    ensures Irq.Shaped(t')
  {
    if g < NR_MAX_GSI && g < NR_LEGACY_PIN && g !in reserveFails then Irq.AllocVector(t, g).1 else t
  }

  /** The redirection entries after the step for pin p of I/O APIC k, given the tables t after it. */
  ghost function StepRows(rows: seq<bv64>, t: Irq.Tables, g: nat, k: nat, p: nat,
                          reserveFails: set<nat>, allCpusMask: bv64): (rows': seq<bv64>)
    requires RowsShaped(rows) && Irq.Shaped(t) && k < MAX_IOAPIC_NUM && p < MAX_IOAPIC_LINES
    ensures RowsShaped(rows')
  {
    if StepRouted(g, reserveFails, t)
    then rows[Cell(k, p) := RoutedRte(g, RoutedVector(g, t), allCpusMask)]
    else rows
  }

  /** The same step on the plan. */
  ghost function StepPlan(plan: seq<PinWrite>, t: Irq.Tables, g: nat, k: nat, p: nat,
                          reserveFails: set<nat>): (plan': seq<PinWrite>)
    requires |plan| == NR_CELLS && Irq.Shaped(t) && k < MAX_IOAPIC_NUM && p < MAX_IOAPIC_LINES
    ensures |plan'| == NR_CELLS
  {
    if StepRouted(g, reserveFails, t) then plan[Cell(k, p) := Routed(g, RoutedVector(g, t))] else plan
  }

  /** Writing the step's entry to rendered entries renders the stepped plan. */
  lemma RenderStep(rows: seq<bv64>, plan: seq<PinWrite>, t: Irq.Tables, g: nat, k: nat, p: nat,
                   reserveFails: set<nat>, allCpusMask: bv64)
    requires RowsShaped(rows) && |plan| == NR_CELLS && Irq.Shaped(t) && k < MAX_IOAPIC_NUM && p < MAX_IOAPIC_LINES
    ensures StepRows(Render(rows, plan, allCpusMask), t, g, k, p, reserveFails, allCpusMask)
         == Render(rows, StepPlan(plan, t, g, k, p, reserveFails), allCpusMask)
  {
    CellsSplit();
  }

  /** Rendering the empty plan changes nothing. */
  lemma RenderNothing(rows: seq<bv64>, allCpusMask: bv64)
    requires RowsShaped(rows)
    ensures Render(rows, NoWrites(), allCpusMask) == rows
  {
  }

  /** The step on the plan writes the one pin it routes and no other. */
  lemma StepPlanAt(plan: seq<PinWrite>, t: Irq.Tables, g: nat, k: nat, p: nat,
                   reserveFails: set<nat>, a: nat, q: nat)
    requires |plan| == NR_CELLS && Irq.Shaped(t) && k < MAX_IOAPIC_NUM && p < MAX_IOAPIC_LINES
    requires a < MAX_IOAPIC_NUM && q < MAX_IOAPIC_LINES
    ensures StepPlan(plan, t, g, k, p, reserveFails)[Cell(a, q)]
      == if a == k && q == p && StepRouted(g, reserveFails, t)
         then Routed(g, RoutedVector(g, t)) else plan[Cell(a, q)]
  {
    CellsSplit();
  }

  /** The GSI table after the first n pins of I/O APIC k. */
  function EntriesWalk(es: seq<GsiEntry>, info: IoapicInfo, k: nat, n: nat): (es': seq<GsiEntry>)
    requires |es| == NR_MAX_GSI
    ensures |es'| == NR_MAX_GSI
  {
    if n == 0 then es else StepEntries(EntriesWalk(es, info, k, n - 1), info, k, n - 1)
  }

  /** The GSIs among the first n pins from base that get a vector: legacy ones whose reservation succeeded. */
  ghost function RangeLegacy(base: nat, n: nat, reserveFails: set<nat>): seq<nat>
  {
    if n == 0 then [] else
      RangeLegacy(base, n - 1, reserveFails)
      + (if base + n - 1 < NR_LEGACY_PIN && base + n - 1 !in reserveFails then [base + n - 1] else [])
  }

  /** The vector tables after alloc_irq_vector for each IRQ of gs in turn. */
  ghost function AllocLegacy(t: Irq.Tables, gs: seq<nat>): (t': Irq.Tables)
    requires Irq.Shaped(t)
    ensures Irq.Shaped(t')
  {
    if gs == [] then t
    else
      Irq.AllocVector(AllocLegacy(t, gs[..|gs| - 1]), gs[|gs| - 1]).1
  }

  /** The vector tables after the first n pins from base. */
  ghost function TablesWalk(t: Irq.Tables, base: nat, n: nat, reserveFails: set<nat>): (t': Irq.Tables)
    requires Irq.Shaped(t)
    ensures Irq.Shaped(t')
  {
    if n == 0 then t else StepTables(TablesWalk(t, base, n - 1, reserveFails), base + n - 1, reserveFails)
  }

  ghost predicate AllShaped(ts: seq<Irq.Tables>)
  {
    forall i :: 0 <= i < |ts| ==> Irq.Shaped(ts[i])
  }

  /** The vector tables before the walk and after each of its first n pins: ts[i] after i pins. */
  ghost function TablesTrace(t: Irq.Tables, base: nat, n: nat, reserveFails: set<nat>): (ts: seq<Irq.Tables>)
    requires Irq.Shaped(t)
    ensures |ts| == n + 1 && AllShaped(ts)
  {
    seq(n + 1, (i: int) requires 0 <= i <= n => TablesWalk(t, base, i, reserveFails))
  }

  /** The plan after the first n pins of I/O APIC k, where ts[i] are the vector tables after i pins. */
  ghost function PlanWalk(ts: seq<Irq.Tables>, info: IoapicInfo, k: nat, n: nat, reserveFails: set<nat>): (plan: seq<PinWrite>)
    requires AllShaped(ts) && n < |ts| && k < MAX_IOAPIC_NUM && n <= MAX_IOAPIC_LINES
    ensures |plan| == NR_CELLS
  {
    if n == 0 then NoWrites()
    else StepPlan(PlanWalk(ts, info, k, n - 1, reserveFails), ts[n], info.gsiBase + n - 1, k, n - 1, reserveFails)
  }

  /** What ioapic_setup_irqs changes: the GSI table, the redirection entries and the vector tables. */
  datatype Walk = Walk(entries: seq<GsiEntry>, rows: seq<bv64>, tables: Irq.Tables)

  ghost predicate WalkShaped(w: Walk)
  {
    |w.entries| == NR_MAX_GSI && RowsShaped(w.rows) && Irq.Shaped(w.tables)
  }

  /** The walk over the n first pins of I/O APIC k. */
  ghost function PinsWalk(w: Walk, info: IoapicInfo, k: nat, n: nat, reserveFails: set<nat>, allCpusMask: bv64): (w': Walk)
    requires WalkShaped(w) && k < MAX_IOAPIC_NUM && n <= MAX_IOAPIC_LINES
    ensures WalkShaped(w')
  {
    Walk(EntriesWalk(w.entries, info, k, n),
         Render(w.rows, PlanWalk(TablesTrace(w.tables, info.gsiBase, n, reserveFails), info, k, n, reserveFails),
                allCpusMask),
         TablesWalk(w.tables, info.gsiBase, n, reserveFails))
  }

  /** The walk over every pin of every I/O APIC of infos, in order. */
  ghost function IoapicsWalk(w: Walk, infos: seq<IoapicInfo>, reserveFails: set<nat>, allCpusMask: bv64): (w': Walk)
    requires WalkShaped(w) && |infos| <= MAX_IOAPIC_NUM
    requires forall j :: 0 <= j < |infos| ==> infos[j].nrPins <= MAX_IOAPIC_LINES
    ensures WalkShaped(w')
  {
    if infos == [] then w
    else
      var n := |infos| - 1;
      PinsWalk(IoapicsWalk(w, infos[..n], reserveFails, allCpusMask), infos[n], n, infos[n].nrPins, reserveFails, allCpusMask)
  }

  /** The reserved legacy GSIs of every I/O APIC, in walk order. */
  ghost function LegacyGsis(infos: seq<IoapicInfo>, reserveFails: set<nat>): seq<nat>
  {
    if infos == [] then [] else
      LegacyGsis(infos[..|infos| - 1], reserveFails)
      + RangeLegacy(infos[|infos| - 1].gsiBase, infos[|infos| - 1].nrPins, reserveFails)
  }

  /** The tables fold allocates, in pin order, for the legacy GSIs among the pins whose reservation succeeded. */
  lemma {:induction false} TablesWalkLegacy(t: Irq.Tables, base: nat, n: nat, reserveFails: set<nat>)
    requires Irq.Shaped(t)
    ensures TablesWalk(t, base, n, reserveFails) == AllocLegacy(t, RangeLegacy(base, n, reserveFails))
  {
    if n > 0 {
      TablesWalkLegacy(t, base, n - 1, reserveFails);
      AllocLegacyStep(t, RangeLegacy(base, n - 1, reserveFails), TablesWalk(t, base, n - 1, reserveFails),
                      base + n - 1, reserveFails);
    }
  }

  /** One more pin: the step on the tables allocates for its GSI exactly when it is a reserved legacy GSI. */
  lemma AllocLegacyStep(t: Irq.Tables, done: seq<nat>, x: Irq.Tables, g: nat, reserveFails: set<nat>)
    requires Irq.Shaped(t) && Irq.Shaped(x) && x == AllocLegacy(t, done)
    ensures StepTables(x, g, reserveFails)
      == AllocLegacy(t, done + (if g < NR_LEGACY_PIN && g !in reserveFails then [g] else []))
  {
    if g < NR_LEGACY_PIN && g !in reserveFails {
      assert (done + [g])[..|done|] == done;
    } else {
      assert done + [] == done;
    }
  }

  /** One more pin of the walk: the state after the step functions is the walk one pin further. */
  lemma PinsWalkStep(w: Walk, info: IoapicInfo, k: nat, p: nat, reserveFails: set<nat>, allCpusMask: bv64,
                     before: Walk, after: Walk)
    requires WalkShaped(w) && k < MAX_IOAPIC_NUM && p < MAX_IOAPIC_LINES
    requires before == PinsWalk(w, info, k, p, reserveFails, allCpusMask)
    requires after.entries == StepEntries(before.entries, info, k, p)
    requires after.tables == StepTables(before.tables, info.gsiBase + p, reserveFails)
    requires after.rows == StepRows(before.rows, after.tables, info.gsiBase + p, k, p, reserveFails, allCpusMask)
    ensures after == PinsWalk(w, info, k, p + 1, reserveFails, allCpusMask)
  {
    var base := info.gsiBase;
    var plan := PlanWalk(TablesTrace(w.tables, base, p, reserveFails), info, k, p, reserveFails);
    PlanWalkStep(w.tables, info, k, p, reserveFails);
    RenderStep(w.rows, plan, after.tables, base + p, k, p, reserveFails, allCpusMask);
    var next := PinsWalk(w, info, k, p + 1, reserveFails, allCpusMask);
    assert after.tables == next.tables;
    assert after.entries == next.entries;
    assert after.rows == next.rows;
  }

  /** One more pin extends the plan by that pin's step, with the tables after it. */
  lemma PlanWalkStep(t: Irq.Tables, info: IoapicInfo, k: nat, p: nat, reserveFails: set<nat>)
    requires Irq.Shaped(t) && k < MAX_IOAPIC_NUM && p < MAX_IOAPIC_LINES
    ensures PlanWalk(TablesTrace(t, info.gsiBase, p + 1, reserveFails), info, k, p + 1, reserveFails)
         == StepPlan(PlanWalk(TablesTrace(t, info.gsiBase, p, reserveFails), info, k, p, reserveFails),
                     TablesWalk(t, info.gsiBase, p + 1, reserveFails), info.gsiBase + p, k, p, reserveFails)
  {
    var done := TablesTrace(t, info.gsiBase, p, reserveFails);
    var trace := TablesTrace(t, info.gsiBase, p + 1, reserveFails);
    PlanWalkPrefix(trace, done, info, k, p, reserveFails);
    assert trace[p + 1] == TablesWalk(t, info.gsiBase, p + 1, reserveFails);
  }

  /** A step for GSI g keeps the routing status and vector of every other GSI. */
  lemma StepKeeps(t: Irq.Tables, g: nat, h: nat, reserveFails: set<nat>)
    requires Irq.Shaped(t) && g != h
    ensures StepRouted(h, reserveFails, StepTables(t, g, reserveFails)) == StepRouted(h, reserveFails, t)
    ensures RoutedVector(h, StepTables(t, g, reserveFails)) == RoutedVector(h, t)
  {
    if h < Irq.NR_IRQS && g < NR_MAX_GSI && g < NR_LEGACY_PIN && g !in reserveFails {
      Irq.AllocVectorOthers(t, g, h);
    }
  }

  /** The plan depends on the trace only up to its n-th tables. */
  lemma {:induction false} PlanWalkPrefix(ts: seq<Irq.Tables>, us: seq<Irq.Tables>, info: IoapicInfo, k: nat, n: nat,
                                          reserveFails: set<nat>)
    requires AllShaped(ts) && AllShaped(us) && n < |ts| && n < |us| && k < MAX_IOAPIC_NUM && n <= MAX_IOAPIC_LINES
    requires forall i :: 0 <= i <= n ==> ts[i] == us[i]
    ensures PlanWalk(ts, info, k, n, reserveFails) == PlanWalk(us, info, k, n, reserveFails)
  {
    if n > 0 {
      PlanWalkPrefix(ts, us, info, k, n - 1, reserveFails);
    }
  }

  /** From the i-th to the (i+1)-th tables of ts, the step for GSI base + i keeps every other GSI. */
  ghost predicate KeepsAt(ts: seq<Irq.Tables>, i: nat, base: nat, reserveFails: set<nat>)
    requires AllShaped(ts) && i + 1 < |ts|
  {
    forall h :: h != base + i ==>
      StepRouted(h, reserveFails, ts[i + 1]) == StepRouted(h, reserveFails, ts[i])
      && RoutedVector(h, ts[i + 1]) == RoutedVector(h, ts[i])
  }

  /** Every step of the trace keeps every GSI but its own. */
  ghost predicate Chained(ts: seq<Irq.Tables>, base: nat, reserveFails: set<nat>)
    requires AllShaped(ts)
  {
    forall i :: 0 <= i < |ts| - 1 ==> KeepsAt(ts, i, base, reserveFails)
  }

  lemma TraceChained(t: Irq.Tables, base: nat, n: nat, reserveFails: set<nat>)
    requires Irq.Shaped(t)
    ensures Chained(TablesTrace(t, base, n, reserveFails), base, reserveFails)
  {
    var ts := TablesTrace(t, base, n, reserveFails);
    forall i | 0 <= i < n
      ensures KeepsAt(ts, i, base, reserveFails)
    {
      assert ts[i + 1] == StepTables(ts[i], base + i, reserveFails);
      forall h | h != base + i
        ensures StepRouted(h, reserveFails, ts[i + 1]) == StepRouted(h, reserveFails, ts[i])
        ensures RoutedVector(h, ts[i + 1]) == RoutedVector(h, ts[i])
      {
        StepKeeps(ts[i], base + i, h, reserveFails);
      }
    }
  }

  /** Later pins keep the routing status and vector the GSI of pin q got at its own step. */
  lemma {:induction false} ChainKeeps(ts: seq<Irq.Tables>, base: nat, q: nat, n: nat, reserveFails: set<nat>)
    requires AllShaped(ts) && Chained(ts, base, reserveFails) && q < n < |ts|
    ensures StepRouted(base + q, reserveFails, ts[n]) == StepRouted(base + q, reserveFails, ts[q + 1])
    ensures RoutedVector(base + q, ts[n]) == RoutedVector(base + q, ts[q + 1])
  {
    if q + 1 < n {
      ChainKeeps(ts, base, q, n - 1, reserveFails);
      assert KeepsAt(ts, n - 1, base, reserveFails);
    }
  }

  /** The walk over n pins records the entry of each pin's GSI and changes no other. */
  lemma {:induction false} PinsWalkEntries(es: seq<GsiEntry>, info: IoapicInfo, k: nat, n: nat)
    requires |es| == NR_MAX_GSI
    ensures forall q :: 0 <= q < n && info.gsiBase + q < NR_MAX_GSI ==>
      EntriesWalk(es, info, k, n)[info.gsiBase + q] == GsiEntry(true, info.id, true, q, k)
    ensures forall g :: 0 <= g < NR_MAX_GSI && !(info.gsiBase <= g < info.gsiBase + n) ==>
      EntriesWalk(es, info, k, n)[g] == es[g]
  {
    if n > 0 {
      PinsWalkEntries(es, info, k, n - 1);
    }
  }

  /**
   * The plan of the walk over n pins of I/O APIC k, at one pin: a pin among
   * them whose GSI ended up routed is written with that GSI and its final
   * vector; every other pin is left as it was.
   */
  lemma {:induction false} PinsWalkPlanAt(ts: seq<Irq.Tables>, info: IoapicInfo, k: nat, n: nat,
                                          reserveFails: set<nat>, a: nat, q: nat)
    requires AllShaped(ts) && Chained(ts, info.gsiBase, reserveFails) && n < |ts|
    requires k < MAX_IOAPIC_NUM && n <= MAX_IOAPIC_LINES && a < MAX_IOAPIC_NUM && q < MAX_IOAPIC_LINES
    ensures PlanWalk(ts, info, k, n, reserveFails)[Cell(a, q)] ==
        if a == k && q < n && StepRouted(info.gsiBase + q, reserveFails, ts[n])
        then Routed(info.gsiBase + q, RoutedVector(info.gsiBase + q, ts[n]))
        else Untouched
  {
    if n > 0 {
      var base := info.gsiBase;
      PinsWalkPlanAt(ts, info, k, n - 1, reserveFails, a, q);
      StepPlanAt(PlanWalk(ts, info, k, n - 1, reserveFails), ts[n], base + n - 1, k, n - 1, reserveFails, a, q);
      if q < n - 1 {
        ChainKeeps(ts, base, q, n, reserveFails);
        ChainKeeps(ts, base, q, n - 1, reserveFails);
      }
    }
  }

  /**
   * What ioapic_setup_irqs achieves, for the configured number of I/O
   * APICs, on the GSI table: the entry of every pin's GSI is recorded and
   * no other GSI's changes.
   */
  lemma SetupWalkEntries(w: Walk, infos: seq<IoapicInfo>, reserveFails: set<nat>, allCpusMask: bv64)
    requires WalkShaped(w) && |infos| <= MAX_IOAPIC_NUM
    requires forall j :: 0 <= j < |infos| ==> infos[j].nrPins <= MAX_IOAPIC_LINES
    ensures var w' := IoapicsWalk(w, infos, reserveFails, allCpusMask);
      (forall a, q :: 0 <= a < |infos| && 0 <= q < infos[a].nrPins && infos[a].gsiBase + q < NR_MAX_GSI ==>
         w'.entries[infos[a].gsiBase + q] == GsiEntry(true, infos[a].id, true, q, a))
      && (forall g :: 0 <= g < NR_MAX_GSI && (forall a :: 0 <= a < |infos| ==> !InRange(infos[a], g)) ==>
            w'.entries[g] == w.entries[g])
  {
    if infos != [] {
      assert infos[..0] == [];
      PinsWalkEntries(w.entries, infos[0], 0, infos[0].nrPins);
    }
  }

  /**
   * Starting from the zero-filled table, the walk marks valid exactly the
   * GSIs below NR_MAX_GSI that are pins of some I/O APIC.
   */
  lemma SetupValidGsis(w: Walk, infos: seq<IoapicInfo>, reserveFails: set<nat>, allCpusMask: bv64)
    requires WalkShaped(w) && |infos| <= MAX_IOAPIC_NUM
    requires forall j :: 0 <= j < |infos| ==> infos[j].nrPins <= MAX_IOAPIC_LINES
    requires forall g :: 0 <= g < NR_MAX_GSI ==> !w.entries[g].isValid
    ensures var w' := IoapicsWalk(w, infos, reserveFails, allCpusMask);
      forall g :: 0 <= g < NR_MAX_GSI ==>
        (w'.entries[g].isValid <==> exists a :: 0 <= a < |infos| && InRange(infos[a], g))
  {
    var w' := IoapicsWalk(w, infos, reserveFails, allCpusMask);
    SetupWalkEntries(w, infos, reserveFails, allCpusMask);
    forall g | 0 <= g < NR_MAX_GSI
      ensures w'.entries[g].isValid <==> exists a :: 0 <= a < |infos| && InRange(infos[a], g)
    {
      if exists a :: 0 <= a < |infos| && InRange(infos[a], g) {
        var a :| 0 <= a < |infos| && InRange(infos[a], g);
        var q := g - infos[a].gsiBase;
        assert w'.entries[infos[a].gsiBase + q] == GsiEntry(true, infos[a].id, true, q, a);
      }
    }
  }

  /** On the vector tables: allocation for the reserved legacy GSIs, in walk order. */
  lemma SetupWalkTables(w: Walk, infos: seq<IoapicInfo>, reserveFails: set<nat>, allCpusMask: bv64)
    requires WalkShaped(w) && |infos| <= MAX_IOAPIC_NUM
    requires forall j :: 0 <= j < |infos| ==> infos[j].nrPins <= MAX_IOAPIC_LINES
    ensures IoapicsWalk(w, infos, reserveFails, allCpusMask).tables == AllocLegacy(w.tables, LegacyGsis(infos, reserveFails))
  {
    if infos != [] {
      assert infos[..0] == [];
      assert LegacyGsis(infos, reserveFails) == RangeLegacy(infos[0].gsiBase, infos[0].nrPins, reserveFails);
      TablesWalkLegacy(w.tables, infos[0].gsiBase, infos[0].nrPins, reserveFails);
    }
  }

  /**
   * What the walk over the n first pins of I/O APIC k leaves on each pin,
   * given the final vector tables t: a pin among them gets its GSI's final
   * write, every other pin is untouched.
   */
  ghost function PinsPlan(info: IoapicInfo, k: nat, n: nat, reserveFails: set<nat>, t: Irq.Tables): (plan: seq<PinWrite>)
    requires Irq.Shaped(t)
    ensures |plan| == NR_CELLS
    ensures forall a, q :: 0 <= a < MAX_IOAPIC_NUM && 0 <= q < MAX_IOAPIC_LINES ==>
      plan[Cell(a, q)] == if a == k && q < n then FinalWrite(info.gsiBase + q, reserveFails, t) else Untouched
  {
    CellsSplit();
    seq(NR_CELLS, (i: int) requires 0 <= i < NR_CELLS =>
      if i / MAX_IOAPIC_LINES == k && i % MAX_IOAPIC_LINES < n
      then FinalWrite(info.gsiBase + i % MAX_IOAPIC_LINES, reserveFails, t) else Untouched)
  }

  /** The same for every pin of every I/O APIC of infos. */
  ghost function SetupPlan(infos: seq<IoapicInfo>, reserveFails: set<nat>, t: Irq.Tables): (plan: seq<PinWrite>)
    requires Irq.Shaped(t)
    ensures |plan| == NR_CELLS
    ensures forall a, q :: 0 <= a < MAX_IOAPIC_NUM && 0 <= q < MAX_IOAPIC_LINES ==>
      plan[Cell(a, q)] == if a < |infos| && q < infos[a].nrPins then FinalWrite(infos[a].gsiBase + q, reserveFails, t) else Untouched
  {
    CellsSplit();
    seq(NR_CELLS, (i: int) requires 0 <= i < NR_CELLS =>
      var a, q := i / MAX_IOAPIC_LINES, i % MAX_IOAPIC_LINES;
      if a < |infos| && q < infos[a].nrPins then FinalWrite(infos[a].gsiBase + q, reserveFails, t) else Untouched)
  }

  /**
   * On the redirection entries: every pin whose GSI is routed in the final
   * vector tables holds the entry for it and its vector; every other pin
   * keeps its entry.
   */
  lemma SetupWalkRows(w: Walk, infos: seq<IoapicInfo>, reserveFails: set<nat>, allCpusMask: bv64)
    requires WalkShaped(w) && |infos| <= MAX_IOAPIC_NUM
    requires forall j :: 0 <= j < |infos| ==> infos[j].nrPins <= MAX_IOAPIC_LINES
    ensures var w' := IoapicsWalk(w, infos, reserveFails, allCpusMask);
      w'.rows == Render(w.rows, SetupPlan(infos, reserveFails, w'.tables), allCpusMask)
  {
    if infos == [] {
      CellsExt(SetupPlan(infos, reserveFails, w.tables), NoWrites());
      RenderNothing(w.rows, allCpusMask);
    } else {
      var info := infos[0];
      IoapicsWalkSingle(w, infos, reserveFails, allCpusMask);
      PinsWalkRows(w, info, 0, info.nrPins, reserveFails, allCpusMask);
      var w' := PinsWalk(w, info, 0, info.nrPins, reserveFails, allCpusMask);
      CellsExt(SetupPlan(infos, reserveFails, w'.tables), PinsPlan(info, 0, info.nrPins, reserveFails, w'.tables));
    }
  }

  /** With one I/O APIC, the walk is the walk over its pins. */
  lemma IoapicsWalkSingle(w: Walk, infos: seq<IoapicInfo>, reserveFails: set<nat>, allCpusMask: bv64)
    requires WalkShaped(w) && |infos| == 1 && infos[0].nrPins <= MAX_IOAPIC_LINES
    ensures IoapicsWalk(w, infos, reserveFails, allCpusMask) == PinsWalk(w, infos[0], 0, infos[0].nrPins, reserveFails, allCpusMask)
  {
    assert infos[..0] == [];
  }

  /** SetupWalkRows for the pins of one I/O APIC. */
  lemma PinsWalkRows(w: Walk, info: IoapicInfo, k: nat, n: nat, reserveFails: set<nat>, allCpusMask: bv64)
    requires WalkShaped(w) && k < MAX_IOAPIC_NUM && n <= MAX_IOAPIC_LINES
    ensures var w' := PinsWalk(w, info, k, n, reserveFails, allCpusMask);
      w'.rows == Render(w.rows, PinsPlan(info, k, n, reserveFails, w'.tables), allCpusMask)
  {
    var ts := TablesTrace(w.tables, info.gsiBase, n, reserveFails);
    var plan := PlanWalk(ts, info, k, n, reserveFails);
    TraceChained(w.tables, info.gsiBase, n, reserveFails);
    forall a, q | 0 <= a < MAX_IOAPIC_NUM && 0 <= q < MAX_IOAPIC_LINES
      ensures plan[Cell(a, q)] == PinsPlan(info, k, n, reserveFails, ts[n])[Cell(a, q)]
    {
      PinsWalkPlanAt(ts, info, k, n, reserveFails, a, q);
    }
    CellsExt(plan, PinsPlan(info, k, n, reserveFails, ts[n]));
  }


  /**
   * As written, the walk stores GSI gsi_base + pin at that index of
   * gsi_table_data[], which holds NR_MAX_GSI entries; nothing checks the
   * base the firmware reports, and init_ioapic_id_info accepts an I/O
   * APIC whose base puts its pins past the table.
   */
  function SetupWriteIndex(info: IoapicInfo, pin: nat): nat
  {
    info.gsiBase + pin
  }

  lemma SetupWriteIndexEscapes()
    ensures var madt := [MadtIoapic(0, 0xFEC0_0000, NR_MAX_GSI, 0x0017_0011)];
      PlatformAcceptable(madt)
      && SetupWriteIndex(IoapicInfo(0, 0xFEC0_0000, NR_MAX_GSI, NrPins(0x0017_0011)), 0) >= NR_MAX_GSI
  {
    var madt := [MadtIoapic(0, 0xFEC0_0000, NR_MAX_GSI, 0x0017_0011)];
    assert NrPins(0x0017_0011) == 24;
    AcceptableIff(madt);
  }


  /** struct gsi_table: the entry of one GSI; hasBase tells a mapped I/O APIC base from NULL. */
  datatype GsiEntry = GsiEntry(isValid: bool, acpiId: nat, hasBase: bool, pin: nat, index: nat)

  /** gsi_table_data[] and ioapic_max_nr_gsi. */
  class GsiTable {
    const entries: array<GsiEntry>
    var maxNrGsi: nat

    ghost predicate Valid()
      reads this, entries
    {
      entries.Length == NR_MAX_GSI
      && forall g :: 0 <= g < NR_MAX_GSI && entries[g].hasBase ==>
        entries[g].index < MAX_IOAPIC_NUM && entries[g].pin < MAX_IOAPIC_LINES
    }

    /** The zero-filled static table: no GSI is valid and none has a base. */
    constructor ()
      ensures Valid() && maxNrGsi == 0 && fresh(entries)
      ensures forall g :: 0 <= g < NR_MAX_GSI ==> entries[g] == GsiEntry(false, 0, false, 0, 0)
    {
      entries := new GsiEntry[NR_MAX_GSI](_ => GsiEntry(false, 0, false, 0, 0));
      maxNrGsi := 0;
    }

    /** is_gsi_valid: the GSI fits the table and the walk marked it valid. */
    predicate IsGsiValid(gsi: nat)
      reads this, entries
    {
      gsi < NR_MAX_GSI && gsi < entries.Length && entries[gsi].isValid
    }

    /** is_ioapic_irq: the same test, on the IRQ number. */
    predicate IsIoapicIrq(irq: nat)
      reads this, entries
    {
      IsGsiValid(irq)
    }

    /** ioapic_gsi_to_irq: GSIs and IRQs are identity-mapped. */
    function GsiToIrq(gsi: nat): nat
    {
      gsi
    }

    /** The IRQ of a GSI is an I/O APIC IRQ exactly when the GSI is below NR_MAX_GSI and marked valid. */
    lemma IoapicIrqOfGsi(gsi: nat)
      requires Valid()
      ensures IsIoapicIrq(GsiToIrq(gsi)) <==> gsi < NR_MAX_GSI && entries[gsi].isValid
    {
    }

    /**
     * ioapic_irq_gsi_mask_unmask: set or clear only the mask bit of the
     * GSI's redirection entry; nothing when its I/O APIC base is NULL.
     */
    method MaskUnmask(irq: nat, mask: bool, io: Ioapics)
      requires Valid() && io.Shaped() && irq < NR_MAX_GSI
      modifies io.rte
      ensures var e := entries[irq];
        forall a, p :: 0 <= a < MAX_IOAPIC_NUM && 0 <= p < MAX_IOAPIC_LINES ==>
          io.rte[a, p] ==
            if e.hasBase && a == e.index && p == e.pin
            then WithMask(old(io.rte[a, p]), if mask then IOAPIC_RTE_MASK_SET else IOAPIC_RTE_MASK_CLR)
            else old(io.rte[a, p])
    {
      var e := entries[irq];
      if e.hasBase {
        var r := io.rte[e.index, e.pin];
        io.rte[e.index, e.pin] := WithMask(r, if mask then IOAPIC_RTE_MASK_SET else IOAPIC_RTE_MASK_CLR);
      }
    }

    /** ioapic_set_routing: write the GSI's entry; returns whether it is level-triggered (passed on to set_irq_trigger_mode). */
    method SetRouting(gsi: nat, vr: bv64, allCpusMask: bv64, io: Ioapics) returns (level: bool)
      requires Valid() && io.Shaped() && gsi < NR_MAX_GSI && entries[gsi].hasBase
      modifies io.rte
      ensures io.Rtes() == old(io.Rtes())[Cell(entries[gsi].index, entries[gsi].pin) := CreateRteForGsiIrq(gsi, vr, allCpusMask)]
      ensures level <==> gsi == 9 || gsi >= NR_LEGACY_PIN
    {
      ghost var rows := io.Rtes();
      var r := CreateRteForGsiIrq(gsi, vr, allCpusMask);
      var e := entries[gsi];
      io.rte[e.index, e.pin] := r;
      CellsSplit();
      CellsExt(io.Rtes(), rows[Cell(e.index, e.pin) := r]);
      GsiRteLevel(gsi, vr, allCpusMask);
      level := RteTriggerMode(r) == IOAPIC_RTE_TRGRMODE_LEVEL;
    }


    /** The state the walk changes. */
    ghost function State(io: Ioapics, iv: Irq.IrqVectors): Walk
      requires io.Shaped()
      reads entries, io, io.rte, iv.vectorOf, iv.irqOf
    {
      Walk(entries[..], io.Rtes(), iv.Snapshot())
    }

    /** One step of the walk, for pin p of I/O APIC k: each part of the state changes by its step function. */
    method SetupPin(io: Ioapics, iv: Irq.IrqVectors, k: nat, info: IoapicInfo, p: nat, reserveFails: set<nat>, allCpusMask: bv64)
      requires Valid() && io.Valid() && iv.Sized() && Irq.Shaped(iv.Snapshot())
      requires k < io.num && info == io.info[k] && p < info.nrPins
      modifies entries, io.rte, iv.vectorOf, iv.irqOf
      ensures Valid() && Irq.Shaped(iv.Snapshot())
      ensures entries[..] == StepEntries(old(entries[..]), info, k, p)
      ensures iv.Snapshot() == StepTables(old(iv.Snapshot()), info.gsiBase + p, reserveFails)
      ensures io.Rtes() == StepRows(old(io.Rtes()), iv.Snapshot(), info.gsiBase + p, k, p, reserveFails, allCpusMask)
    {
      var g := info.gsiBase + p;
      if g < NR_MAX_GSI {
        entries[g] := GsiEntry(true, info.id, true, p, k);
        assert io.Rtes() == old(io.Rtes()) && iv.Snapshot() == old(iv.Snapshot());
        RoutePin(g, io, iv, reserveFails, allCpusMask);
        assert Cell(entries[g].index, entries[g].pin) == Cell(k, p);
      } else {
        assert !StepRouted(g, reserveFails, iv.Snapshot());
      }
    }

    /** Route one GSI whose pin is recorded, unless its IRQ number could not be reserved. */
    method RoutePin(g: nat, io: Ioapics, iv: Irq.IrqVectors, reserveFails: set<nat>, allCpusMask: bv64)
      requires Valid() && io.Shaped() && iv.Sized() && Irq.Shaped(iv.Snapshot())
      requires g < NR_MAX_GSI && entries[g].hasBase
      modifies io.rte, iv.vectorOf, iv.irqOf
      ensures Irq.Shaped(iv.Snapshot()) && iv.Snapshot() == StepTables(old(iv.Snapshot()), g, reserveFails)
      ensures io.Rtes() == if StepRouted(g, reserveFails, iv.Snapshot())
        then old(io.Rtes())[Cell(entries[g].index, entries[g].pin) := RoutedRte(g, RoutedVector(g, iv.Snapshot()), allCpusMask)]
        else old(io.Rtes())
    {
      if g !in reserveFails {
        if g < NR_LEGACY_PIN {
          RouteLegacy(g, allCpusMask, io, iv);
        } else {
          var _ := SetRouting(g, 0, allCpusMask, io);
        }
      }
    }

    /** Allocate a vector for a legacy GSI and route it with that vector; leave it unrouted when none is available. */
    method RouteLegacy(g: nat, allCpusMask: bv64, io: Ioapics, iv: Irq.IrqVectors)
      requires Valid() && io.Shaped() && iv.Sized() && Irq.Shaped(iv.Snapshot())
      requires g < NR_LEGACY_PIN && entries[g].hasBase
      modifies io.rte, iv.vectorOf, iv.irqOf
      ensures Irq.Shaped(iv.Snapshot()) && iv.Snapshot() == Irq.AllocVector(old(iv.Snapshot()), g).1
      ensures io.Rtes() == if Irq.IrqAllocated(iv.Snapshot(), g)
        then old(io.Rtes())[Cell(entries[g].index, entries[g].pin) := RoutedRte(g, RoutedVector(g, iv.Snapshot()), allCpusMask)]
        else old(io.Rtes())
    {
      ghost var t := iv.Snapshot();
      var vr := iv.Alloc(g);
      LegacyAllocated(t, g, vr, iv.Snapshot());
      if vr != Irq.VECTOR_INVALID {
        var _ := SetRouting(g, vr as bv64, allCpusMask, io);
      }
    }

    /** The walk over the pins of I/O APIC k: PinsWalk on the state. */
    method SetupPins(io: Ioapics, iv: Irq.IrqVectors, k: nat, reserveFails: set<nat>, allCpusMask: bv64) returns (gsi: nat)
      requires Valid() && io.Valid() && iv.Sized() && Irq.Shaped(iv.Snapshot()) && k < io.num
      modifies entries, io.rte, iv.vectorOf, iv.irqOf
      ensures Valid() && Irq.Shaped(iv.Snapshot())
      ensures gsi == io.info[k].gsiBase + io.info[k].nrPins
      ensures State(io, iv) == PinsWalk(old(State(io, iv)), io.info[k], k, io.info[k].nrPins, reserveFails, allCpusMask)
    {
      ghost var w := State(io, iv);
      RenderNothing(w.rows, allCpusMask);
      var info := io.info[k];
      var p: nat := 0;
      gsi := info.gsiBase;
      while p < info.nrPins
        invariant p <= info.nrPins && gsi == info.gsiBase + p
        invariant Valid() && Irq.Shaped(iv.Snapshot())
        invariant State(io, iv) == PinsWalk(w, info, k, p, reserveFails, allCpusMask)
      {
        ghost var before := State(io, iv);
        SetupPin(io, iv, k, info, p, reserveFails, allCpusMask);
        PinsWalkStep(w, info, k, p, reserveFails, allCpusMask, before, State(io, iv));
        p := p + 1;
        gsi := gsi + 1;
      }
    }

    /**
     * ioapic_setup_irqs, with the table bound the source leaves out (see
     * SetupWriteIndex): the walk over every pin of every I/O APIC
     * (IoapicsWalk, whose effect SetupWalkEntries, SetupWalkTables and
     * SetupWalkRows state); ioapic_max_nr_gsi is the GSI after the last
     * pin of the last I/O APIC.
     */
    method SetupIrqs(io: Ioapics, iv: Irq.IrqVectors, reserveFails: set<nat>, allCpusMask: bv64)
      requires Valid() && io.Valid() && iv.Sized() && Irq.Shaped(iv.Snapshot())
      modifies this`maxNrGsi, entries, io.rte, iv.vectorOf, iv.irqOf
      ensures Valid() && Irq.Shaped(iv.Snapshot())
      ensures maxNrGsi == if io.num == 0 then 0 else io.info[io.num - 1].gsiBase + io.info[io.num - 1].nrPins
      ensures State(io, iv) == IoapicsWalk(old(State(io, iv)), io.info[..io.num], reserveFails, allCpusMask)
    {
      ghost var w := State(io, iv);
      var gsi: nat := 0;
      var k: nat := 0;
      while k < io.num
        invariant k <= io.num && Valid() && Irq.Shaped(iv.Snapshot())
        invariant gsi == if k == 0 then 0 else io.info[k - 1].gsiBase + io.info[k - 1].nrPins
        invariant State(io, iv) == IoapicsWalk(w, io.info[..k], reserveFails, allCpusMask)
      {
        gsi := SetupPins(io, iv, k, reserveFails, allCpusMask);
        IoapicsWalkSnoc(w, io.info[..io.num], k, reserveFails, allCpusMask);
        assert io.info[..io.num][..k] == io.info[..k] && io.info[..io.num][..k + 1] == io.info[..k + 1];
        k := k + 1;
      }
      maxNrGsi := gsi;
    }
  }

  /** What alloc_irq_vector's result tells about a legacy GSI's route. */
  lemma LegacyAllocated(t: Irq.Tables, g: nat, vr: nat, t': Irq.Tables)
    requires Irq.Shaped(t) && (vr, t') == Irq.AllocVector(t, g)
    ensures Irq.Shaped(t')
    ensures vr != Irq.VECTOR_INVALID <==> Irq.IrqAllocated(t', g)
    ensures g < NR_LEGACY_PIN && vr != Irq.VECTOR_INVALID ==> RoutedVector(g, t') == vr
  {
    Irq.AllocVectorBinds(t, g);
  }

  /** The walk over k + 1 I/O APICs is the walk over k followed by the pins of the next. */
  lemma IoapicsWalkSnoc(w: Walk, infos: seq<IoapicInfo>, k: nat, reserveFails: set<nat>, allCpusMask: bv64)
    requires WalkShaped(w) && |infos| <= MAX_IOAPIC_NUM && k < |infos|
    requires forall j :: 0 <= j < |infos| ==> infos[j].nrPins <= MAX_IOAPIC_LINES
    ensures IoapicsWalk(w, infos[..k + 1], reserveFails, allCpusMask)
      == PinsWalk(IoapicsWalk(w, infos[..k], reserveFails, allCpusMask), infos[k], k, infos[k].nrPins, reserveFails, allCpusMask)
  {
    assert infos[..k + 1][..k] == infos[..k];
  }

  /** Two tables indexed by pin (redirection entries, plans) that agree on every pin are equal. */
  lemma CellsExt<T>(r: seq<T>, s: seq<T>)
    requires |r| == |s| == NR_CELLS
    requires forall a, q :: 0 <= a < MAX_IOAPIC_NUM && 0 <= q < MAX_IOAPIC_LINES ==> r[Cell(a, q)] == s[Cell(a, q)]
    ensures r == s
  {
    CellsSplit();
    forall i | 0 <= i < NR_CELLS
      ensures r[i] == s[i]
    {
      assert r[Cell(i / MAX_IOAPIC_LINES, i % MAX_IOAPIC_LINES)] == s[Cell(i / MAX_IOAPIC_LINES, i % MAX_IOAPIC_LINES)];
    }
  }
}
