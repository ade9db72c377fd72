/**
 * The pass-through mapping table (common/ptintr.c): a fixed arena of
 * mappings from a physical interrupt source to a VM's virtual source, a
 * lowest-free-slot allocator, lookups by physical source and by (VM,
 * virtual source), and the add, remap, remove, acknowledge and statistics
 * operations built on them. Each active mapping owns one active record of
 * the per-IRQ table (PtIrq) naming the same VM, kind and virtual source.
 * The two hash indexes are not modelled: a lookup is the active mapping
 * of the kind whose key matches.
 */
module Ptintr {
  import opened Types
  import opened PtintrHdr
  import opened PtirqHdr
  import IrqTable = PtIrq
  import ArchPtIrq
  import ArchPtIntr
  import Irq
  import IoapicRte
  import Ioapic

  const N: nat := IrqTable.N

  // ------------------------------------------------------------- lookups

  /**
   * ptintr_find's test: an active mapping of the kind whose physical
   * source is sid (no VM given), or whose owner is vm and whose virtual
   * source is sid.
   */
  predicate Matches(e: PtIntr, intrType: u32, sid: u64, vm: Option<Vm>)
  {
    e.active && e.intrType == intrType &&
    if vm.None? then e.physSid == sid else e.vm == vm && e.virtSid == sid
  }

  /** The first slot that matches, |es| when none does. */
  function FirstMatch(es: seq<PtIntr>, intrType: u32, sid: u64, vm: Option<Vm>): (k: nat)
    ensures k <= |es|
    ensures forall j :: 0 <= j < k ==> !Matches(es[j], intrType, sid, vm)
    ensures k < |es| ==> Matches(es[k], intrType, sid, vm)
  {
    if |es| == 0 then 0
    else if Matches(es[0], intrType, sid, vm) then 0
    else 1 + FirstMatch(es[1..], intrType, sid, vm)
  }

  /** The lookup: the matching slot, None when no mapping matches. */
  function Lookup(es: seq<PtIntr>, intrType: u32, sid: u64, vm: Option<Vm>): (r: Option<nat>)
    ensures r.Some? ==> r.value < |es| && Matches(es[r.value], intrType, sid, vm)
    ensures r.None? ==> forall j :: 0 <= j < |es| ==> !Matches(es[j], intrType, sid, vm)
  {
    var k := FirstMatch(es, intrType, sid, vm);
    if k < |es| then Some(k) else None
  }

  /** FirstMatch is characterised by its contract. */
  lemma {:induction false} FirstMatchAt(es: seq<PtIntr>, intrType: u32, sid: u64, vm: Option<Vm>, k: nat)
    requires k <= |es|
    requires forall j :: 0 <= j < k ==> !Matches(es[j], intrType, sid, vm)
    requires k < |es| ==> Matches(es[k], intrType, sid, vm)
    ensures FirstMatch(es, intrType, sid, vm) == k
  {
    if |es| > 0 && k > 0 {
      FirstMatchAt(es[1..], intrType, sid, vm, k - 1);
    }
  }

  // ----------------------------------------------------- the table invariant

  function EntryAt(es: seq<PtIntr>, i: nat): PtIntr
    requires i < |es|
  {
    es[i]
  }

  /** A mapping's record in the per-IRQ table: active, same owner, kind and virtual source. */
  predicate Paired(e: PtIntr, i: nat, ies: seq<PtIrq>)
  {
    e.id == i && e.vm.Some? && e.irq.Some? && e.irq.value < |ies| &&
    (e.intrType == PTDEV_INTR_MSI || e.intrType == PTDEV_INTR_INTX) &&
    var r := ies[e.irq.value];
    r.active && r.vm == e.vm && r.intrType == e.intrType && r.virtSid == e.virtSid
  }

  /**
   * Two active mappings use different records, and of one kind they have
   * different physical sources and, for one VM, different virtual ones.
   */
  predicate Apart(a: PtIntr, b: PtIntr)
  {
    a.active && b.active ==>
      a.irq != b.irq &&
      (a.intrType == b.intrType ==> a.physSid != b.physSid && (a.vm == b.vm ==> a.virtSid != b.virtSid))
  }

  /**
   * The table invariant on values: a slot is allocated exactly when its
   * mapping is active, every active mapping is paired with its own
   * record, and no two active mappings share a record or a key.
   */
  ghost predicate Linked(es: seq<PtIntr>, bits: seq<bool>, ies: seq<PtIrq>)
  {
    |es| == N && |bits| == N && |ies| == N &&
    (forall i :: 0 <= i < N ==> bits[i] == es[i].active) &&
    (forall i :: 0 <= i < N && es[i].active ==> Paired(es[i], i, ies)) &&
    (forall i, j :: 0 <= i < N && 0 <= j < N && i != j ==> Apart(EntryAt(es, i), EntryAt(es, j)))
  }

  /** Under the invariant, a matching mapping is the one the lookup finds: keys are unique. */
  lemma LookupUnique(es: seq<PtIntr>, bits: seq<bool>, ies: seq<PtIrq>, intrType: u32, sid: u64, vm: Option<Vm>, i: nat)
    requires Linked(es, bits, ies) && i < N && Matches(es[i], intrType, sid, vm)
    ensures Lookup(es, intrType, sid, vm) == Some(i)
  {
    var r := Lookup(es, intrType, sid, vm);
    assert r.Some?;
    assert Apart(EntryAt(es, i), EntryAt(es, r.value)) || r.value == i;
  }

  /** A record no active mapping can be using: an inactive one. */
  lemma Unreferenced(es: seq<PtIntr>, bits: seq<bool>, ies: seq<PtIrq>, k: nat)
    requires Linked(es, bits, ies) && k < N && !ies[k].active
    ensures forall i :: 0 <= i < N && es[i].active ==> es[i].irq != Some(k)
  {
  }

  /** The owner, kind and virtual source of a record, and that it is active, are kept. */
  predicate SameOwner(a: PtIrq, b: PtIrq)
  {
    b.active && b.vm == a.vm && b.intrType == a.intrType && b.virtSid == a.virtSid
  }

  /** Changes to the per-IRQ table that keep every active record's owner keep the invariant. */
  lemma LinkedIrqFrame(es: seq<PtIntr>, bits: seq<bool>, ies: seq<PtIrq>, ies': seq<PtIrq>)
    requires Linked(es, bits, ies) && |ies'| == N
    requires forall k :: 0 <= k < N && ies[k].active ==> SameOwner(ies[k], ies'[k])
    ensures Linked(es, bits, ies')
  {
    forall i | 0 <= i < N && es[i].active ensures Paired(es[i], i, ies') {
      assert Paired(es[i], i, ies);
    }
  }

  /** Filling a free slot with a mapping that pairs and keeps apart from the others keeps the invariant. */
  lemma LinkedFill(es: seq<PtIntr>, bits: seq<bool>, ies: seq<PtIrq>, k: nat, e: PtIntr)
    requires Linked(es, bits, ies) && k < N && !bits[k]
    requires e.active ==> Paired(e, k, ies) && forall i :: 0 <= i < N && i != k ==> Apart(e, EntryAt(es, i))
    ensures Linked(es[k := e], bits[k := e.active], ies)
  {
    var es' := es[k := e];
    forall i, j | 0 <= i < N && 0 <= j < N && i != j ensures Apart(EntryAt(es', i), EntryAt(es', j)) {
      if i == k {
        assert Apart(e, EntryAt(es, j));
      } else if j == k {
        assert Apart(e, EntryAt(es, i));
      } else {
        assert Apart(EntryAt(es, i), EntryAt(es, j));
      }
    }
  }

  /** Freeing an active mapping together with its record keeps the invariant. */
  lemma LinkedFree(es: seq<PtIntr>, bits: seq<bool>, ies: seq<PtIrq>, i: nat)
    requires Linked(es, bits, ies) && i < N && es[i].active
    ensures var j := es[i].irq.value;
      Linked(es[i := es[i].(active := false)], bits[i := false], ies[j := ies[j].(active := false)])
  {
    var j := es[i].irq.value;
    var es' := es[i := es[i].(active := false)];
    var ies' := ies[j := ies[j].(active := false)];
    forall m | 0 <= m < N && es'[m].active ensures Paired(es'[m], m, ies') {
      assert Apart(EntryAt(es, m), EntryAt(es, i));
      assert Paired(es[m], m, ies);
    }
    forall a, b | 0 <= a < N && 0 <= b < N && a != b ensures Apart(EntryAt(es', a), EntryAt(es', b)) {
      assert Apart(EntryAt(es, a), EntryAt(es, b));
    }
  }

  /**
   * Moving an active mapping and its record to owner vm under the virtual
   * source v keeps the invariant, when no other mapping of the kind has
   * that key for vm.
   */
  lemma LinkedRetarget(es: seq<PtIntr>, bits: seq<bool>, ies: seq<PtIrq>, i: nat, vm: Vm, v: u64)
    requires Linked(es, bits, ies) && i < N && es[i].active
    requires forall m :: 0 <= m < N && m != i ==> !Matches(es[m], es[i].intrType, v, Some(vm))
    ensures var j := es[i].irq.value;
      Linked(es[i := es[i].(vm := Some(vm), virtSid := v)], bits, ies[j := ies[j].(vm := Some(vm), virtSid := v)])
  {
    var j := es[i].irq.value;
    var es' := es[i := es[i].(vm := Some(vm), virtSid := v)];
    var ies' := ies[j := ies[j].(vm := Some(vm), virtSid := v)];
    forall m | 0 <= m < N && es'[m].active ensures Paired(es'[m], m, ies') {
      assert Paired(es[m], m, ies);
      if m != i {
        assert Apart(EntryAt(es, m), EntryAt(es, i));
      }
    }
    forall a, b | 0 <= a < N && 0 <= b < N && a != b ensures Apart(EntryAt(es', a), EntryAt(es', b)) {
      assert Apart(EntryAt(es, a), EntryAt(es, b));
      if a == i {
        assert !Matches(es[b], es[i].intrType, v, Some(vm));
      } else if b == i {
        assert !Matches(es[a], es[i].intrType, v, Some(vm));
      }
    }
  }

  /** Once mapping i is deactivated, neither of its two keys finds a mapping any more. */
  lemma FreedUnmapped(es: seq<PtIntr>, bits: seq<bool>, ies: seq<PtIrq>, i: nat)
    requires Linked(es, bits, ies) && i < N && es[i].active
    ensures var es' := es[i := es[i].(active := false)];
      Lookup(es', es[i].intrType, es[i].physSid, None).None? &&
      Lookup(es', es[i].intrType, es[i].virtSid, es[i].vm).None?
  {
    var es' := es[i := es[i].(active := false)];
    forall m | 0 <= m < N
      ensures !Matches(es'[m], es[i].intrType, es[i].physSid, None)
      ensures !Matches(es'[m], es[i].intrType, es[i].virtSid, es[i].vm)
    {
      if m != i {
        assert Apart(EntryAt(es, m), EntryAt(es, i));
      }
    }
  }

  /** The physical MSI a mapping keeps plays no part in the pairing. */
  lemma LinkedPmsi(es: seq<PtIntr>, bits: seq<bool>, ies: seq<PtIrq>, i: nat, pmsi: MsiInfo)
    requires Linked(es, bits, ies) && i < N
    ensures Linked(es[i := es[i].(pmsi := pmsi)], bits, ies)
  {
    var es' := es[i := es[i].(pmsi := pmsi)];
    forall m | 0 <= m < N && es'[m].active ensures Paired(es'[m], m, ies) {
      assert Paired(es[m], m, ies);
    }
    forall a, b | 0 <= a < N && 0 <= b < N && a != b ensures Apart(EntryAt(es', a), EntryAt(es', b)) {
      assert Apart(EntryAt(es, a), EntryAt(es, b));
    }
  }

  /** Every per-IRQ record active in ies is still there, unchanged, in ies'. */
  ghost predicate KeepsActiveIrqs(ies: seq<PtIrq>, ies': seq<PtIrq>)
  {
    |ies'| == |ies| && forall j :: 0 <= j < |ies| && ies[j].active ==> ies'[j] == ies[j]
  }

  /** Overwriting an inactive per-IRQ record keeps every active one. */
  lemma KeepsActiveOverwrite(ies: seq<PtIrq>, k: nat, r: PtIrq)
    requires k < |ies| && !ies[k].active
    ensures KeepsActiveIrqs(ies, ies[k := r])
  {
  }

  /** The active mappings are the same ones, unchanged; inactive slots may differ. */
  ghost predicate SameActive(es: seq<PtIntr>, es': seq<PtIntr>)
  {
    |es'| == |es| &&
    forall i :: 0 <= i < |es| ==> es'[i].active == es[i].active && (es[i].active ==> es'[i] == es[i])
  }

  /** Overwriting an inactive slot with an inactive mapping keeps the active ones. */
  lemma SameActiveOverwrite(es: seq<PtIntr>, k: nat, e: PtIntr)
    requires k < |es| && !es[k].active && !e.active
    ensures SameActive(es, es[k := e])
  {
  }

  /** Lookups see only active mappings. */
  lemma LookupSameActive(es: seq<PtIntr>, es': seq<PtIntr>, intrType: u32, sid: u64, vm: Option<Vm>)
    requires SameActive(es, es')
    ensures Lookup(es', intrType, sid, vm) == Lookup(es, intrType, sid, vm)
  {
    var k := FirstMatch(es, intrType, sid, vm);
    forall j | 0 <= j < |es| ensures Matches(es'[j], intrType, sid, vm) == Matches(es[j], intrType, sid, vm) {
    }
    FirstMatchAt(es', intrType, sid, vm, k);
  }

  /** A mapping as ptintr_alloc fills a zeroed slot, before it is activated. */
  function NewMapping(k: nat, vm: Vm, intrType: u32, physSid: u64, virtSid: u64): PtIntr
  {
    ZERO_PTINTR.(id := k, vm := Some(vm), intrType := intrType, physSid := physSid, virtSid := virtSid)
  }

  /** Slot k now holds an active new mapping of vm for the two sources; no other slot changed. */
  ghost predicate AddedAt(es: seq<PtIntr>, es': seq<PtIntr>, k: nat, vm: Vm, intrType: u32, physSid: u64, virtSid: u64)
  {
    k < |es| && |es'| == |es| && es'[k].irq.Some? &&
    es' == es[k := NewMapping(k, vm, intrType, physSid, virtSid).(irq := es'[k].irq, active := true)]
  }

  /** The same pin on the other controller: the PIC for the I/O APIC, the I/O APIC for the PIC (and for any other value). */
  function AltIntxSid(virtSid: u64): (alt: u64)
    ensures IntxGsi(alt) == IntxGsi(virtSid)
    ensures IntxCtlr(alt) == (if IntxCtlr(virtSid) == INTX_CTLR_PIC then INTX_CTLR_IOAPIC else INTX_CTLR_PIC)
    ensures alt != virtSid
  {
    IntxSid(IntxGsi(virtSid), if IntxCtlr(virtSid) == INTX_CTLR_PIC then INTX_CTLR_IOAPIC else INTX_CTLR_PIC)
  }

  /** The mapping that holds the physical INTx source belongs to vm. */
  ghost predicate HeldBy(es: seq<PtIntr>, physSid: u64, vm: Vm)
  {
    var p := Lookup(es, PTDEV_INTR_INTX, physSid, None);
    p.Some? && es[p.value].vm == Some(vm)
  }

  /** An active mapping owned by vm. */
  predicate Owned(e: PtIntr, vm: Vm)
  {
    e.active && e.vm == Some(vm)
  }

  /** is_sos_vm of a mapping's owner. */
  predicate OwnedByService(e: PtIntr)
  {
    e.vm.Some? && e.vm.value.isService
  }

  /** ptirq_get_irq of a mapping's record: its IRQ when active, IRQ_INVALID otherwise. */
  function PirqOf(e: PtIntr, ies: seq<PtIrq>): nat
  {
    if e.irq.Some? && e.irq.value < |ies| && ies[e.irq.value].active
    then ies[e.irq.value].allocatedPirq as nat else Irq.IRQ_INVALID
  }

  /**
   * The vector an IRQ is bound to in the IRQ-to-vector table, truncated to
   * the 32 bits the arch layer takes (VECTOR_INVALID past the table).
   */
  function HostVectorOf(vectorOf: seq<nat>, irq: nat): bv32
  {
    ((if irq < |vectorOf| then vectorOf[irq] else Irq.VECTOR_INVALID) % U32) as bv32
  }

  /** A table with no active mapping keeps the invariant over any per-IRQ table. */
  lemma LinkedEmpty(es: seq<PtIntr>, bits: seq<bool>, ies: seq<PtIrq>)
    requires |es| == N && |bits| == N && |ies| == N
    requires forall i :: 0 <= i < N ==> !es[i].active && !bits[i]
    ensures Linked(es, bits, ies)
  {
    forall i, j | 0 <= i < N && 0 <= j < N && i != j ensures Apart(EntryAt(es, i), EntryAt(es, j)) {
      assert !es[i].active;
    }
  }

  /**
   * A successful allocation keeps the invariant: the new mapping in the
   * free slot id is paired with the record just requested in the free
   * slot k, and neither of its keys was in use.
   */
  lemma LinkedAlloc(es: seq<PtIntr>, bits: seq<bool>, ies: seq<PtIrq>, id: nat, k: nat, vm: Vm, intrType: u32,
                    physSid: u64, virtSid: u64, pirq: u32)
    requires Linked(es, bits, ies) && id < N && !bits[id] && k < N && !ies[k].active
    requires intrType == PTDEV_INTR_MSI || intrType == PTDEV_INTR_INTX
    requires Lookup(es, intrType, physSid, None).None? && Lookup(es, intrType, virtSid, Some(vm)).None?
    ensures var e := NewMapping(id, vm, intrType, physSid, virtSid).(irq := Some(k), active := true);
      var r := IrqTable.Fresh(k, vm, intrType, virtSid).(allocatedPirq := pirq, active := true);
      Linked(es[id := e], bits[id := true], ies[k := r])
  {
    var e := NewMapping(id, vm, intrType, physSid, virtSid).(irq := Some(k), active := true);
    var ies' := ies[k := IrqTable.Fresh(k, vm, intrType, virtSid).(allocatedPirq := pirq, active := true)];
    LinkedIrqFrame(es, bits, ies, ies');
    Unreferenced(es, bits, ies, k);
    forall i | 0 <= i < N && i != k ensures Apart(e, EntryAt(es, i)) {
      assert !Matches(es[i], intrType, physSid, None);
      assert !Matches(es[i], intrType, virtSid, Some(vm));
    }
    LinkedFill(es, bits, ies', id, e);
  }

  // ------------------------------------------------- removal and statistics

  /** A mapping after ptintr_remove_and_unmap_vm(vm) reached its slot: deactivated when vm owned it. */
  function UnmapSlot(e: PtIntr, vm: Vm): PtIntr
  {
    if Owned(e, vm) then e.(active := false) else e
  }

  /** The table once the slots below hi have been swept for vm. */
  function UnmapBelow(es: seq<PtIntr>, vm: Vm, hi: nat): seq<PtIntr>
  {
    seq(|es|, k requires 0 <= k < |es| => if k < hi then UnmapSlot(es[k], vm) else es[k])
  }

  /** After the whole sweep vm owns no active mapping, and every other mapping is as it was. */
  lemma UnmapVmClears(es: seq<PtIntr>, vm: Vm)
    ensures |UnmapBelow(es, vm, |es|)| == |es|
    ensures forall k :: 0 <= k < |es| ==> !Owned(UnmapBelow(es, vm, |es|)[k], vm)
    ensures forall k :: 0 <= k < |es| && !Owned(es[k], vm) ==> UnmapBelow(es, vm, |es|)[k] == es[k]
    ensures forall k :: 0 <= k < |es| && Owned(es[k], vm) ==> UnmapBelow(es, vm, |es|)[k] == es[k].(active := false)
  {
  }

  /**
   * The hardware steps of the sweep over the slots below hi: each mapping
   * vm owns has its remapping removed, in slot order, with the physical
   * IRQ its record held when the sweep began.
   */
  function SweepSteps(es: seq<PtIntr>, ies: seq<PtIrq>, vm: Vm, ioapicIdOf: nat -> nat, hi: nat): seq<ArchPtIntr.HwStep>
    requires hi <= |es|
  {
    if hi == 0 then []
    else
      var e := es[hi - 1];
      var p := PirqOf(e, ies);
      SweepSteps(es, ies, vm, ioapicIdOf, hi - 1) + (if Owned(e, vm) then ArchPtIntr.RemoveSteps(e, p, ioapicIdOf(p)) else [])
  }

  /** Every step of the sweep belongs to a mapping of vm: none touches another VM's pin or IRTE. */
  lemma {:induction false} SweepStepsOwned(es: seq<PtIntr>, ies: seq<PtIrq>, vm: Vm, ioapicIdOf: nat -> nat, hi: nat)
    requires hi <= |es|
    ensures forall t :: t in SweepSteps(es, ies, vm, ioapicIdOf, hi) ==>
      exists k :: 0 <= k < hi && Owned(es[k], vm) && t in ArchPtIntr.RemoveSteps(es[k], PirqOf(es[k], ies), ioapicIdOf(PirqOf(es[k], ies)))
  {
    if hi > 0 {
      SweepStepsOwned(es, ies, vm, ioapicIdOf, hi - 1);
    }
  }

  /** The words ptirq_get_intr_data writes for mapping e: its record's IRQ and count; none for an inactive record. */
  function StatOf(e: PtIntr, ies: seq<PtIrq>): (w: seq<u64>)
    ensures |w| == 0 || |w| == 2
  {
    if e.irq.Some? && e.irq.value < |ies| && ies[e.irq.value].active
    then [ies[e.irq.value].allocatedPirq as u64, ies[e.irq.value].intrCount] else []
  }

  /** The words vm's mappings in the slots below hi report, in slot order. */
  function StatWords(es: seq<PtIntr>, ies: seq<PtIrq>, vm: Vm, hi: nat): seq<u64>
    requires hi <= |es|
  {
    if hi == 0 then [] else StatWords(es, ies, vm, hi - 1) + (if Owned(es[hi - 1], vm) then StatOf(es[hi - 1], ies) else [])
  }

  /** The report is made of whole [IRQ, count] pairs, and the report of fewer slots is a prefix of it. */
  lemma {:induction false} StatWordsPrefix(es: seq<PtIntr>, ies: seq<PtIrq>, vm: Vm, lo: nat, hi: nat)
    requires lo <= hi <= |es|
    ensures |StatWords(es, ies, vm, hi)| % 2 == 0
    ensures StatWords(es, ies, vm, lo) <= StatWords(es, ies, vm, hi)
  {
    if hi > 0 {
      if lo < hi {
        StatWordsPrefix(es, ies, vm, lo, hi - 1);
      } else {
        StatWordsPrefix(es, ies, vm, lo - 1, hi - 1);
      }
    }
  }

  /**
   * At most one pair per slot: the word position of ptintr_get_intr_data
   * never passes 2 * CONFIG_MAX_PT_IRQ_ENTRIES, so the 32-bit *pos + 2U of
   * ptirq_get_intr_data cannot wrap.
   */
  lemma {:induction false} StatWordsBound(es: seq<PtIntr>, ies: seq<PtIrq>, vm: Vm, hi: nat)
    requires hi <= |es|
    ensures |StatWords(es, ies, vm, hi)| <= 2 * hi
  {
    if hi > 0 {
      StatWordsBound(es, ies, vm, hi - 1);
    }
  }

  /** Under the invariant vm's report holds one pair per active mapping of vm. */
  lemma {:induction false} StatWordsCount(es: seq<PtIntr>, bits: seq<bool>, ies: seq<PtIrq>, vm: Vm, hi: nat)
    requires Linked(es, bits, ies) && hi <= N
    ensures |StatWords(es, ies, vm, hi)| == 2 * |set k | 0 <= k < hi && Owned(es[k], vm)|
  {
    if hi > 0 {
      StatWordsCount(es, bits, ies, vm, hi - 1);
      var below := set k | 0 <= k < hi - 1 && Owned(es[k], vm);
      if Owned(es[hi - 1], vm) {
        assert Paired(es[hi - 1], hi - 1, ies);
        assert (set k | 0 <= k < hi && Owned(es[k], vm)) == below + {hi - 1};
      } else {
        assert (set k | 0 <= k < hi && Owned(es[k], vm)) == below;
      }
    }
  }

  /** The walk stopped at slot i, whose pair did not fit: the words written are a prefix of the report, as many pairs as fit. */
  lemma StatStopped(es: seq<PtIntr>, ies: seq<PtIrq>, vm: Vm, i: nat, pos: nat, cnt: nat)
    requires i < |es|
    requires pos == |StatWords(es, ies, vm, i)| <= cnt < pos + 2 == |StatWords(es, ies, vm, i + 1)|
    ensures var w := StatWords(es, ies, vm, |es|);
      pos == (if |w| <= cnt / 2 * 2 then |w| else cnt / 2 * 2) && StatWords(es, ies, vm, i) == w[..pos]
  {
    StatWordsPrefix(es, ies, vm, i, i + 1);
    StatWordsPrefix(es, ies, vm, i + 1, |es|);
    StatWordsPrefix(es, ies, vm, i, i);
    assert cnt == pos || cnt == pos + 1;
    assert cnt / 2 * 2 == pos;
  }

  /** Writing two words just past a prefix replaces the first two words after it. */
  lemma WriteTwo(pre: seq<u64>, rest: seq<u64>, a: u64, b: u64)
    requires |rest| >= 2
    ensures (pre + rest)[|pre| := a][|pre| + 1 := b] == pre + [a, b] + rest[2..]
  {
  }

  /** The walk reached the end: the whole report was written, and it fits in whole pairs. */
  lemma StatComplete(es: seq<PtIntr>, ies: seq<PtIrq>, vm: Vm, pos: nat, cnt: nat)
    requires pos == |StatWords(es, ies, vm, |es|)| <= cnt
    ensures pos <= cnt / 2 * 2
  {
    StatWordsPrefix(es, ies, vm, |es|, |es|);
  }

  // -------------------------------------------------------- the source as written

  /**
   * ptintr_alloc's result as written: the slot whenever one was free, even
   * when ptirq_request refused it and ptintr_free has just released it.
   */
  function AllocResultAsWritten(id: nat, requestRet: int): (r: Option<nat>)
    ensures r.Some? <==> id < N
  {
    if id < N then Some(id) else None
  }

  /** add_msix_remapping's return value as written, on the path where add_msix_entry allocates. */
  function AddMsixRetAsWritten(id: nat, requestRet: int): (ret: int)
    ensures ret == 0 <==> id < N
  {
    if AllocResultAsWritten(id, requestRet).None? then -ENODEV else 0
  }

  /**
   * A refused request is reported as a successful add: slot 0 is left
   * holding the new mapping inactive, so no lookup finds the physical
   * source, yet the add returns 0.
   */
  lemma AllocFailureReportedAsAdded(vm: Vm, physBdf: u16, virtBdf: u16, entryNr: u16)
    ensures var physSid := MsiSid(physBdf, entryNr);
      var es := seq(N, _ => ZERO_PTINTR)[0 := NewMapping(0, vm, PTDEV_INTR_MSI, physSid, MsiSid(virtBdf, entryNr))];
      AddMsixRetAsWritten(0, -EINVAL) == 0 && Lookup(es, PTDEV_INTR_MSI, physSid, None).None?
  {
    var physSid := MsiSid(physBdf, entryNr);
    var es := seq(N, _ => ZERO_PTINTR)[0 := NewMapping(0, vm, PTDEV_INTR_MSI, physSid, MsiSid(virtBdf, entryNr))];
    assert forall j :: 0 <= j < N ==> !es[j].active;
  }

  /**
   * The service VM's hand-over in add_intx_entry as written: the mapping
   * passes to vm under virtSid, while its per-IRQ record only has its
   * polarity reset and keeps the previous owner and virtual pin.
   */
  function TransferAsWritten(e: PtIntr, r: PtIrq, vm: Vm, virtSid: u64): (t: (PtIntr, PtIrq))
    ensures t.0.vm == Some(vm) && t.0.virtSid == virtSid
    ensures t.1.vm == r.vm && t.1.virtSid == r.virtSid && t.1.polarity == 0
  {
    (e.(vm := Some(vm), virtSid := virtSid), r.(polarity := 0))
  }

  /**
   * After the hand-over as written the pair is broken, and the deferred
   * delivery still pulses the service VM's virtual I/O APIC pin 5, no
   * line of the VM that now owns the device.
   */
  lemma TransferDeliversToOldOwner()
    ensures var sos := Vm(0, true, 0);
      var uos := Vm(1, false, 0);
      var phys := IntxSid(5, INTX_CTLR_IOAPIC);
      var r := IrqTable.Fresh(0, sos, PTDEV_INTR_INTX, phys).(allocatedPirq := 5, active := true);
      var e := NewMapping(0, sos, PTDEV_INTR_INTX, phys, phys).(irq := Some(0), active := true);
      var t := TransferAsWritten(e, r, uos, IntxSid(7, INTX_CTLR_IOAPIC));
      t.0.vm == Some(uos) && !Paired(t.0, 0, [t.1]) &&
      ArchPtIrq.SoftirqArch(t.1, 0, false) == ArchPtIrq.VioapicLine(Some(sos), 5, ArchPtIrq.RaisingPulse)
  {
    assert IoapicRte.RteTriggerMode(0) != IoapicRte.IOAPIC_RTE_TRGRMODE_LEVEL;
  }

  /**
   * The controller switch of ptintr_add_intx_arch as written: the mapping
   * takes the new virtual pin, its per-IRQ record keeps the old one.
   */
  function SwitchAsWritten(e: PtIntr, r: PtIrq, virtSid: u64): (t: (PtIntr, PtIrq))
    ensures t.0.virtSid == virtSid && t.1 == r
  {
    (e.(virtSid := virtSid), r)
  }

  /**
   * After the switch as written from the PIC to the I/O APIC, the mapping
   * names the virtual I/O APIC pin 4 while the delivery still drives the
   * virtual PIC's.
   */
  lemma SwitchDeliversToOldController()
    ensures var sos := Vm(0, true, 0);
      var phys := IntxSid(4, INTX_CTLR_IOAPIC);
      var pic := IntxSid(4, INTX_CTLR_PIC);
      var r := IrqTable.Fresh(0, sos, PTDEV_INTR_INTX, pic).(allocatedPirq := 4, active := true);
      var e := NewMapping(0, sos, PTDEV_INTR_INTX, phys, pic).(irq := Some(0), active := true);
      var t := SwitchAsWritten(e, r, IntxSid(4, INTX_CTLR_IOAPIC));
      IntxCtlr(t.0.virtSid) == INTX_CTLR_IOAPIC && !Paired(t.0, 0, [t.1]) &&
      ArchPtIrq.SoftirqArch(t.1, 0, false).VpicLine?
  {
  }

  // ------------------------------------------------------------- add outcomes

  /** What an add may change: the mappings, their bitmap, the per-IRQ records and their bitmap. */
  datatype TableState = TableState(es: seq<PtIntr>, bits: seq<bool>, ies: seq<PtIrq>, ibits: seq<bool>)

  /** ptintr_alloc can succeed: a free slot, a free per-IRQ record, and request_irq accepting the IRQ. */
  ghost predicate CanAlloc(s: TableState, intrType: u32, physSid: u64, requestIrq: nat -> int)
  {
    IrqTable.FirstClear(s.bits) < N && IrqTable.FirstClear(s.ibits) < N &&
    requestIrq(ArchPtIrq.GetIrqArch(intrType, physSid)) >= 0
  }

  /**
   * A fresh add from s to s': it succeeds (added) exactly when ptintr_alloc
   * can, and then vm owns a new active mapping of both sources in the lowest
   * free slot; otherwise no active mapping changes.
   */
  ghost predicate FreshAdd(s: TableState, s': TableState, vm: Vm, intrType: u32, physSid: u64, virtSid: u64,
                           requestIrq: nat -> int, added: bool)
  {
    (added <==> CanAlloc(s, intrType, physSid, requestIrq)) &&
    (added ==> AddedAt(s.es, s'.es, IrqTable.FirstClear(s.bits), vm, intrType, physSid, virtSid)) &&
    (!added ==> SameActive(s.es, s'.es))
  }

  /**
   * add_msix_remapping from s to s': 0 with nothing changed when the
   * physical source is already mapped (by any VM); -ENODEV with nothing
   * changed when vm already maps the virtual source; otherwise a fresh add,
   * 0 exactly when it succeeds.
   */
  ghost predicate MsixAddResult(s: TableState, s': TableState, vm: Vm, virtBdf: u16, physBdf: u16, entryNr: u16,
                                requestIrq: nat -> int, ret: int)
  {
    var physSid := MsiSid(physBdf, entryNr);
    var virtSid := MsiSid(virtBdf, entryNr);
    if Lookup(s.es, PTDEV_INTR_MSI, physSid, None).Some? then ret == 0 && s' == s
    else if Lookup(s.es, PTDEV_INTR_MSI, virtSid, Some(vm)).Some? then ret == -ENODEV && s' == s
    else (ret == 0 || ret == -ENODEV) && FreshAdd(s, s', vm, PTDEV_INTR_MSI, physSid, virtSid, requestIrq, ret == 0)
  }

  /** The controller switch of ptintr_add_intx_arch applies: the service VM, a legacy pin, and vm mapping it on the other controller. */
  ghost predicate SwitchApplies(es: seq<PtIntr>, vm: Vm, virtSid: u64)
  {
    vm.isService && IntxGsi(virtSid) < Ioapic.NR_LEGACY_PIN &&
    Lookup(es, PTDEV_INTR_INTX, AltIntxSid(virtSid), Some(vm)).Some?
  }

  /** Mapping i and its record take owner vm and virtual source virtSid (and the record polarity pol); nothing else changes. */
  ghost predicate Retargeted(s: TableState, s': TableState, i: nat, vm: Vm, virtSid: u64, pol: Option<u32>)
  {
    i < |s.es| && s.es[i].irq.Some? && s.es[i].irq.value < |s.ies| &&
    var e := s.es[i];
    var j := e.irq.value;
    var r := s.ies[j].(vm := Some(vm), virtSid := virtSid);
    s'.es == s.es[i := e.(vm := Some(vm), virtSid := virtSid)] &&
    s'.ies == s.ies[j := if pol.Some? then r.(polarity := pol.value) else r] &&
    s'.bits == s.bits && s'.ibits == s.ibits
  }

  /**
   * add_intx_remapping from s to s': -EINVAL with nothing changed for a
   * virtual UART pin; 0 with nothing changed when vm already maps the
   * virtual pin; 0 when the controller switch applies (the switched mapping
   * and record take the virtual pin); otherwise by the holder of the
   * physical pin: a fresh add when none, 0 with nothing changed when vm
   * holds it, the hand-over with polarity reset when the service VM holds
   * it, -ENODEV with nothing changed when another VM does.
   */
  ghost predicate IntxAddResult(s: TableState, s': TableState, vm: Vm, virtGsi: u32, virtCtlr: u32,
                                physGsi: u32, physCtlr: u32, isVuartIntx: (Vm, u32) -> bool,
                                requestIrq: nat -> int, ret: int)
  {
    var virtSid := IntxSid(virtGsi, virtCtlr);
    var physSid := IntxSid(physGsi, physCtlr);
    if isVuartIntx(vm, virtGsi) then ret == -EINVAL && s' == s
    else if Lookup(s.es, PTDEV_INTR_INTX, virtSid, Some(vm)).Some? then ret == 0 && s' == s
    else if SwitchApplies(s.es, vm, virtSid) then
      ret == 0 && Retargeted(s, s', Lookup(s.es, PTDEV_INTR_INTX, AltIntxSid(virtSid), Some(vm)).value, vm, virtSid, None)
    else IntxEntryResult(s, s', vm, physSid, virtSid, requestIrq, ret)
  }

  /**
   * add_intx_entry's outcome as the status add_intx_remapping makes of it,
   * by the holder of the physical pin: a fresh add when none; 0 with
   * nothing changed when vm holds it; the hand-over, polarity reset to
   * active high, when the service VM holds it; -ENODEV with nothing
   * changed when another VM does.
   */
  ghost predicate IntxEntryResult(s: TableState, s': TableState, vm: Vm, physSid: u64, virtSid: u64,
                                  requestIrq: nat -> int, ret: int)
  {
    var p := Lookup(s.es, PTDEV_INTR_INTX, physSid, None);
    if p.None? then
      (ret == 0 || ret == -ENODEV) && FreshAdd(s, s', vm, PTDEV_INTR_INTX, physSid, virtSid, requestIrq, ret == 0)
    else if s.es[p.value].vm == Some(vm) then ret == 0 && s' == s
    else if OwnedByService(s.es[p.value]) then ret == 0 && Retargeted(s, s', p.value, vm, virtSid, Some(0))
    else ret == -ENODEV && s' == s
  }

  // ------------------------------------------------------- hypercall arguments

  /** struct ptintr_add_args: the kind, and the fields of that kind. */
  datatype AddArgs = AddArgs(intrType: u32, msix: AddMsixArgs, intx: AddIntxArgs)
  datatype AddMsixArgs = AddMsixArgs(virtBdf: u16, physBdf: u16, entryNr: u16)
  datatype AddIntxArgs = AddIntxArgs(virtGsi: u32, virtCtlr: u32, physGsi: u32, physCtlr: u32)

  /** struct ptintr_remap_args; remapCb is the remap callback's result when there is a callback. */
  datatype RemapArgs = RemapArgs(intrType: u32, msix: RemapMsixArgs, intx: RemapIntxArgs)
  datatype RemapMsixArgs = RemapMsixArgs(virtBdf: u16, entryNr: u16, info: MsiInfo, remapCb: Option<int>)
  datatype RemapIntxArgs = RemapIntxArgs(virtGsi: u32, virtCtlr: u32)

  /** struct ptintr_rmv_args. */
  datatype RmvArgs = RmvArgs(intrType: u32, msix: RmvMsixArgs, intx: RmvIntxArgs)
  datatype RmvMsixArgs = RmvMsixArgs(physBdf: u16, entryNr: u32)
  datatype RmvIntxArgs = RmvIntxArgs(virtGsi: u32, virtCtlr: u32)

  // -------------------------------------------------------------- the table

  /**
   * ptintr_entries[] with its bitmap, over the per-IRQ table the mappings
   * own records of and the IRQ-to-vector tables the remap paths read.
   */
  class PtIntrTable {
    const entries: array<PtIntr>
    const bitmap: array<bool>
    const irqs: IrqTable.PtIrqTable
    const vectors: Irq.IrqVectors

    /** Both tables keep their own invariants and Linked ties them together. */
    ghost predicate Valid()
      reads this, entries, bitmap, irqs, irqs.entries, irqs.bitmap, irqs.timers, vectors
    {
      entries.Length == N && bitmap.Length == N && bitmap != irqs.bitmap &&
      irqs.Valid() && vectors.Sized() &&
      Linked(entries[..], bitmap[..], irqs.entries[..])
    }

    /** The part of the state an add may change. */
    ghost function Snapshot(): TableState
      reads this, entries, bitmap, irqs, irqs.entries, irqs.bitmap
    {
      TableState(entries[..], bitmap[..], irqs.entries[..], irqs.bitmap[..])
    }

    /** The zero-filled static table: no slot allocated, no mapping active. */
    constructor (irqTable: IrqTable.PtIrqTable, irqVectors: Irq.IrqVectors)
      requires irqTable.Valid() && irqVectors.Sized()
      ensures Valid() && fresh(entries) && fresh(bitmap) && irqs == irqTable && vectors == irqVectors
      ensures forall i :: 0 <= i < N ==> entries[i] == ZERO_PTINTR && !bitmap[i]
    {
      entries := new PtIntr[N](_ => ZERO_PTINTR);
      bitmap := new bool[N](_ => false);
      irqs := irqTable;
      vectors := irqVectors;
      new;
      LinkedEmpty(entries[..], bitmap[..], irqTable.entries[..]);
    }

    /**
     * ptintr_find: the active mapping of the kind whose physical source is
     * sid (vm None), or whose owner is vm and virtual source sid; None when
     * there is none.
     */
    method Find(intrType: u32, sid: u64, vm: Option<Vm>) returns (r: Option<nat>)
      requires entries.Length == N
      ensures r == Lookup(entries[..], intrType, sid, vm)
    {
      var i := 0;
      while i < N && !Matches(entries[i], intrType, sid, vm)
        invariant 0 <= i <= N
        invariant forall j :: 0 <= j < i ==> !Matches(entries[j], intrType, sid, vm)
      {
        i := i + 1;
      }
      FirstMatchAt(entries[..], intrType, sid, vm, i);
      r := if i < N then Some(i) else None;
    }

    /** alloc_ptintr_id: mark and return the lowest clear slot; INVALID_PTDEV_ENTRY_ID when all are set. */
    method AllocId() returns (id: nat)
      requires bitmap.Length == N
      modifies bitmap
      ensures var k := IrqTable.FirstClear(old(bitmap[..]));
              if k < N then id == k && bitmap[..] == old(bitmap[..])[k := true]
              else id == INVALID_PTDEV_ENTRY_ID && bitmap[..] == old(bitmap[..])
    {
      var k := IrqTable.FirstClear(bitmap[..]);
      if k < N {
        bitmap[k] := true;
        id := k;
      } else {
        id := INVALID_PTDEV_ENTRY_ID;
      }
    }

    /**
     * ptintr_alloc, as intended: take the lowest free slot, fill it for the
     * two sources and request its per-IRQ record. When the request fails
     * the slot is released again (ptintr_free of a mapping whose record is
     * still NULL) and None is returned; see the findings for the source's
     * own return value. The caller has checked that neither key is in use.
     */
    method Alloc(vm: Vm, intrType: u32, physSid: u64, virtSid: u64, requestIrq: nat -> int)
      returns (r: Option<nat>)
      requires Valid() && (intrType == PTDEV_INTR_MSI || intrType == PTDEV_INTR_INTX)
      requires Lookup(entries[..], intrType, physSid, None).None?
      requires Lookup(entries[..], intrType, virtSid, Some(vm)).None?
      modifies entries, bitmap, irqs.entries, irqs.bitmap
      ensures Valid()
      ensures var k := IrqTable.FirstClear(old(bitmap[..]));
        if r.Some? then
          r.value == k && AddedAt(old(entries[..]), entries[..], k, vm, intrType, physSid, virtSid) &&
          bitmap[..] == old(bitmap[..])[k := true]
        else
          SameActive(old(entries[..]), entries[..]) && bitmap[..] == old(bitmap[..])
      ensures r.Some? <==>
        IrqTable.FirstClear(old(bitmap[..])) < N && IrqTable.FirstClear(old(irqs.bitmap[..])) < N &&
        requestIrq(ArchPtIrq.GetIrqArch(intrType, physSid)) >= 0
      ensures r.Some? ==>
        PirqOf(entries[r.value], irqs.entries[..]) == requestIrq(ArchPtIrq.GetIrqArch(intrType, physSid)) % U32
      ensures KeepsActiveIrqs(old(irqs.entries[..]), irqs.entries[..])
    {
      r := None;
      ghost var es := entries[..];
      ghost var bits := bitmap[..];
      var id := AllocId();
      if id < N {
        r := Attach(id, vm, intrType, physSid, virtSid, requestIrq, es, bits);
        if r.None? {
          SameActiveOverwrite(es, id, NewMapping(id, vm, intrType, physSid, virtSid));
        }
      }
    }

    /**
     * The second half of ptintr_alloc, for the slot id just marked: fill
     * it, request its per-IRQ record (ptirq_request) and activate it, or
     * release the slot again when the request fails.
     */
    method Attach(id: nat, vm: Vm, intrType: u32, physSid: u64, virtSid: u64, requestIrq: nat -> int,
                  ghost es: seq<PtIntr>, ghost bits: seq<bool>) returns (r: Option<nat>)
      requires entries.Length == N && bitmap.Length == N && bitmap != irqs.bitmap && irqs.Valid() && vectors.Sized()
      requires |bits| == N && id < N && !bits[id] && entries[..] == es && bitmap[..] == bits[id := true]
      requires Linked(es, bits, irqs.entries[..])
      requires intrType == PTDEV_INTR_MSI || intrType == PTDEV_INTR_INTX
      requires Lookup(es, intrType, physSid, None).None? && Lookup(es, intrType, virtSid, Some(vm)).None?
      modifies entries, bitmap, irqs.entries, irqs.bitmap
      ensures Valid()
      ensures var k := IrqTable.FirstClear(old(irqs.bitmap[..]));
        var ret := requestIrq(ArchPtIrq.GetIrqArch(intrType, physSid));
        var blank := NewMapping(id, vm, intrType, physSid, virtSid);
        if k < N && ret >= 0 then
          r == Some(id) && entries[..] == es[id := blank.(irq := Some(k), active := true)] &&
          bitmap[..] == bits[id := true] && PirqOf(entries[id], irqs.entries[..]) == ret % U32
        else
          r == None && entries[..] == es[id := blank] && bitmap[..] == bits
      ensures KeepsActiveIrqs(old(irqs.entries[..]), irqs.entries[..])
    {
      r := None;
      ghost var ies := irqs.entries[..];
      var blank := NewMapping(id, vm, intrType, physSid, virtSid);
      entries[id] := blank;
      ghost var k := IrqTable.FirstClear(irqs.bitmap[..]);
      assert k < N ==> !ies[k].active;
      var ret, irq := irqs.Request(vm, intrType, physSid, virtSid, requestIrq);
      if k < N {
        KeepsActiveOverwrite(ies, k, irqs.entries[k]);
        assert irqs.entries[..] == ies[k := irqs.entries[k]];
      }
      if ret < 0 {
        LinkedIrqFrame(es, bits, ies, irqs.entries[..]);
        Release(id, es, bits, blank);
      } else {
        Activate(id, irq.value, vm, intrType, physSid, virtSid, ret % U32, es, bits, ies);
        r := Some(id);
      }
    }

    /** ptintr_free of a slot whose per-IRQ record was never attached: only the slot is released. */
    method Release(id: nat, ghost es: seq<PtIntr>, ghost bits: seq<bool>, ghost blank: PtIntr)
      requires entries.Length == N && bitmap.Length == N && bitmap != irqs.bitmap && irqs.Valid() && vectors.Sized()
      requires |es| == N && |bits| == N && id < N && !bits[id] && !blank.active
      requires entries[..] == es[id := blank] && bitmap[..] == bits[id := true]
      requires Linked(es, bits, irqs.entries[..])
      modifies bitmap
      ensures Valid() && bitmap[..] == bits
    {
      bitmap[id] := false;
      assert bitmap[..] == bits;
      LinkedFill(es, bits, irqs.entries[..], id, blank);
      assert bits[id := false] == bits;
    }

    /** The request succeeded with record k: the slot's mapping becomes active and points at it. */
    method Activate(id: nat, k: nat, vm: Vm, intrType: u32, physSid: u64, virtSid: u64, pirq: u32,
                    ghost es: seq<PtIntr>, ghost bits: seq<bool>, ghost ies: seq<PtIrq>)
      requires entries.Length == N && bitmap.Length == N && bitmap != irqs.bitmap && irqs.Valid() && vectors.Sized()
      requires |ies| == N && |bits| == N && id < N && !bits[id] && k < N && !ies[k].active
      requires |es| == N && entries[..] == es[id := NewMapping(id, vm, intrType, physSid, virtSid)] && bitmap[..] == bits[id := true]
      requires irqs.entries[..] == ies[k := IrqTable.Fresh(k, vm, intrType, virtSid).(allocatedPirq := pirq, active := true)]
      requires Linked(es, bits, ies)
      requires intrType == PTDEV_INTR_MSI || intrType == PTDEV_INTR_INTX
      requires Lookup(es, intrType, physSid, None).None? && Lookup(es, intrType, virtSid, Some(vm)).None?
      modifies entries
      ensures Valid()
      ensures entries[..] == es[id := NewMapping(id, vm, intrType, physSid, virtSid).(irq := Some(k), active := true)]
    {
      var e := NewMapping(id, vm, intrType, physSid, virtSid).(irq := Some(k), active := true);
      entries[id] := e;
      LinkedAlloc(es, bits, ies, id, k, vm, intrType, physSid, virtSid, pirq);
      assert entries[..] == es[id := e];
    }

    /**
     * add_msix_entry: the mapping already holding the physical MSI source,
     * whoever owns it; otherwise a new mapping for vm unless vm already maps
     * the virtual source; None when nothing is found or allocated.
     */
    method AddMsixEntry(vm: Vm, virtBdf: u16, physBdf: u16, entryNr: u16, requestIrq: nat -> int)
      returns (r: Option<nat>)
      requires Valid()
      modifies entries, bitmap, irqs.entries, irqs.bitmap
      ensures Valid()
      ensures var physSid := MsiSid(physBdf, entryNr);
        var virtSid := MsiSid(virtBdf, entryNr);
        var p := Lookup(old(entries[..]), PTDEV_INTR_MSI, physSid, None);
        var v := Lookup(old(entries[..]), PTDEV_INTR_MSI, virtSid, Some(vm));
        if p.Some? then
          r == p && unchanged(entries, bitmap, irqs.entries, irqs.bitmap)
        else if v.Some? then
          r == None && unchanged(entries, bitmap, irqs.entries, irqs.bitmap)
        else
          FreshAdd(old(Snapshot()), Snapshot(), vm, PTDEV_INTR_MSI, physSid, virtSid, requestIrq, r.Some?) &&
          (r.Some? ==> r.value == IrqTable.FirstClear(old(bitmap[..])))
    {
      var physSid := MsiSid(physBdf, entryNr);
      var virtSid := MsiSid(virtBdf, entryNr);
      r := Find(PTDEV_INTR_MSI, physSid, None);
      if r.None? {
        var v := Find(PTDEV_INTR_MSI, virtSid, Some(vm));
        if v.None? {
          r := Alloc(vm, PTDEV_INTR_MSI, physSid, virtSid, requestIrq);
        }
      }
    }

    /**
     * add_msix_remapping: 0 when the physical MSI source ends up mapped
     * (found or newly added), -ENODEV otherwise; a failed add changes no
     * active mapping.
     */
    method AddMsix(vm: Vm, virtBdf: u16, physBdf: u16, entryNr: u16, requestIrq: nat -> int)
      returns (ret: int)
      requires Valid()
      modifies entries, bitmap, irqs.entries, irqs.bitmap
      ensures Valid()
      ensures MsixAddResult(old(Snapshot()), Snapshot(), vm, virtBdf, physBdf, entryNr, requestIrq, ret)
      ensures ret == 0 || ret == -ENODEV
      ensures ret == 0 <==> Lookup(entries[..], PTDEV_INTR_MSI, MsiSid(physBdf, entryNr), None).Some?
      ensures Lookup(old(entries[..]), PTDEV_INTR_MSI, MsiSid(physBdf, entryNr), None).Some? ==>
        ret == 0 && unchanged(entries, bitmap, irqs.entries, irqs.bitmap)
      ensures ret != 0 ==> SameActive(old(entries[..]), entries[..])
    {
      var r := AddMsixEntry(vm, virtBdf, physBdf, entryNr, requestIrq);
      ret := if r.None? then -ENODEV else 0;
      ghost var physSid := MsiSid(physBdf, entryNr);
      if r.Some? {
        assert Matches(entries[r.value], PTDEV_INTR_MSI, physSid, None);
      } else {
        LookupSameActive(old(entries[..]), entries[..], PTDEV_INTR_MSI, physSid, None);
      }
    }

    /**
     * Hand active mapping i to vm under the virtual source virtSid, and its
     * per-IRQ record with it, so that the two keep naming the same owner.
     * The ownership transfer of add_intx_entry and the controller switch of
     * ptintr_add_intx_arch change only the mapping (see the findings); this
     * is the corrected step both use here.
     */
    method Retarget(i: nat, vm: Vm, virtSid: u64)
      requires Valid() && i < N && entries[i].active
      requires OwnedByService(entries[i]) || entries[i].vm == Some(vm)
      requires forall m :: 0 <= m < N && m != i ==> !Matches(entries[m], entries[i].intrType, virtSid, Some(vm))
      modifies entries, irqs.entries
      ensures Valid()
      ensures entries[..] == old(entries[..])[i := old(entries[i]).(vm := Some(vm), virtSid := virtSid)]
      ensures var j := old(entries[i]).irq.value;
        irqs.entries[..] == old(irqs.entries[..])[j := old(irqs.entries[j]).(vm := Some(vm), virtSid := virtSid)]
    {
      ghost var es := entries[..];
      ghost var ies := irqs.entries[..];
      assert Paired(es[i], i, ies);
      var j := entries[i].irq.value;
      entries[i] := entries[i].(vm := Some(vm), virtSid := virtSid);
      irqs.SetOwner(j, vm, virtSid);
      LinkedRetarget(es, bitmap[..], ies, i, vm, virtSid);
    }

    /**
     * add_intx_entry, called once vm is known not to map the virtual pin
     * yet: a new mapping when no mapping holds the physical pin; the
     * holder's mapping handed over (and its record's polarity reset to
     * active high) when the service VM holds it; None when another VM
     * holds it; the holder's mapping, untouched, when vm itself holds it.
     */
    method AddIntxEntry(vm: Vm, virtGsi: u32, virtCtlr: u32, physGsi: u32, physCtlr: u32, requestIrq: nat -> int)
      returns (r: Option<nat>)
      requires Valid()
      requires Lookup(entries[..], PTDEV_INTR_INTX, IntxSid(virtGsi, virtCtlr), Some(vm)).None?
      modifies entries, bitmap, irqs.entries, irqs.bitmap
      ensures Valid()
      ensures var physSid := IntxSid(physGsi, physCtlr);
        var virtSid := IntxSid(virtGsi, virtCtlr);
        var p := Lookup(old(entries[..]), PTDEV_INTR_INTX, physSid, None);
        if p.None? then
          FreshAdd(old(Snapshot()), Snapshot(), vm, PTDEV_INTR_INTX, physSid, virtSid, requestIrq, r.Some?) &&
          (r.Some? ==> r.value == IrqTable.FirstClear(old(bitmap[..])))
        else
          var e := old(entries[p.value]);
          var j := e.irq.value;
          if e.vm == Some(vm) then
            r == p && unchanged(entries, bitmap, irqs.entries, irqs.bitmap)
          else if OwnedByService(e) then
            r == p && entries[..] == old(entries[..])[p.value := e.(vm := Some(vm), virtSid := virtSid)] &&
            irqs.entries[..] ==
              old(irqs.entries[..])[j := old(irqs.entries[j]).(vm := Some(vm), virtSid := virtSid, polarity := 0)] &&
            unchanged(bitmap, irqs.bitmap)
          else
            r == None && unchanged(entries, bitmap, irqs.entries, irqs.bitmap)
      ensures r.Some? ==>
        Lookup(entries[..], PTDEV_INTR_INTX, IntxSid(virtGsi, virtCtlr), Some(vm)).Some? ||
        HeldBy(entries[..], IntxSid(physGsi, physCtlr), vm)
      ensures r.None? ==> SameActive(old(entries[..]), entries[..])
      ensures IntxEntryResult(old(Snapshot()), Snapshot(), vm, IntxSid(physGsi, physCtlr), IntxSid(virtGsi, virtCtlr),
                              requestIrq, if r.Some? then 0 else -ENODEV)
    {
      var physSid := IntxSid(physGsi, physCtlr);
      var virtSid := IntxSid(virtGsi, virtCtlr);
      r := Find(PTDEV_INTR_INTX, physSid, None);
      if r.None? {
        var v := Find(PTDEV_INTR_INTX, virtSid, Some(vm));
        if v.None? {
          r := Alloc(vm, PTDEV_INTR_INTX, physSid, virtSid, requestIrq);
          if r.Some? {
            assert Matches(entries[r.value], PTDEV_INTR_INTX, virtSid, Some(vm));
          }
        }
      } else if entries[r.value].vm != Some(vm) {
        if OwnedByService(entries[r.value]) {
          Transfer(r.value, vm, virtSid);
          assert Matches(entries[r.value], PTDEV_INTR_INTX, virtSid, Some(vm));
        } else {
          r := None;
        }
      }
    }

    /**
     * The service VM's hand-over in add_intx_entry: mapping i and its record
     * pass to vm under virtSid, and the record's polarity returns to active
     * high (ptirq_set_polarity(intr->irq, 0)).
     */
    method Transfer(i: nat, vm: Vm, virtSid: u64)
      requires Valid() && i < N && entries[i].active && OwnedByService(entries[i])
      requires forall m :: 0 <= m < N && m != i ==> !Matches(entries[m], entries[i].intrType, virtSid, Some(vm))
      modifies entries, irqs.entries
      ensures Valid()
      ensures entries[..] == old(entries[..])[i := old(entries[i]).(vm := Some(vm), virtSid := virtSid)]
      ensures var j := old(entries[i]).irq.value;
        irqs.entries[..] ==
          old(irqs.entries[..])[j := old(irqs.entries[j]).(vm := Some(vm), virtSid := virtSid, polarity := 0)]
    {
      var j := entries[i].irq.value;
      Retarget(i, vm, virtSid);
      ghost var ies := irqs.entries[..];
      assert irqs.entries[j].active by {
        assert Paired(entries[i], i, ies);
      }
      irqs.SetPolarity(j, 0);
      LinkedIrqFrame(entries[..], bitmap[..], ies, irqs.entries[..]);
    }

    /**
     * ptintr_add_intx_arch, called once vm is known not to map virtSid: for
     * the service VM and a legacy pin, a mapping of vm for the same pin on
     * the other controller (the PIC for the I/O APIC and the reverse) is
     * switched to virtSid and -EACCES returned; -ENODEV otherwise, with
     * nothing changed.
     */
    method AddIntxArch(vm: Vm, virtSid: u64) returns (ret: int)
      requires Valid()
      requires Lookup(entries[..], PTDEV_INTR_INTX, virtSid, Some(vm)).None?
      modifies entries, irqs.entries
      ensures Valid()
      ensures var a := Lookup(old(entries[..]), PTDEV_INTR_INTX, AltIntxSid(virtSid), Some(vm));
        if vm.isService && IntxGsi(virtSid) < Ioapic.NR_LEGACY_PIN && a.Some? then
          var e := old(entries[a.value]);
          var j := e.irq.value;
          ret == -EACCES &&
          entries[..] == old(entries[..])[a.value := e.(virtSid := virtSid)] &&
          irqs.entries[..] == old(irqs.entries[..])[j := old(irqs.entries[j]).(virtSid := virtSid)]
        else
          ret == -ENODEV && unchanged(entries, irqs.entries)
      ensures ret == -EACCES ==> Lookup(entries[..], PTDEV_INTR_INTX, virtSid, Some(vm)).Some?
      ensures if SwitchApplies(old(entries[..]), vm, virtSid) then
          ret == -EACCES &&
          Retargeted(old(Snapshot()), Snapshot(), Lookup(old(entries[..]), PTDEV_INTR_INTX, AltIntxSid(virtSid), Some(vm)).value,
                     vm, virtSid, None)
        else
          ret == -ENODEV && Snapshot() == old(Snapshot())
    {
      ret := -ENODEV;
      var virtGsi := IntxGsi(virtSid);
      if vm.isService && virtGsi < Ioapic.NR_LEGACY_PIN {
        var a := Find(PTDEV_INTR_INTX, AltIntxSid(virtSid), Some(vm));
        if a.Some? {
          ghost var e := entries[a.value];
          Retarget(a.value, vm, virtSid);
          assert e.(vm := Some(vm), virtSid := virtSid) == e.(virtSid := virtSid);
          ghost var j := e.irq.value;
          assert old(irqs.entries[j]).vm == Some(vm) by {
            assert Paired(e, a.value, old(irqs.entries[..]));
          }
          ret := -EACCES;
          assert Matches(entries[a.value], PTDEV_INTR_INTX, virtSid, Some(vm));
        }
      }
    }

    /**
     * add_intx_remapping: -EINVAL for a virtual UART pin, with nothing
     * changed; 0 when vm already maps the virtual pin, when its controller
     * was switched, or when add_intx_entry yields a mapping; -ENODEV when it
     * yields none. A 0 leaves vm mapping the virtual pin or holding the
     * physical one; a failure changes no active mapping.
     */
    method AddIntx(vm: Vm, virtGsi: u32, virtCtlr: u32, physGsi: u32, physCtlr: u32,
                   isVuartIntx: (Vm, u32) -> bool, requestIrq: nat -> int)
      returns (ret: int)
      requires Valid()
      modifies entries, bitmap, irqs.entries, irqs.bitmap
      ensures Valid()
      ensures IntxAddResult(old(Snapshot()), Snapshot(), vm, virtGsi, virtCtlr, physGsi, physCtlr, isVuartIntx, requestIrq, ret)
      ensures ret == 0 || ret == -EINVAL || ret == -ENODEV
      ensures ret == -EINVAL <==> isVuartIntx(vm, virtGsi)
      ensures ret == -EINVAL ==> unchanged(entries, bitmap, irqs.entries, irqs.bitmap)
      ensures Lookup(old(entries[..]), PTDEV_INTR_INTX, IntxSid(virtGsi, virtCtlr), Some(vm)).Some? && ret != -EINVAL ==>
        ret == 0 && unchanged(entries, bitmap, irqs.entries, irqs.bitmap)
      ensures ret == 0 ==>
        Lookup(entries[..], PTDEV_INTR_INTX, IntxSid(virtGsi, virtCtlr), Some(vm)).Some? ||
        HeldBy(entries[..], IntxSid(physGsi, physCtlr), vm)
      ensures ret != 0 ==> SameActive(old(entries[..]), entries[..])
    {
      var virtSid := IntxSid(virtGsi, virtCtlr);
      ret := 0;
      if !isVuartIntx(vm, virtGsi) {
        var v := Find(PTDEV_INTR_INTX, virtSid, Some(vm));
        if v.None? {
          ret := AddIntxArch(vm, virtSid);
        }
      } else {
        ret := -EINVAL;
      }
      if ret == -ENODEV {
        var r := AddIntxEntry(vm, virtGsi, virtCtlr, physGsi, physCtlr, requestIrq);
        if r.Some? {
          ret := 0;
        }
      } else if ret == -EACCES {
        ret := 0;
      }
    }

    /** The vector bound to physIrq, as the 32-bit value the arch layer takes. */
    function HostVector(physIrq: nat): (r: bv32)
      requires vectors.Sized()
      reads vectors, vectors.vectorOf, vectors.irqOf
      ensures r == HostVectorOf(vectors.vectorOf[..], physIrq)
    {
      (vectors.IrqToVector(physIrq) % U32) as bv32
    }

    /**
     * remap_msix: -EINVAL, with nothing changed, unless vm maps the virtual
     * MSI source. Otherwise the guest MSI info is recorded in the mapping's
     * per-IRQ record and the arch layer programs the physical MSI: on
     * -EFAULT nothing else changes; on success the mapping keeps the
     * physical MSI, which is handed back in place of the guest's, and the
     * result is the remap callback's when there is one.
     */
    method RemapMsix(vm: Vm, virtBdf: u16, entryNr: u16, info: MsiInfo, remapCb: Option<int>, env: ArchPtIntr.Env)
      returns (ret: int, infoOut: MsiInfo)
      requires Valid() && ArchPtIntr.EnvShaped(env)
      modifies entries, irqs.entries
      ensures Valid()
      ensures var v := Lookup(old(entries[..]), PTDEV_INTR_MSI, MsiSid(virtBdf, entryNr), Some(vm));
        if v.None? then
          ret == -EINVAL && infoOut == info && unchanged(entries, irqs.entries)
        else
          var e := old(entries[v.value]);
          var j := e.irq.value;
          var pirq := old(irqs.entries[j]).allocatedPirq as nat;
          var p := ArchPtIntr.ProgrammedMsi(e, vm, info, pirq, HostVectorOf(old(vectors.vectorOf[..]), pirq), env);
          irqs.entries[..] == old(irqs.entries[..])[j := old(irqs.entries[j]).(vmsi := info)] &&
          if p.None? then
            ret == -EFAULT && infoOut == info && unchanged(entries)
          else
            entries[..] == old(entries[..])[v.value := e.(pmsi := p.value)] && infoOut == p.value &&
            ret == (if remapCb.Some? then remapCb.value else 0)
    {
      ret := -EINVAL;
      infoOut := info;
      var v := Find(PTDEV_INTR_MSI, MsiSid(virtBdf, entryNr), Some(vm));
      if v.Some? {
        var i := v.value;
        ghost var es := entries[..];
        ghost var ies := irqs.entries[..];
        assert Paired(es[i], i, ies);
        var j := entries[i].irq.value;
        var physIrq := irqs.GetIrq(j);
        var hv := HostVector(physIrq);
        assert physIrq == ies[j].allocatedPirq as nat;
        irqs.SetVmsi(j, info);
        LinkedIrqFrame(es, bitmap[..], ies, irqs.entries[..]);
        var pmsi;
        ret, pmsi := ProgramMsi(i, vm, info, physIrq, hv, env);
        if ret == 0 {
          infoOut := pmsi;
          if remapCb.Some? {
            ret := remapCb.value;
          }
        }
      }
    }

    /**
     * The arch half of remap_msix for mapping i: -EFAULT and no change when
     * nothing is programmed, otherwise 0 and the physical MSI, which the
     * mapping keeps.
     */
    method ProgramMsi(i: nat, vm: Vm, info: MsiInfo, physIrq: nat, hv: bv32, env: ArchPtIntr.Env)
      returns (ret: int, pmsi: MsiInfo)
      requires Valid() && i < N && ArchPtIntr.EnvShaped(env)
      modifies entries
      ensures Valid()
      ensures var p := ArchPtIntr.ProgrammedMsi(old(entries[i]), vm, info, physIrq, hv, env);
        if p.None? then ret == -EFAULT && unchanged(entries)
        else ret == 0 && pmsi == p.value && entries[..] == old(entries[..])[i := old(entries[i]).(pmsi := p.value)]
    {
      var e := entries[i];
      ret, pmsi := ArchPtIntr.RemapMsixArch(e, vm, info, physIrq, hv, env);
      if ret == 0 {
        ghost var es := entries[..];
        entries[i] := e.(pmsi := pmsi);
        assert entries[..] == es[i := e.(pmsi := pmsi)];
        LinkedPmsi(es, bitmap[..], irqs.entries[..], i, pmsi);
      }
    }

    /**
     * remap_intx: -EINVAL, with nothing changed and no step, unless vm maps
     * the virtual pin. Otherwise 0: the physical entry is built from the
     * guest's, the polarity it yields is recorded in the per-IRQ record (for
     * a pin of the virtual I/O APIC), and the steps of
     * activate_physical_ioapic leave that entry on the pin; a pin of the
     * virtual PIC is left masked. The virtual line move is handed back.
     */
    method RemapIntx(vm: Vm, virtGsi: u32, virtCtlr: u32, env: ArchPtIntr.Env)
      returns (ret: int, steps: seq<ArchPtIntr.HwStep>, line: Option<ArchPtIrq.LineOp>)
      requires Valid() && ArchPtIntr.EnvShaped(env)
      modifies irqs.entries
      ensures Valid()
      ensures var v := Lookup(entries[..], PTDEV_INTR_INTX, IntxSid(virtGsi, virtCtlr), Some(vm));
        if v.None? then
          ret == -EINVAL && steps == [] && line == None && unchanged(irqs.entries)
        else
          var e := entries[v.value];
          var j := e.irq.value;
          var old_ := old(irqs.entries[j]);
          var pirq := old_.allocatedPirq as nat;
          var b := ArchPtIntr.RteFor(e, vm, pirq, HostVectorOf(old(vectors.vectorOf[..]), pirq), old_.polarity, env);
          ret == 0 && line == b.line &&
          steps == ArchPtIntr.ActivateSteps(pirq, b.rte) &&
          ArchPtIntr.InstallsRte(steps, pirq, b.rte) &&
          (IntxCtlr(e.virtSid) != INTX_CTLR_IOAPIC ==>
            ArchPtIntr.PicPinLeftMasked(steps, pirq, env.ioapicRte(pirq), env.vpicLevel(vm, IntxGsi(e.virtSid)))) &&
          irqs.entries[..] ==
            if b.polarity.Some? then old(irqs.entries[..])[j := old_.(polarity := b.polarity.value)]
            else old(irqs.entries[..])
    {
      ret := -EINVAL;
      steps := [];
      line := None;
      var v := Find(PTDEV_INTR_INTX, IntxSid(virtGsi, virtCtlr), Some(vm));
      if v.Some? {
        steps, line := ActivateIntx(v.value, vm, env);
        ret := 0;
      }
    }

    /**
     * The body of remap_intx for active mapping i of vm: build the physical
     * entry, record the polarity it yields, and take the activation steps.
     */
    method ActivateIntx(i: nat, vm: Vm, env: ArchPtIntr.Env)
      returns (steps: seq<ArchPtIntr.HwStep>, line: Option<ArchPtIrq.LineOp>)
      requires Valid() && ArchPtIntr.EnvShaped(env) && i < N && entries[i].active
      modifies irqs.entries
      ensures Valid()
      ensures var e := entries[i];
        var j := e.irq.value;
        var old_ := old(irqs.entries[j]);
        var pirq := old_.allocatedPirq as nat;
        var b := ArchPtIntr.RteFor(e, vm, pirq, HostVectorOf(old(vectors.vectorOf[..]), pirq), old_.polarity, env);
        line == b.line &&
        steps == ArchPtIntr.ActivateSteps(pirq, b.rte) &&
        ArchPtIntr.InstallsRte(steps, pirq, b.rte) &&
        (IntxCtlr(e.virtSid) != INTX_CTLR_IOAPIC ==>
          ArchPtIntr.PicPinLeftMasked(steps, pirq, env.ioapicRte(pirq), env.vpicLevel(vm, IntxGsi(e.virtSid)))) &&
        irqs.entries[..] ==
          if b.polarity.Some? then old(irqs.entries[..])[j := old_.(polarity := b.polarity.value)]
          else old(irqs.entries[..])
    {
      var b, physIrq := BuildRte(i, vm, env);
      steps := ArchPtIntr.ActivateSteps(physIrq, b.rte);
      ArchPtIntr.ActivationOf(entries[i], vm, physIrq, HostVectorOf(vectors.vectorOf[..], physIrq),
                              old(irqs.entries[entries[i].irq.value]).polarity, env);
      line := b.line;
    }

    /**
     * build_physical_rte for active mapping i of vm, with the IRQ, vector and
     * polarity of its per-IRQ record; the polarity the entry yields is
     * recorded (ptirq_set_polarity).
     */
    method BuildRte(i: nat, vm: Vm, env: ArchPtIntr.Env) returns (b: ArchPtIntr.RteBuild, physIrq: nat)
      requires Valid() && ArchPtIntr.EnvShaped(env) && i < N && entries[i].active
      modifies irqs.entries
      ensures Valid()
      ensures var e := entries[i];
        var j := e.irq.value;
        var old_ := old(irqs.entries[j]);
        physIrq == old_.allocatedPirq as nat &&
        b == ArchPtIntr.RteFor(e, vm, physIrq, HostVectorOf(old(vectors.vectorOf[..]), physIrq), old_.polarity, env) &&
        irqs.entries[..] ==
          if b.polarity.Some? then old(irqs.entries[..])[j := old_.(polarity := b.polarity.value)]
          else old(irqs.entries[..])
    {
      ghost var ies := irqs.entries[..];
      assert Paired(entries[i], i, ies);
      var j := entries[i].irq.value;
      var e := entries[i];
      physIrq := irqs.GetIrq(j);
      var hv := HostVector(physIrq);
      var pol := irqs.GetPolarity(j);
      assert physIrq == ies[j].allocatedPirq as nat && pol == ies[j].polarity;
      b := ArchPtIntr.BuildPhysicalRte(e, vm, physIrq, hv, pol, env);
      if b.polarity.Some? {
        irqs.SetPolarity(j, b.polarity.value);
        LinkedIrqFrame(entries[..], bitmap[..], ies, irqs.entries[..]);
      }
    }

    /**
     * ptintr_free of active mapping i: the mapping goes inactive, its
     * per-IRQ record is freed (ptirq_free, whose released IRQ is handed
     * back) and the slot's bit is cleared.
     */
    method FreeEntry(i: nat) returns (released: Option<nat>)
      requires Valid() && i < N && entries[i].active
      modifies entries, bitmap, irqs.entries, irqs.bitmap, irqs`queue, irqs.timers`timerList
      ensures Valid()
      ensures var e := old(entries[i]);
        var j := e.irq.value;
        entries[..] == old(entries[..])[i := e.(active := false)] &&
        bitmap[..] == old(bitmap[..])[i := false] &&
        irqs.entries[..] == old(irqs.entries[..])[j := old(irqs.entries[j]).(active := false)] &&
        released == Some(old(irqs.entries[j]).allocatedPirq as nat)
    {
      ghost var es := entries[..];
      ghost var ies := irqs.entries[..];
      assert Paired(es[i], i, ies);
      LinkedFree(es, bitmap[..], ies, i);
      entries[i] := entries[i].(active := false);
      released := irqs.Free(entries[i].irq);
      bitmap[entries[i].id] := false;
    }

    /**
     * remove_and_unmap_msix_entry / remove_and_unmap_intx_entry for active
     * mapping i: the arch layer's removal steps, taken while the record
     * still holds its IRQ, then ptintr_free. Neither key of the mapping
     * finds anything afterwards.
     */
    method RemoveEntry(i: nat, ioapicIdOf: nat -> nat) returns (steps: seq<ArchPtIntr.HwStep>, released: Option<nat>)
      requires Valid() && i < N && entries[i].active
      modifies entries, bitmap, irqs.entries, irqs.bitmap, irqs`queue, irqs.timers`timerList
      ensures Valid()
      ensures var e := old(entries[i]);
        var j := e.irq.value;
        var p := old(irqs.entries[j]).allocatedPirq as nat;
        steps == ArchPtIntr.RemoveSteps(e, p, ioapicIdOf(p)) && released == Some(p) &&
        entries[..] == old(entries[..])[i := e.(active := false)] &&
        bitmap[..] == old(bitmap[..])[i := false] &&
        irqs.entries[..] == old(irqs.entries[..])[j := old(irqs.entries[j]).(active := false)]
      ensures Lookup(entries[..], old(entries[i]).intrType, old(entries[i]).physSid, None).None?
      ensures Lookup(entries[..], old(entries[i]).intrType, old(entries[i]).virtSid, old(entries[i]).vm).None?
    {
      assert Paired(entries[i], i, irqs.entries[..]);
      var physIrq := irqs.GetIrq(entries[i].irq.value);
      steps := ArchPtIntr.RemoveSteps(entries[i], physIrq, ioapicIdOf(physIrq));
      FreedUnmapped(entries[..], bitmap[..], irqs.entries[..], i);
      released := FreeEntry(i);
    }

    /**
     * remove_msix_remapping: the mapping holding the physical MSI source
     * is removed only when vm owns it; otherwise nothing changes and no
     * step is taken.
     */
    method RemoveMsix(vm: Vm, physBdf: u16, entryNr: u32, ioapicIdOf: nat -> nat) returns (steps: seq<ArchPtIntr.HwStep>)
      requires Valid()
      modifies entries, bitmap, irqs.entries, irqs.bitmap, irqs`queue, irqs.timers`timerList
      ensures Valid()
      ensures var sid := MsiSid(physBdf, entryNr);
        var p := Lookup(old(entries[..]), PTDEV_INTR_MSI, sid, None);
        if p.Some? && old(entries[p.value]).vm == Some(vm) then
          var e := old(entries[p.value]);
          var pirq := old(irqs.entries[e.irq.value]).allocatedPirq as nat;
          steps == ArchPtIntr.RemoveSteps(e, pirq, ioapicIdOf(pirq)) &&
          entries[..] == old(entries[..])[p.value := e.(active := false)] &&
          bitmap[..] == old(bitmap[..])[p.value := false] &&
          Lookup(entries[..], PTDEV_INTR_MSI, sid, None).None?
        else
          steps == [] && unchanged(entries, bitmap, irqs, irqs.entries, irqs.bitmap, irqs.timers)
    {
      steps := [];
      var p := Find(PTDEV_INTR_MSI, MsiSid(physBdf, entryNr), None);
      if p.Some? && entries[p.value].vm == Some(vm) {
        var released;
        steps, released := RemoveEntry(p.value, ioapicIdOf);
      }
    }

    /**
     * remove_intx_remapping: the mapping of vm for the virtual pin, if
     * any, is removed; afterwards vm maps the pin no more.
     */
    method RemoveIntx(vm: Vm, virtGsi: u32, virtCtlr: u32, ioapicIdOf: nat -> nat) returns (steps: seq<ArchPtIntr.HwStep>)
      requires Valid()
      modifies entries, bitmap, irqs.entries, irqs.bitmap, irqs`queue, irqs.timers`timerList
      ensures Valid()
      ensures var sid := IntxSid(virtGsi, virtCtlr);
        var v := Lookup(old(entries[..]), PTDEV_INTR_INTX, sid, Some(vm));
        Lookup(entries[..], PTDEV_INTR_INTX, sid, Some(vm)).None? &&
        if v.Some? then
          var e := old(entries[v.value]);
          var pirq := old(irqs.entries[e.irq.value]).allocatedPirq as nat;
          steps == ArchPtIntr.RemoveSteps(e, pirq, ioapicIdOf(pirq)) &&
          entries[..] == old(entries[..])[v.value := e.(active := false)] &&
          bitmap[..] == old(bitmap[..])[v.value := false]
        else
          steps == [] && unchanged(entries, bitmap, irqs, irqs.entries, irqs.bitmap, irqs.timers)
    {
      steps := [];
      var v := Find(PTDEV_INTR_INTX, IntxSid(virtGsi, virtCtlr), Some(vm));
      if v.Some? {
        var released;
        steps, released := RemoveEntry(v.value, ioapicIdOf);
      }
    }

    /**
     * ptintr_remove_and_unmap: the MSI or INTx removal the arguments name;
     * nothing for any other kind.
     */
    method RemoveAndUnmap(vm: Vm, args: RmvArgs, ioapicIdOf: nat -> nat) returns (steps: seq<ArchPtIntr.HwStep>)
      requires Valid()
      modifies entries, bitmap, irqs.entries, irqs.bitmap, irqs`queue, irqs.timers`timerList
      ensures Valid()
      ensures args.intrType != PTDEV_INTR_MSI && args.intrType != PTDEV_INTR_INTX ==>
        steps == [] && unchanged(entries, bitmap, irqs, irqs.entries, irqs.bitmap, irqs.timers)
      ensures args.intrType == PTDEV_INTR_MSI ==>
        var sid := MsiSid(args.msix.physBdf, args.msix.entryNr);
        var p := Lookup(old(entries[..]), PTDEV_INTR_MSI, sid, None);
        (p.Some? && old(entries[p.value]).vm == Some(vm) ==>
          Lookup(entries[..], PTDEV_INTR_MSI, sid, None).None? && |steps| == 1) &&
        (p.None? || old(entries[p.value]).vm != Some(vm) ==>
          steps == [] && unchanged(entries, bitmap, irqs, irqs.entries, irqs.bitmap, irqs.timers))
      ensures args.intrType == PTDEV_INTR_INTX ==>
        var sid := IntxSid(args.intx.virtGsi, args.intx.virtCtlr);
        Lookup(entries[..], PTDEV_INTR_INTX, sid, Some(vm)).None? &&
        (|steps| == 2 <==> Lookup(old(entries[..]), PTDEV_INTR_INTX, sid, Some(vm)).Some?) &&
        (steps == [] <==> Lookup(old(entries[..]), PTDEV_INTR_INTX, sid, Some(vm)).None?)
    {
      steps := [];
      if args.intrType == PTDEV_INTR_MSI {
        steps := RemoveMsix(vm, args.msix.physBdf, args.msix.entryNr, ioapicIdOf);
      } else if args.intrType == PTDEV_INTR_INTX {
        steps := RemoveIntx(vm, args.intx.virtGsi, args.intx.virtCtlr, ioapicIdOf);
      }
    }

    /**
     * ptintr_remove_and_unmap_vm: every slot in order, each active mapping
     * of vm removed. Afterwards vm owns no active mapping, every other
     * mapping is as it was, and the steps are those of the removals in
     * slot order.
     */
    method RemoveAndUnmapVm(vm: Vm, ioapicIdOf: nat -> nat) returns (steps: seq<ArchPtIntr.HwStep>)
      requires Valid()
      modifies entries, bitmap, irqs.entries, irqs.bitmap, irqs`queue, irqs.timers`timerList
      ensures Valid()
      ensures entries[..] == UnmapBelow(old(entries[..]), vm, N)
      ensures steps == SweepSteps(old(entries[..]), old(irqs.entries[..]), vm, ioapicIdOf, N)
    {
      ghost var es0 := entries[..];
      ghost var bits0 := bitmap[..];
      ghost var ies0 := irqs.entries[..];
      steps := [];
      var i := 0;
      assert entries[..] == UnmapBelow(es0, vm, 0);
      while i < N
        invariant 0 <= i <= N && Valid()
        invariant Linked(es0, bits0, ies0)
        invariant entries[..] == UnmapBelow(es0, vm, i)
        invariant forall k :: i <= k < N && es0[k].active ==> PirqOf(es0[k], irqs.entries[..]) == PirqOf(es0[k], ies0)
        invariant steps == SweepSteps(es0, ies0, vm, ioapicIdOf, i)
      {
        var s := SweepSlot(i, vm, ioapicIdOf, es0, bits0, ies0);
        steps := steps + s;
        i := i + 1;
      }
    }

    /** One turn of the sweep: slot i is removed when vm owns it. */
    method SweepSlot(i: nat, vm: Vm, ioapicIdOf: nat -> nat, ghost es0: seq<PtIntr>, ghost bits0: seq<bool>, ghost ies0: seq<PtIrq>)
      returns (steps: seq<ArchPtIntr.HwStep>)
      requires Valid() && i < N && Linked(es0, bits0, ies0)
      requires entries[..] == UnmapBelow(es0, vm, i)
      requires forall k :: i <= k < N && es0[k].active ==> PirqOf(es0[k], irqs.entries[..]) == PirqOf(es0[k], ies0)
      modifies entries, bitmap, irqs.entries, irqs.bitmap, irqs`queue, irqs.timers`timerList
      ensures Valid()
      ensures entries[..] == UnmapBelow(es0, vm, i + 1)
      ensures forall k :: i + 1 <= k < N && es0[k].active ==> PirqOf(es0[k], irqs.entries[..]) == PirqOf(es0[k], ies0)
      ensures var p := PirqOf(es0[i], ies0);
        steps == if Owned(es0[i], vm) then ArchPtIntr.RemoveSteps(es0[i], p, ioapicIdOf(p)) else []
    {
      steps := [];
      assert entries[i] == es0[i];
      if entries[i].active && entries[i].vm == Some(vm) {
        ghost var ies := irqs.entries[..];
        assert Paired(es0[i], i, ies);
        var released;
        steps, released := RemoveEntry(i, ioapicIdOf);
        forall k | i + 1 <= k < N && es0[k].active
          ensures PirqOf(es0[k], irqs.entries[..]) == PirqOf(es0[k], ies0)
        {
          assert Apart(EntryAt(es0, i), EntryAt(es0, k));
        }
      }
      assert entries[..] == UnmapBelow(es0, vm, i + 1);
    }

    /**
     * ptintr_intx_ack: the arch acknowledgement of the record behind vm's
     * mapping of the virtual pin, nothing when there is none. The line
     * moved is that pin of vm's matching controller, and the physical IRQ
     * unmasked is the mapping's.
     */
    method IntxAck(vm: Vm, virtGsi: u32, virtCtlr: u32) returns (ack: ArchPtIrq.Ack)
      requires Valid()
      ensures var v := Lookup(entries[..], PTDEV_INTR_INTX, IntxSid(virtGsi, virtCtlr), Some(vm));
        if v.None? then ack == ArchPtIrq.Ack(ArchPtIrq.NoAction, None)
        else
          ack == ArchPtIrq.IntxAckArch(irqs.entries[entries[v.value].irq.value]) &&
          ack.unmask == Some(PirqOf(entries[v.value], irqs.entries[..]))
      ensures ack.line.VioapicLine? || ack.line.VpicLine? ==> ack.line.vm == Some(vm) && ack.line.gsi == virtGsi
      ensures ack.line.VioapicLine? ==> virtCtlr == INTX_CTLR_IOAPIC
      ensures ack.line.VpicLine? ==> virtCtlr == INTX_CTLR_PIC
    {
      ack := ArchPtIrq.Ack(ArchPtIrq.NoAction, None);
      var v := Find(PTDEV_INTR_INTX, IntxSid(virtGsi, virtCtlr), Some(vm));
      if v.Some? && entries[v.value].active {
        assert Paired(entries[v.value], v.value, irqs.entries[..]);
        ack := ArchPtIrq.IntxAckArch(irqs.entries[entries[v.value].irq.value]);
      }
    }

    /**
     * ptintr_get_intr_data: the [IRQ, count] pairs of target's mappings, in
     * slot order, written from the start of the caller's buffer of
     * bufferCnt words while they fit; the number of words written is
     * returned, and the rest of the buffer is left alone.
     */
    method GetIntrData(target: Vm, buffer: array<u64>, bufferCnt: u32) returns (pos: u32)
      requires Valid() && bufferCnt <= buffer.Length
      modifies buffer
      ensures var w := StatWords(entries[..], irqs.entries[..], target, N);
        var room := bufferCnt / 2 * 2;
        pos as int == (if |w| <= room then |w| else room) &&
        buffer[..] == w[..pos] + old(buffer[..])[pos..]
    {
      ghost var es := entries[..];
      ghost var ies := irqs.entries[..];
      ghost var b0 := buffer[..];
      pos := 0;
      var i := 0;
      while i < N
        invariant 0 <= i <= N && es == entries[..] && ies == irqs.entries[..] && |b0| == buffer.Length
        invariant pos as int == |StatWords(es, ies, target, i)| <= bufferCnt
        invariant buffer[..] == StatWords(es, ies, target, i) + b0[pos..]
      {
        var stop;
        pos, stop := StatSlot(i, target, buffer, pos, bufferCnt, b0);
        if stop {
          StatStopped(es, ies, target, i, pos as nat, bufferCnt as nat);
          break;
        }
        i := i + 1;
      }
      if i == N {
        StatComplete(es, ies, target, pos as nat, bufferCnt as nat);
      }
    }

    /**
     * One turn of ptintr_get_intr_data: slot i's pair written after the
     * first pos words when target owns it and it fits; stop, with nothing
     * written, when it does not fit.
     */
    method StatSlot(i: nat, target: Vm, buffer: array<u64>, pos: u32, bufferCnt: u32, ghost b0: seq<u64>)
      returns (next: u32, stop: bool)
      requires Valid() && i < N && bufferCnt <= buffer.Length && |b0| == buffer.Length
      requires pos as int == |StatWords(entries[..], irqs.entries[..], target, i)| <= bufferCnt
      requires buffer[..] == StatWords(entries[..], irqs.entries[..], target, i) + b0[pos..]
      modifies buffer
      ensures var w := StatWords(entries[..], irqs.entries[..], target, i + 1);
        if stop then
          next == pos && buffer[..] == old(buffer[..]) && bufferCnt as int < pos as int + 2 == |w|
        else
          next as int == |w| <= bufferCnt && buffer[..] == w + b0[next..]
    {
      next := pos;
      stop := false;
      ghost var es := entries[..];
      ghost var ies := irqs.entries[..];
      if entries[i].active && entries[i].vm == Some(target) {
        assert Paired(es[i], i, ies);
        var written, p := irqs.GetIntrData(entries[i].irq.value, buffer, pos as nat, bufferCnt as nat);
        if written < 0 {
          stop := true;
        } else {
          next := p as u32;
          var r := ies[es[i].irq.value];
          assert StatWords(es, ies, target, i + 1) == StatWords(es, ies, target, i) + [r.allocatedPirq as u64, r.intrCount];
          WriteTwo(StatWords(es, ies, target, i), b0[pos..], r.allocatedPirq as u64, r.intrCount);
          assert b0[pos..][2..] == b0[next..];
        }
      }
    }

    /** ptintr_add: the MSI or INTx add the arguments name; -EINVAL, with nothing changed, for any other kind. */
    method Add(vm: Vm, args: AddArgs, env: ArchPtIntr.Env) returns (ret: int)
      requires Valid()
      modifies entries, bitmap, irqs.entries, irqs.bitmap
      ensures Valid()
      ensures args.intrType != PTDEV_INTR_MSI && args.intrType != PTDEV_INTR_INTX ==>
        ret == -EINVAL && unchanged(entries, bitmap, irqs.entries, irqs.bitmap)
      ensures args.intrType == PTDEV_INTR_MSI ==>
        MsixAddResult(old(Snapshot()), Snapshot(), vm, args.msix.virtBdf, args.msix.physBdf, args.msix.entryNr,
                      env.requestIrq, ret) &&
        (ret == 0 <==> Lookup(entries[..], PTDEV_INTR_MSI, MsiSid(args.msix.physBdf, args.msix.entryNr), None).Some?)
      ensures args.intrType == PTDEV_INTR_INTX ==>
        IntxAddResult(old(Snapshot()), Snapshot(), vm, args.intx.virtGsi, args.intx.virtCtlr,
                      args.intx.physGsi, args.intx.physCtlr, env.isVuartIntx, env.requestIrq, ret) &&
        (ret == -EINVAL <==> env.isVuartIntx(vm, args.intx.virtGsi)) &&
        (ret == 0 ==>
          Lookup(entries[..], PTDEV_INTR_INTX, IntxSid(args.intx.virtGsi, args.intx.virtCtlr), Some(vm)).Some? ||
          HeldBy(entries[..], IntxSid(args.intx.physGsi, args.intx.physCtlr), vm))
      ensures ret != 0 ==> SameActive(old(entries[..]), entries[..])
    {
      ret := -EINVAL;
      if args.intrType == PTDEV_INTR_MSI {
        ret := AddMsix(vm, args.msix.virtBdf, args.msix.physBdf, args.msix.entryNr, env.requestIrq);
      } else if args.intrType == PTDEV_INTR_INTX {
        ret := AddIntx(vm, args.intx.virtGsi, args.intx.virtCtlr, args.intx.physGsi, args.intx.physCtlr,
                       env.isVuartIntx, env.requestIrq);
      }
    }

    /**
     * ptintr_remap: the MSI or INTx remap the arguments name, whose
     * results are handed back (the MSI info the caller sees, the physical
     * I/O APIC steps and the virtual line move); -EINVAL, with nothing
     * changed, for any other kind or an unknown virtual source.
     */
    method Remap(vm: Vm, args: RemapArgs, env: ArchPtIntr.Env)
      returns (ret: int, infoOut: MsiInfo, steps: seq<ArchPtIntr.HwStep>, line: Option<ArchPtIrq.LineOp>)
      requires Valid() && ArchPtIntr.EnvShaped(env)
      modifies entries, irqs.entries
      ensures Valid()
      ensures args.intrType != PTDEV_INTR_MSI && args.intrType != PTDEV_INTR_INTX ==>
        ret == -EINVAL && unchanged(entries, irqs.entries)
      ensures args.intrType != PTDEV_INTR_INTX ==> steps == [] && line == None
      ensures args.intrType != PTDEV_INTR_MSI ==> infoOut == args.msix.info
      ensures args.intrType == PTDEV_INTR_MSI &&
              Lookup(old(entries[..]), PTDEV_INTR_MSI, MsiSid(args.msix.virtBdf, args.msix.entryNr), Some(vm)).None? ==>
        ret == -EINVAL && unchanged(entries, irqs.entries)
      ensures args.intrType == PTDEV_INTR_INTX ==>
        unchanged(entries) &&
        (ret == 0 <==> Lookup(entries[..], PTDEV_INTR_INTX, IntxSid(args.intx.virtGsi, args.intx.virtCtlr), Some(vm)).Some?)
    {
      ret := -EINVAL;
      infoOut := args.msix.info;
      steps := [];
      line := None;
      if args.intrType == PTDEV_INTR_MSI {
        ret, infoOut := RemapMsix(vm, args.msix.virtBdf, args.msix.entryNr, args.msix.info, args.msix.remapCb, env);
      } else if args.intrType == PTDEV_INTR_INTX {
        ret, steps, line := RemapIntx(vm, args.intx.virtGsi, args.intx.virtCtlr, env);
      }
    }
  }
}
