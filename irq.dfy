/**
 * The x86 vector allocator: the forward table from IRQ number to
 * interrupt vector (irq_data[].vector) and the inverse table from vector
 * to IRQ number (vector_to_irq[]), the static bindings installed at boot,
 * first-fit allocation from the dynamic range, release, and the dispatch
 * of an incoming vector.
 *
 * The header declaring the vector constants (x86/irq.h) is not part of
 * this model; the values below are the hypervisor's usual ones. The IRQ
 * constants are those of common/irq.h.
 */
module Irq {
  import opened Types

  const NR_IRQS: nat := 256
  const IRQ_INVALID: nat := 0xffff_ffff
  const TIMER_IRQ: nat := NR_IRQS - 1
  const NOTIFY_VCPU_IRQ: nat := NR_IRQS - 2
  const PMI_IRQ: nat := NR_IRQS - 3
  const NR_LEGACY_IRQ: nat := 16

  const IRQF_LEVEL: bv32 := 2
  const IRQF_PT: bv32 := 4

  const NR_MAX_VECTOR: nat := 0xFF
  const VECTOR_INVALID: nat := NR_MAX_VECTOR + 1
  const VECTOR_DYNAMIC_START: nat := 0x20
  const VECTOR_DYNAMIC_END: nat := 0xDF
  const VECTOR_FIXED_START: nat := 0xE0
  const TIMER_VECTOR: nat := VECTOR_FIXED_START
  const NOTIFY_VCPU_VECTOR: nat := VECTOR_FIXED_START + 1
  const PMI_VECTOR: nat := VECTOR_FIXED_START + 2
  const NR_STATIC_MAPPINGS_1: nat := 3
  const NR_STATIC_MAPPINGS: nat := NR_STATIC_MAPPINGS_1 + MAX_VM_NUM
  /** One posted-interrupt notification vector and IRQ per VM, after the three fixed ones. */
  const POSTED_INTR_VECTOR: nat := VECTOR_FIXED_START + NR_STATIC_MAPPINGS_1
  const POSTED_INTR_IRQ: nat := NR_IRQS - NR_STATIC_MAPPINGS

  // ------------------------------------------------------------ the two tables

  /** irq_data[].vector and vector_to_irq[], as values. */
  datatype Tables = Tables(fwd: seq<nat>, inv: seq<nat>)

  /** Table sizes: one vector per IRQ, one IRQ per vector. */
  predicate Shaped(t: Tables)
  {
    |t.fwd| == NR_IRQS && |t.inv| == NR_MAX_VECTOR + 1
  }

  /**
   * Every entry is a vector or IRQ number or the matching invalid value, and
   * the forward and inverse tables agree: a bound IRQ's vector points back
   * to it, and a bound vector's IRQ points back to it.
   */
  predicate Consistent(t: Tables)
  {
    Shaped(t)
    && (forall i :: 0 <= i < NR_IRQS ==> t.fwd[i] <= VECTOR_INVALID)
    && (forall v :: 0 <= v <= NR_MAX_VECTOR ==> t.inv[v] < NR_IRQS || t.inv[v] == IRQ_INVALID)
    && (forall i :: 0 <= i < NR_IRQS && t.fwd[i] <= NR_MAX_VECTOR ==> t.inv[t.fwd[i]] == i)
    && (forall v :: 0 <= v <= NR_MAX_VECTOR && t.inv[v] < NR_IRQS ==> t.fwd[t.inv[v]] == v)
  }

  /** irq_allocated_arch: the IRQ is in range, has a vector, and the vector points back. */
  predicate IrqAllocated(t: Tables, irq: nat)
    requires Shaped(t)
  {
    irq < NR_IRQS && t.fwd[irq] <= NR_MAX_VECTOR && t.inv[t.fwd[irq]] == irq
  }

  /** With consistent tables, an IRQ is allocated exactly when it has a vector. */
  lemma AllocatedIffBound(t: Tables, irq: nat)
    requires Consistent(t) && irq < NR_IRQS
    ensures IrqAllocated(t, irq) <==> t.fwd[irq] != VECTOR_INVALID
  {
  }

  /** The lowest vector from `from` to the end of the dynamic range that no IRQ holds (VECTOR_DYNAMIC_END + 1 if none). */
  function FirstFreeVector(inv: seq<nat>, from: nat): (v: nat)
    requires |inv| > VECTOR_DYNAMIC_END && from <= VECTOR_DYNAMIC_END + 1
    decreases VECTOR_DYNAMIC_END + 1 - from
    ensures from <= v <= VECTOR_DYNAMIC_END + 1
    ensures forall w :: from <= w < v ==> inv[w] != IRQ_INVALID
    ensures v <= VECTOR_DYNAMIC_END ==> inv[v] == IRQ_INVALID
  {
    if from > VECTOR_DYNAMIC_END then from
    else if inv[from] == IRQ_INVALID then from
    else FirstFreeVector(inv, from + 1)
  }

  /**
   * alloc_irq_vector on tables: the vector and the new tables. Out-of-range
   * IRQs, and IRQs whose vector does not point back, give VECTOR_INVALID; an
   * IRQ already bound keeps its vector; otherwise the lowest free dynamic
   * vector is bound in both tables, or VECTOR_INVALID when none is free.
   */
  function AllocVector(t: Tables, irq: nat): (r: (nat, Tables))
    requires Shaped(t)
    ensures Shaped(r.1)
  {
    if irq >= NR_IRQS then (VECTOR_INVALID, t)
    else if t.fwd[irq] <= NR_MAX_VECTOR then
      (if t.inv[t.fwd[irq]] == irq then t.fwd[irq] else VECTOR_INVALID, t)
    else
      var v := FirstFreeVector(t.inv, VECTOR_DYNAMIC_START);
      if v > VECTOR_DYNAMIC_END then (VECTOR_INVALID, t)
      else (v, Tables(t.fwd[irq := v], t.inv[v := irq]))
  }

  /** What allocation promises: a valid vector is bound to the IRQ in both tables. */
  lemma AllocVectorBinds(t: Tables, irq: nat)
    requires Shaped(t)
    ensures var (v, t') := AllocVector(t, irq);
      Shaped(t')
      && (v == VECTOR_INVALID || (v <= NR_MAX_VECTOR && IrqAllocated(t', irq) && t'.fwd[irq] == v))
      && (v == VECTOR_INVALID ==> t' == t)
      && (v != VECTOR_INVALID <==> IrqAllocated(t', irq))
  {
  }

  /** A fresh binding takes the lowest dynamic vector that was free. */
  lemma AllocVectorFirstFit(t: Tables, irq: nat)
    requires Shaped(t) && irq < NR_IRQS && t.fwd[irq] > NR_MAX_VECTOR
    ensures var v := AllocVector(t, irq).0;
      v != VECTOR_INVALID ==>
        VECTOR_DYNAMIC_START <= v <= VECTOR_DYNAMIC_END && t.inv[v] == IRQ_INVALID
        && forall w :: VECTOR_DYNAMIC_START <= w < v ==> t.inv[w] != IRQ_INVALID
    ensures AllocVector(t, irq).0 == VECTOR_INVALID <==>
      forall w :: VECTOR_DYNAMIC_START <= w <= VECTOR_DYNAMIC_END ==> t.inv[w] != IRQ_INVALID
  {
    var v := FirstFreeVector(t.inv, VECTOR_DYNAMIC_START);
    if v <= VECTOR_DYNAMIC_END {
      assert t.inv[v] == IRQ_INVALID;
    }
  }

  /** Allocation keeps the tables consistent. */
  lemma AllocVectorConsistent(t: Tables, irq: nat)
    requires Consistent(t)
    ensures Consistent(AllocVector(t, irq).1)
  {
    if irq < NR_IRQS && t.fwd[irq] > NR_MAX_VECTOR {
      var v := FirstFreeVector(t.inv, VECTOR_DYNAMIC_START);
      if v <= VECTOR_DYNAMIC_END {
        var t' := Tables(t.fwd[irq := v], t.inv[v := irq]);
        forall i | 0 <= i < NR_IRQS && t'.fwd[i] <= NR_MAX_VECTOR
          ensures t'.inv[t'.fwd[i]] == i
        {
          if i != irq {
            assert t.inv[t.fwd[i]] == i;
          }
        }
        forall w | 0 <= w <= NR_MAX_VECTOR && t'.inv[w] < NR_IRQS
          ensures t'.fwd[t'.inv[w]] == w
        {
          if w != v {
            assert t.fwd[t.inv[w]] == w;
          }
        }
      }
    }
  }

  /** Allocating for one IRQ leaves every other IRQ's vector and allocation status alone. */
  lemma AllocVectorOthers(t: Tables, irq: nat, g: nat)
    requires Shaped(t) && g < NR_IRQS && g != irq
    ensures Shaped(AllocVector(t, irq).1)
    ensures AllocVector(t, irq).1.fwd[g] == t.fwd[g]
    ensures IrqAllocated(AllocVector(t, irq).1, g) == IrqAllocated(t, g)
  {
  }

  /**
   * free_irq_vector on tables: nothing for legacy and out-of-range IRQs,
   * nothing for vectors at or above VECTOR_FIXED_START; otherwise the forward
   * entry is invalidated, and the inverse entry only when it points back.
   */
  function FreeVector(t: Tables, irq: nat): (t': Tables)
    requires Shaped(t)
  {
    if irq < NR_LEGACY_IRQ || irq >= NR_IRQS || t.fwd[irq] >= VECTOR_FIXED_START then t
    else
      var v := t.fwd[irq];
      Tables(t.fwd[irq := VECTOR_INVALID],
             if t.inv[v] == irq then t.inv[v := IRQ_INVALID] else t.inv)
  }

  /** What release promises: a released IRQ is no longer allocated, and releasing twice is releasing once. */
  lemma FreeVectorReleases(t: Tables, irq: nat)
    requires Shaped(t)
    ensures Shaped(FreeVector(t, irq))
    ensures NR_LEGACY_IRQ <= irq < NR_IRQS && t.fwd[irq] < VECTOR_FIXED_START ==>
      !IrqAllocated(FreeVector(t, irq), irq) && FreeVector(t, irq).fwd[irq] == VECTOR_INVALID
    ensures irq < NR_LEGACY_IRQ || irq >= NR_IRQS || t.fwd[irq] >= VECTOR_FIXED_START ==>
      FreeVector(t, irq) == t
    ensures FreeVector(FreeVector(t, irq), irq) == FreeVector(t, irq)
  {
  }

  /** Release keeps the tables consistent. */
  lemma FreeVectorConsistent(t: Tables, irq: nat)
    requires Consistent(t)
    ensures Consistent(FreeVector(t, irq))
  {
    if !(irq < NR_LEGACY_IRQ || irq >= NR_IRQS || t.fwd[irq] >= VECTOR_FIXED_START) {
      var v := t.fwd[irq];
      var t' := FreeVector(t, irq);
      forall i | 0 <= i < NR_IRQS && t'.fwd[i] <= NR_MAX_VECTOR
        ensures t'.inv[t'.fwd[i]] == i
      {
        assert t.inv[t.fwd[i]] == i;
      }
      forall w | 0 <= w <= NR_MAX_VECTOR && t'.inv[w] < NR_IRQS
        ensures t'.fwd[t'.inv[w]] == w
      {
        assert t.fwd[t.inv[w]] == w;
      }
    }
  }

  /** Releasing a vector that allocation just bound to a device IRQ restores the tables. */
  lemma AllocFreeRoundTrip(t: Tables, irq: nat)
    requires Consistent(t) && NR_LEGACY_IRQ <= irq < NR_IRQS && t.fwd[irq] == VECTOR_INVALID
    ensures FreeVector(AllocVector(t, irq).1, irq) == t
  {
    var v := FirstFreeVector(t.inv, VECTOR_DYNAMIC_START);
    if v <= VECTOR_DYNAMIC_END {
      var t' := AllocVector(t, irq).1;
      assert t'.fwd[irq := VECTOR_INVALID] == t.fwd;
      assert t'.inv[v := IRQ_INVALID] == t.inv;
    }
  }

  // ---------------------------------------------------------- static bindings

  datatype Mapping = Mapping(irq: nat, vector: nat)

  /** irq_static_mappings[k] once boot has filled in the posted-interrupt pairs. */
  function StaticMapping(k: nat): (m: Mapping)
    requires k < NR_STATIC_MAPPINGS
    ensures m.irq < NR_IRQS && m.vector <= NR_MAX_VECTOR && m.vector >= VECTOR_FIXED_START
  {
    if k == 0 then Mapping(TIMER_IRQ, TIMER_VECTOR)
    else if k == 1 then Mapping(NOTIFY_VCPU_IRQ, NOTIFY_VCPU_VECTOR)
    else if k == 2 then Mapping(PMI_IRQ, PMI_VECTOR)
    else Mapping(POSTED_INTR_IRQ + (k - NR_STATIC_MAPPINGS_1), POSTED_INTR_VECTOR + (k - NR_STATIC_MAPPINGS_1))
  }

  /** No two static bindings share an IRQ or a vector. */
  lemma StaticMappingsDistinct(j: nat, k: nat)
    requires j < k < NR_STATIC_MAPPINGS
    ensures StaticMapping(j).irq != StaticMapping(k).irq
    ensures StaticMapping(j).vector != StaticMapping(k).vector
  {
  }

  /** Dispatch of an incoming vector. */
  datatype Dispatched = DoIrq(irq: nat) | Ignored | Spurious(handlerCalled: bool)

  /**
   * dispatch_interrupt: a vector whose inverse entry is an IRQ number
   * reaches do_irq only when the forward entry agrees; any other vector is
   * spurious, and the registered spurious handler, if any, is called.
   */
  function DispatchOf(t: Tables, vr: nat, hasSpuriousHandler: bool): Dispatched
    requires Shaped(t) && vr <= NR_MAX_VECTOR
  {
    var irq := t.inv[vr];
    if irq < NR_IRQS then (if vr == t.fwd[irq] then DoIrq(irq) else Ignored)
    else Spurious(hasSpuriousHandler)
  }

  /** With consistent tables a vector is either delivered to its IRQ or spurious, never ignored. */
  lemma DispatchConsistent(t: Tables, vr: nat, h: bool)
    requires Consistent(t) && vr <= NR_MAX_VECTOR
    ensures DispatchOf(t, vr, h) == if t.inv[vr] < NR_IRQS then DoIrq(t.inv[vr]) else Spurious(h)
    ensures DispatchOf(t, vr, h).DoIrq? ==> IrqAllocated(t, DispatchOf(t, vr, h).irq)
  {
  }

  /** irq_need_mask: level-triggered I/O APIC interrupts are masked while handled. */
  predicate IrqNeedMask(flags: bv32, isIoapicIrq: bool)
  {
    flags & IRQF_LEVEL != 0 && isIoapicIrq
  }

  /** irq_need_unmask: the same, except for pass-through devices, whose guest acknowledges them. */
  predicate IrqNeedUnmask(flags: bv32, isIoapicIrq: bool)
  {
    flags & IRQF_LEVEL != 0 && flags & IRQF_PT == 0 && isIoapicIrq
  }

  /**
   * An interrupt is unmasked after handling exactly when it was masked and
   * is not a pass-through one: a pass-through line stays masked until the
   * guest's acknowledgement.
   */
  lemma UnmaskIffMaskedNotPassthrough(flags: bv32, isIoapicIrq: bool)
    ensures IrqNeedUnmask(flags, isIoapicIrq) <==> IrqNeedMask(flags, isIoapicIrq) && flags & IRQF_PT == 0
    ensures IrqNeedMask(flags, isIoapicIrq) && flags & IRQF_PT != 0 ==> !IrqNeedUnmask(flags, isIoapicIrq)
  {
  }

  // --------------------------------------------------------------- the state

  /** irq_data[], vector_to_irq[], irq_static_mappings[], and the CPU's spurious count. */
  class IrqVectors {
    const vectorOf: array<nat>
    const irqOf: array<nat>
    const staticMappings: array<Mapping>
    var spurious: nat

    ghost function Snapshot(): Tables
      reads vectorOf, irqOf
    {
      Tables(vectorOf[..], irqOf[..])
    }

    ghost predicate Sized()
      reads this
    {
      vectorOf.Length == NR_IRQS && irqOf.Length == NR_MAX_VECTOR + 1
      && staticMappings.Length == NR_STATIC_MAPPINGS && vectorOf != irqOf
    }

    ghost predicate Valid()
      reads this, vectorOf, irqOf
    {
      Sized() && Consistent(Snapshot())
    }

    /** The zero-filled static tables, with the three fixed bindings in the mapping list. */
    constructor ()
      ensures Sized() && spurious == 0
      ensures forall k :: 0 <= k < NR_STATIC_MAPPINGS_1 ==> staticMappings[k] == StaticMapping(k)
      ensures forall k :: NR_STATIC_MAPPINGS_1 <= k < NR_STATIC_MAPPINGS ==> staticMappings[k] == Mapping(0, 0)
      ensures fresh(vectorOf) && fresh(irqOf) && fresh(staticMappings)
    {
      vectorOf := new nat[NR_IRQS](_ => 0);
      irqOf := new nat[NR_MAX_VECTOR + 1](_ => 0);
      staticMappings := new Mapping[NR_STATIC_MAPPINGS](
        (k: int) => if 0 <= k < NR_STATIC_MAPPINGS_1 then StaticMapping(k) else Mapping(0, 0));
      spurious := 0;
    }

    /**
     * init_irq_descs_arch: fill in the posted-interrupt pairs, invalidate
     * every entry of both tables, then install the static bindings.
     * Afterwards exactly the static bindings are present and the tables
     * agree. The source asserts that the posted-interrupt slots are still
     * empty, that is, that this runs once.
     */
    method InitIrqDescs()
      requires Sized()
      requires forall k :: NR_STATIC_MAPPINGS_1 <= k < NR_STATIC_MAPPINGS ==> staticMappings[k] == Mapping(0, 0)
      requires forall k :: 0 <= k < NR_STATIC_MAPPINGS_1 ==> staticMappings[k] == StaticMapping(k)
      modifies vectorOf, irqOf, staticMappings
      ensures Valid()
      ensures forall k :: 0 <= k < NR_STATIC_MAPPINGS ==> staticMappings[k] == StaticMapping(k)
      ensures forall k :: 0 <= k < NR_STATIC_MAPPINGS ==>
        vectorOf[StaticMapping(k).irq] == StaticMapping(k).vector
        && irqOf[StaticMapping(k).vector] == StaticMapping(k).irq
      ensures forall i :: 0 <= i < NR_IRQS && !IsStaticIrq(i) ==> vectorOf[i] == VECTOR_INVALID
      ensures forall v :: 0 <= v <= NR_MAX_VECTOR && !IsStaticVector(v) ==> irqOf[v] == IRQ_INVALID
    {
      var i := 0;
      while i < MAX_VM_NUM
        invariant 0 <= i <= MAX_VM_NUM
        invariant forall k :: 0 <= k < NR_STATIC_MAPPINGS_1 + i ==> staticMappings[k] == StaticMapping(k)
      {
        var idx := i + NR_STATIC_MAPPINGS_1;
        staticMappings[idx] := Mapping(POSTED_INTR_IRQ + i, POSTED_INTR_VECTOR + i);
        i := i + 1;
      }
      i := 0;
      while i < NR_IRQS
        invariant 0 <= i <= NR_IRQS
        invariant forall k :: 0 <= k < NR_STATIC_MAPPINGS ==> staticMappings[k] == StaticMapping(k)
        invariant forall j :: 0 <= j < i ==> vectorOf[j] == VECTOR_INVALID
      {
        vectorOf[i] := VECTOR_INVALID;
        i := i + 1;
      }
      i := 0;
      while i < NR_MAX_VECTOR + 1
        invariant 0 <= i <= NR_MAX_VECTOR + 1
        invariant forall k :: 0 <= k < NR_STATIC_MAPPINGS ==> staticMappings[k] == StaticMapping(k)
        invariant forall j :: 0 <= j < NR_IRQS ==> vectorOf[j] == VECTOR_INVALID
        invariant forall j :: 0 <= j < i ==> irqOf[j] == IRQ_INVALID
      {
        irqOf[i] := IRQ_INVALID;
        i := i + 1;
      }
      i := 0;
      while i < NR_STATIC_MAPPINGS
        invariant 0 <= i <= NR_STATIC_MAPPINGS
        invariant forall k :: 0 <= k < NR_STATIC_MAPPINGS ==> staticMappings[k] == StaticMapping(k)
        invariant forall k :: 0 <= k < i ==>
          vectorOf[StaticMapping(k).irq] == StaticMapping(k).vector
          && irqOf[StaticMapping(k).vector] == StaticMapping(k).irq
        invariant forall j :: 0 <= j < NR_IRQS && !StaticIrqBelow(j, i) ==> vectorOf[j] == VECTOR_INVALID
        invariant forall v :: 0 <= v <= NR_MAX_VECTOR && !StaticVectorBelow(v, i) ==> irqOf[v] == IRQ_INVALID
      {
        var m := staticMappings[i];
        forall k | 0 <= k < i ensures StaticMapping(k).irq != m.irq && StaticMapping(k).vector != m.vector {
          StaticMappingsDistinct(k, i);
        }
        vectorOf[m.irq] := m.vector;
        irqOf[m.vector] := m.irq;
        i := i + 1;
      }
      InitConsistent();
    }

    /** The static tables agree. */
    lemma InitConsistent()
      requires Sized()
      requires forall k :: 0 <= k < NR_STATIC_MAPPINGS ==>
        vectorOf[StaticMapping(k).irq] == StaticMapping(k).vector
        && irqOf[StaticMapping(k).vector] == StaticMapping(k).irq
      requires forall i :: 0 <= i < NR_IRQS && !IsStaticIrq(i) ==> vectorOf[i] == VECTOR_INVALID
      requires forall v :: 0 <= v <= NR_MAX_VECTOR && !IsStaticVector(v) ==> irqOf[v] == IRQ_INVALID
      ensures Valid()
    {
      forall i | 0 <= i < NR_IRQS && vectorOf[i] <= NR_MAX_VECTOR
        ensures irqOf[vectorOf[i]] == i
      {
        var k :| 0 <= k < NR_STATIC_MAPPINGS && StaticMapping(k).irq == i;
      }
      forall v | 0 <= v <= NR_MAX_VECTOR && irqOf[v] < NR_IRQS
        ensures vectorOf[irqOf[v]] == v
      {
        var k :| 0 <= k < NR_STATIC_MAPPINGS && StaticMapping(k).vector == v;
      }
    }

    /**
     * alloc_irq_vector, with its first-fit walk over the dynamic range;
     * equal to AllocVector on the tables.
     */
    method Alloc(irq: nat) returns (vr: nat)
      requires Sized() && Shaped(Snapshot())
      modifies vectorOf, irqOf
      ensures (vr, Snapshot()) == AllocVector(old(Snapshot()), irq)
    {
      vr := VECTOR_INVALID;
      if irq < NR_IRQS {
        var v := vectorOf[irq];
        if v <= NR_MAX_VECTOR {
          if irqOf[v] == irq {
            vr := v;
          }
        } else {
          var w := VECTOR_DYNAMIC_START;
          while w <= VECTOR_DYNAMIC_END
            invariant VECTOR_DYNAMIC_START <= w <= VECTOR_DYNAMIC_END + 1
            invariant FirstFreeVector(irqOf[..], VECTOR_DYNAMIC_START) == FirstFreeVector(irqOf[..], w)
            invariant Snapshot() == old(Snapshot())
          {
            if irqOf[w] == IRQ_INVALID {
              vectorOf[irq] := w;
              irqOf[w] := irq;
              break;
            }
            w := w + 1;
          }
          vr := if w > VECTOR_DYNAMIC_END then VECTOR_INVALID else w;
        }
      }
    }

    /** irq_to_vector: the IRQ's vector, VECTOR_INVALID when out of range. */
    function IrqToVector(irq: nat): (r: nat)
      requires Sized()
      reads this, vectorOf, irqOf
      ensures Valid() ==> (r == VECTOR_INVALID || r <= NR_MAX_VECTOR)
      ensures Valid() && r <= NR_MAX_VECTOR ==> IrqAllocated(Snapshot(), irq)
    {
      if irq < NR_IRQS then vectorOf[irq] else VECTOR_INVALID
    }

    /** request_irq_arch: whether a vector is (or gets) bound to the IRQ. */
    method RequestIrqArch(irq: nat) returns (ok: bool)
      requires Sized() && Shaped(Snapshot())
      modifies vectorOf, irqOf
      ensures (if ok then 0 else VECTOR_INVALID, Snapshot()) ==
        var (v, t) := AllocVector(old(Snapshot()), irq); (if v != VECTOR_INVALID then 0 else VECTOR_INVALID, t)
    {
      var v := Alloc(irq);
      ok := v != VECTOR_INVALID;
    }

    /** free_irq_arch / free_irq_vector: equal to FreeVector on the tables. */
    method FreeIrqArch(irq: nat)
      requires Sized() && Shaped(Snapshot())
      modifies vectorOf, irqOf
      ensures Snapshot() == FreeVector(old(Snapshot()), irq)
    {
      if NR_LEGACY_IRQ <= irq < NR_IRQS {
        var v := vectorOf[irq];
        if v < VECTOR_FIXED_START {
          vectorOf[irq] := VECTOR_INVALID;
          if v <= NR_MAX_VECTOR && irqOf[v] == irq {
            irqOf[v] := IRQ_INVALID;
          }
        }
      }
    }

    /** dispatch_interrupt for vector vr: equal to DispatchOf, counting spurious vectors. */
    method DispatchInterrupt(vr: nat, hasSpuriousHandler: bool) returns (d: Dispatched)
      requires Sized() && Shaped(Snapshot()) && vr <= NR_MAX_VECTOR
      modifies this`spurious
      ensures d == DispatchOf(Snapshot(), vr, hasSpuriousHandler)
      ensures spurious == old(spurious) + (if d.Spurious? then 1 else 0)
    {
      var irq := irqOf[vr];
      if irq < NR_IRQS {
        if vr == vectorOf[irq] {
          d := DoIrq(irq);
        } else {
          d := Ignored;
        }
      } else {
        d := HandleSpurious(vr, hasSpuriousHandler);
      }
    }

    /** handle_spurious_interrupt: count it and call the registered handler, if any. */
    method HandleSpurious(vr: nat, hasSpuriousHandler: bool) returns (d: Dispatched)
      modifies this`spurious
      ensures spurious == old(spurious) + 1
      ensures d == Spurious(hasSpuriousHandler)
    {
      spurious := spurious + 1;
      d := Spurious(hasSpuriousHandler);
    }
  }

  /** IRQ i is one of the static bindings. */
  predicate IsStaticIrq(i: nat)
  {
    exists k :: 0 <= k < NR_STATIC_MAPPINGS && StaticMapping(k).irq == i
  }

  predicate IsStaticVector(v: nat)
  {
    exists k :: 0 <= k < NR_STATIC_MAPPINGS && StaticMapping(k).vector == v
  }

  predicate StaticIrqBelow(i: nat, n: nat)
  {
    exists k :: 0 <= k < n && k < NR_STATIC_MAPPINGS && StaticMapping(k).irq == i
  }

  predicate StaticVectorBelow(v: nat, n: nat)
  {
    exists k :: 0 <= k < n && k < NR_STATIC_MAPPINGS && StaticMapping(k).vector == v
  }
}
