/**
 * The platform's I/O APICs: their discovery and validation at boot, the
 * masking of every pin, and the save/restore of the redirection tables
 * across suspend. Register access is abstracted: the redirection entries
 * of every (I/O APIC, pin) pair are an array the methods read and write,
 * and the version register each I/O APIC answers with is an input.
 */
module Ioapic {
  import opened Types
  import opened IoapicRte

  /** Pins of the legacy PIC pair, the first I/O APIC pins they are wired to. */
  const NR_LEGACY_PIN: nat := 16

  /**
   * ioapic_nr_pins: bits 23:16 of IOAPICVER hold the index of the highest
   * redirection entry (section 3.2.2 of the 82093AA datasheet), one less
   * than the number of pins.
   */
  function NrPins(version: bv32): (n: nat)
    ensures 1 <= n <= 256
    ensures (n - 1) as bv8 == ((version >> 16) & 0xFF) as bv8
  {
    (((version >> 16) & 0xFF) as bv8) as int + 1
  }

  /** The pin count depends on the maximum-entry field only. */
  lemma NrPinsField(v: bv32, w: bv32)
    requires v & 0x00FF_0000 == w & 0x00FF_0000
    ensures NrPins(v) == NrPins(w)
  {
  }

  /** What the ACPI MADT parser reports for one I/O APIC, and the version register it answers with. */
  datatype MadtIoapic = MadtIoapic(id: nat, addr: nat, gsiBase: nat, version: bv32)

  /** Index of the first I/O APIC with more pins than a table has lines (|m| if none). */
  function FirstOversized(m: seq<MadtIoapic>): (k: nat)
    ensures k <= |m|
    ensures forall j :: 0 <= j < k ==> NrPins(m[j].version) <= MAX_IOAPIC_LINES
    ensures k < |m| ==> NrPins(m[k].version) > MAX_IOAPIC_LINES
  {
    if m == [] || NrPins(m[0].version) > MAX_IOAPIC_LINES then 0
    else 1 + FirstOversized(m[1..])
  }

  /** Total number of pins, that is, of GSIs, of the given I/O APICs. */
  function TotalPins(m: seq<MadtIoapic>): nat
  {
    if m == [] then 0 else NrPins(m[0].version) + TotalPins(m[1..])
  }

  lemma TotalPinsAppend(m: seq<MadtIoapic>, x: MadtIoapic)
    ensures TotalPins(m + [x]) == TotalPins(m) + NrPins(x.version)
  {
    if m != [] {
      assert (m + [x])[1..] == m[1..] + [x];
      TotalPinsAppend(m[1..], x);
    }
  }

  /** init_ioapic_id_info's verdict on a platform. */
  predicate PlatformAcceptable(m: seq<MadtIoapic>)
  {
    |m| <= MAX_IOAPIC_NUM && FirstOversized(m) == |m| && TotalPins(m) >= NR_LEGACY_PIN
  }

  /** A platform is refused exactly when one of the three checks fails. */
  lemma {:induction false} AcceptableIff(m: seq<MadtIoapic>)
    ensures PlatformAcceptable(m) <==>
      |m| <= MAX_IOAPIC_NUM
      && (forall j :: 0 <= j < |m| ==> NrPins(m[j].version) <= MAX_IOAPIC_LINES)
      && TotalPins(m) >= NR_LEGACY_PIN
  {
    if FirstOversized(m) < |m| {
      var k := FirstOversized(m);
      assert NrPins(m[k].version) > MAX_IOAPIC_LINES;
    }
  }

  /** struct ioapic_info: what is recorded for one I/O APIC. */
  datatype IoapicInfo = IoapicInfo(id: nat, addr: nat, gsiBase: nat, nrPins: nat)

  /** Every (I/O APIC, pin) has its own place in one flat table of redirection entries. */
  const NR_CELLS: nat := MAX_IOAPIC_NUM * MAX_IOAPIC_LINES

  function Cell(a: nat, p: nat): nat
  {
    a * MAX_IOAPIC_LINES + p
  }

  lemma CellsSplit()
    ensures forall a, p :: 0 <= a < MAX_IOAPIC_NUM && 0 <= p < MAX_IOAPIC_LINES ==>
      Cell(a, p) < NR_CELLS && Cell(a, p) / MAX_IOAPIC_LINES == a && Cell(a, p) % MAX_IOAPIC_LINES == p
    ensures forall i :: 0 <= i < NR_CELLS ==>
      i / MAX_IOAPIC_LINES < MAX_IOAPIC_NUM && Cell(i / MAX_IOAPIC_LINES, i % MAX_IOAPIC_LINES) == i
  {
  }

  /**
   * ioapic_array[], ioapic_num, and the redirection tables of the
   * platform's I/O APICs together with saved_rte[][].
   */
  class Ioapics {
    var num: nat
    const info: array<IoapicInfo>
    /** The redirection entry each (I/O APIC, pin) holds. */
    const rte: array2<bv64>
    const saved: array2<bv64>

    ghost predicate Shaped()
      reads this
    {
      info.Length == MAX_IOAPIC_NUM
      && rte.Length0 == MAX_IOAPIC_NUM && rte.Length1 == MAX_IOAPIC_LINES
      && saved.Length0 == MAX_IOAPIC_NUM && saved.Length1 == MAX_IOAPIC_LINES
      && saved != rte
    }

    /** The state after a successful init_ioapic_id_info. */
    ghost predicate Valid()
      reads this, info
    {
      Shaped() && num <= MAX_IOAPIC_NUM
      && forall j :: 0 <= j < num ==> info[j].nrPins <= MAX_IOAPIC_LINES
    }

    /** Pin p of I/O APIC a is one of the platform's pins. */
    ghost predicate InTable(a: nat, p: nat)
      reads this, info
    {
      a < num && a < info.Length && p < info[a].nrPins
    }

    /** The nested walk over the pins, at pin p of I/O APIC a, has passed pin q of I/O APIC x. */
    ghost predicate Visited(x: nat, q: nat, a: nat, p: nat)
      reads this, info
    {
      (x < a && InTable(x, q)) || (x == a && q < p)
    }

    /** The redirection entries as one table, pin p of I/O APIC a at Cell(a, p). */
    ghost function Rtes(): (r: seq<bv64>)
      requires Shaped()
      reads this, rte
      ensures |r| == NR_CELLS
      ensures forall a, p :: 0 <= a < MAX_IOAPIC_NUM && 0 <= p < MAX_IOAPIC_LINES ==> r[Cell(a, p)] == rte[a, p]
    {
      CellsSplit();
      seq(NR_CELLS, (i: int) requires 0 <= i < NR_CELLS reads this, rte =>
        rte[i / MAX_IOAPIC_LINES, i % MAX_IOAPIC_LINES])
    }

    /** The zero-filled static state. */
    constructor ()
      ensures Shaped() && num == 0
      ensures fresh(info) && fresh(rte) && fresh(saved)
    {
      num := 0;
      info := new IoapicInfo[MAX_IOAPIC_NUM](_ => IoapicInfo(0, 0, 0, 0));
      rte := new bv64[MAX_IOAPIC_NUM, MAX_IOAPIC_LINES]((_, _) => 0);
      saved := new bv64[MAX_IOAPIC_NUM, MAX_IOAPIC_LINES]((_, _) => 0);
    }

    /**
     * init_ioapic_id_info: record what the MADT reports (at most as many
     * I/O APICs as the array holds), then refuse with -EINVAL a platform
     * with too many I/O APICs, stop with -EINVAL at the first I/O APIC
     * with more pins than CONFIG_MAX_IOAPIC_LINES (those before it keep
     * their pin count), and refuse with -EINVAL fewer pins in total than
     * the 16 legacy ones.
     */
    method InitIdInfo(madt: seq<MadtIoapic>) returns (ret: int)
      requires Shaped() && |madt| < 256
      modifies this`num, info
      ensures Shaped() && num == |madt|
      ensures ret == 0 || ret == -EINVAL
      ensures ret == 0 <==> PlatformAcceptable(madt)
      ensures ret == 0 ==> Valid()
      ensures forall j :: 0 <= j < |madt| && j < MAX_IOAPIC_NUM ==>
        info[j].id == madt[j].id && info[j].addr == madt[j].addr && info[j].gsiBase == madt[j].gsiBase
      ensures |madt| <= MAX_IOAPIC_NUM ==>
        forall j :: 0 <= j < FirstOversized(madt) ==> info[j].nrPins == NrPins(madt[j].version)
    {
      var j := 0;
      while j < |madt| && j < MAX_IOAPIC_NUM
        invariant 0 <= j <= |madt| && j <= MAX_IOAPIC_NUM
        invariant forall i :: 0 <= i < j ==>
          info[i].id == madt[i].id && info[i].addr == madt[i].addr && info[i].gsiBase == madt[i].gsiBase
      {
        info[j] := info[j].(id := madt[j].id, addr := madt[j].addr, gsiBase := madt[j].gsiBase);
        j := j + 1;
      }
      num := |madt|;
      ret := 0;
      if |madt| <= MAX_IOAPIC_NUM {
        var gsi := 0;
        var id := 0;
        while id < num
          invariant 0 <= id <= num == |madt|
          invariant ret == 0 || ret == -EINVAL
          invariant ret == 0 ==> id <= FirstOversized(madt) && gsi == TotalPins(madt[..id])
          invariant ret != 0 ==> id == FirstOversized(madt) < |madt|
          invariant forall i :: 0 <= i < id ==> info[i].nrPins == NrPins(madt[i].version)
          invariant forall i :: 0 <= i < |madt| && i < MAX_IOAPIC_NUM ==>
            info[i].id == madt[i].id && info[i].addr == madt[i].addr && info[i].gsiBase == madt[i].gsiBase
          decreases num - id, if ret == 0 then 1 else 0
        {
          var n := NrPins(madt[id].version);
          if n <= MAX_IOAPIC_LINES {
            assert madt[..id + 1] == madt[..id] + [madt[id]];
            TotalPinsAppend(madt[..id], madt[id]);
            gsi := gsi + n;
            info[id] := info[id].(nrPins := n);
            id := id + 1;
          } else {
            ret := -EINVAL;
            break;
          }
        }
        if ret == 0 {
          assert madt[..id] == madt;
          if gsi < NR_LEGACY_PIN {
            ret := -EINVAL;
          }
        }
      } else {
        ret := -EINVAL;
      }
    }

    /** init_ioapic: write an entry with only the mask bit set to every pin of every I/O APIC. */
    method InitIoapic()
      requires Valid()
      modifies rte
      ensures forall a, p :: 0 <= a < MAX_IOAPIC_NUM && 0 <= p < MAX_IOAPIC_LINES ==>
        rte[a, p] == if InTable(a, p) then MASKED_RTE else old(rte[a, p])
    {
      var a := 0;
      while a < num
        invariant 0 <= a <= num
        invariant forall x, p :: 0 <= x < MAX_IOAPIC_NUM && 0 <= p < MAX_IOAPIC_LINES ==>
          rte[x, p] == if x < a && InTable(x, p) then MASKED_RTE else old(rte[x, p])
      {
        var p := 0;
        while p < info[a].nrPins
          invariant 0 <= p <= info[a].nrPins
          invariant forall x, q :: 0 <= x < MAX_IOAPIC_NUM && 0 <= q < MAX_IOAPIC_LINES ==>
            rte[x, q] == if Visited(x, q, a, p) then MASKED_RTE else old(rte[x, q])
        {
          rte[a, p] := MASKED_RTE;
          p := p + 1;
        }
        a := a + 1;
      }
    }

    /** suspend_ioapic: save every pin's entry. */
    method Suspend()
      requires Valid()
      modifies saved
      ensures forall a, p :: 0 <= a < MAX_IOAPIC_NUM && 0 <= p < MAX_IOAPIC_LINES ==>
        saved[a, p] == if InTable(a, p) then rte[a, p] else old(saved[a, p])
    {
      var a := 0;
      while a < num
        invariant 0 <= a <= num
        invariant forall x, p :: 0 <= x < MAX_IOAPIC_NUM && 0 <= p < MAX_IOAPIC_LINES ==>
          saved[x, p] == if x < a && InTable(x, p) then rte[x, p] else old(saved[x, p])
      {
        var p := 0;
        while p < info[a].nrPins
          invariant 0 <= p <= info[a].nrPins
          invariant forall x, q :: 0 <= x < MAX_IOAPIC_NUM && 0 <= q < MAX_IOAPIC_LINES ==>
            saved[x, q] == if Visited(x, q, a, p) then rte[x, q] else old(saved[x, q])
        {
          saved[a, p] := rte[a, p];
          p := p + 1;
        }
        a := a + 1;
      }
    }

    /** resume_ioapic: write every pin's saved entry back. */
    method Resume()
      requires Valid()
      modifies rte
      ensures forall a, p :: 0 <= a < MAX_IOAPIC_NUM && 0 <= p < MAX_IOAPIC_LINES ==>
        rte[a, p] == if InTable(a, p) then saved[a, p] else old(rte[a, p])
    {
      var a := 0;
      while a < num
        invariant 0 <= a <= num
        invariant forall x, p :: 0 <= x < MAX_IOAPIC_NUM && 0 <= p < MAX_IOAPIC_LINES ==>
          rte[x, p] == if x < a && InTable(x, p) then saved[x, p] else old(rte[x, p])
      {
        var p := 0;
        while p < info[a].nrPins
          invariant 0 <= p <= info[a].nrPins
          invariant forall x, q :: 0 <= x < MAX_IOAPIC_NUM && 0 <= q < MAX_IOAPIC_LINES ==>
            rte[x, q] == if Visited(x, q, a, p) then saved[x, q] else old(rte[x, q])
        {
          rte[a, p] := saved[a, p];
          p := p + 1;
        }
        a := a + 1;
      }
    }

    /**
     * A suspend followed by a resume leaves every redirection entry as
     * it was: each pin gets back exactly the entry saved from it.
     */
    method SuspendResume()
      requires Valid()
      modifies rte, saved
      ensures forall a, p :: 0 <= a < MAX_IOAPIC_NUM && 0 <= p < MAX_IOAPIC_LINES ==> rte[a, p] == old(rte[a, p])
    {
      Suspend();
      Resume();
    }
  }
}
