/**
 * The per-IRQ pass-through table (common/ptirq.c): a fixed arena of
 * records with a lowest-free-slot allocator, registration of a physical
 * IRQ per record, the interrupt handler that coalesces interrupts of a
 * non-service VM behind a per-record delay timer, and the per-CPU softirq
 * queue that delivers them later. One CPU is modelled; each region the
 * source runs with interrupts disabled is one method.
 */
module PtIrq {
  import opened Types
  import opened PtintrHdr
  import opened PtirqHdr
  import opened Timer
  import ArchPtIrq
  import Irq

  const N: nat := MAX_PT_IRQ_ENTRIES

  // ------------------------------------------------------------ slot bitmap

  /** ffz64_ex over the slot bitmap: the lowest clear slot, or the size when all are set. */
  function FirstClear(bits: seq<bool>): (k: nat)
    ensures k <= |bits|
    ensures forall j :: 0 <= j < k ==> bits[j]
    ensures k < |bits| ==> !bits[k]
  {
    if bits == [] || !bits[0] then 0 else 1 + FirstClear(bits[1..])
  }

  // ----------------------------------------------------------- softirq queue

  /**
   * No record is queued twice. The elements are compared through At so that
   * the quantifier fires only where a proof names At: the queue's members
   * are indexed often and a pairwise quantifier over plain indexing would
   * fire on every pair of them.
   */
  predicate Distinct(q: seq<nat>)
  {
    forall a, b :: 0 <= a < b < |q| ==> At(q, a) != At(q, b)
  }

  function At(q: seq<nat>, a: nat): nat
    requires a < |q|
  {
    q[a]
  }

  /** list_del of a record's node: the queue without x, the others in their order. */
  function Without(q: seq<nat>, x: nat): (r: seq<nat>)
    ensures forall y :: y in r <==> y in q && y != x
    ensures |r| <= |q|
  {
    if q == [] then []
    else (if q[0] == x then [] else [q[0]]) + Without(q[1..], x)
  }

  lemma {:induction false} WithoutDistinct(q: seq<nat>, x: nat)
    requires Distinct(q)
    ensures Distinct(Without(q, x))
  {
    if q != [] {
      assert Distinct(q[1..]) by {
        forall a, b | 0 <= a < b < |q[1..]| ensures At(q[1..], a) != At(q[1..], b) {
          assert At(q, a + 1) != At(q, b + 1);
        }
      }
      WithoutDistinct(q[1..], x);
      assert q[0] !in q[1..] by {
        forall j | 0 <= j < |q[1..]| ensures q[1..][j] != q[0] {
          assert At(q, 0) != At(q, j + 1);
        }
      }
      if q[0] != x {
        DistinctCons(q[0], Without(q[1..], x));
      } else {
        assert Without(q, x) == Without(q[1..], x);
      }
    }
  }

  /** Putting a record that is not queued at the head keeps the queue distinct. */
  lemma {:induction false} DistinctCons(x: nat, w: seq<nat>)
    requires Distinct(w) && x !in w
    ensures Distinct([x] + w)
  {
    var r := [x] + w;
    forall a, b | 0 <= a < b < |r| ensures At(r, a) != At(r, b) {
      assert r[b] == w[b - 1];
      if a > 0 {
        assert At(w, a - 1) != At(w, b - 1);
      }
    }
  }

  /** ... and so does putting it at the tail. */
  lemma {:induction false} DistinctSnoc(w: seq<nat>, x: nat)
    requires Distinct(w) && x !in w
    ensures Distinct(w + [x])
  {
    var r := w + [x];
    forall a, b | 0 <= a < b < |r| ensures At(r, a) != At(r, b) {
      assert r[a] == w[a];
      if b < |w| {
        assert At(w, a) != At(w, b);
      }
    }
  }

  lemma {:induction false} WithoutAbsent(q: seq<nat>, x: nat)
    requires x !in q
    ensures Without(q, x) == q
  {
    if q != [] {
      assert x !in q[1..] by {
        forall j | 0 <= j < |q[1..]| ensures q[1..][j] != x {
          assert q[1..][j] == q[j + 1];
        }
      }
      WithoutAbsent(q[1..], x);
      assert q == [q[0]] + q[1..];
    }
  }

  lemma {:induction false} WithoutAppend(a: seq<nat>, b: seq<nat>, x: nat)
    ensures Without(a + b, x) == Without(a, x) + Without(b, x)
  {
    if a != [] {
      assert (a + b)[1..] == a[1..] + b;
      WithoutAppend(a[1..], b, x);
    } else {
      assert a + b == b;
    }
  }

  /** enq_softirq: unlink the record if queued, then link it at the tail. */
  function Enqueue(q: seq<nat>, x: nat): seq<nat>
  {
    Without(q, x) + [x]
  }

  /**
   * After enq_softirq the record is in the queue exactly once, at the
   * tail, and the other records keep their membership and their order.
   */
  lemma {:induction false} EnqueueOnce(q: seq<nat>, x: nat)
    ensures var r := Enqueue(q, x);
            |r| >= 1 && r[|r| - 1] == x && x !in r[..|r| - 1] &&
            (forall y :: y in r <==> y in q || y == x) &&
            Without(r, x) == Without(q, x)
    ensures Distinct(q) ==> Distinct(Enqueue(q, x))
  {
    var w := Without(q, x);
    var r := w + [x];
    assert r[..|r| - 1] == w;
    WithoutAbsent(w, x);
    WithoutAppend(w, [x], x);
    assert Without([x], x) == [];
    if Distinct(q) {
      WithoutDistinct(q, x);
      DistinctSnoc(w, x);
    }
  }

  /** Enqueuing a record that was just enqueued changes nothing. */
  lemma {:induction false} EnqueueIdempotent(q: seq<nat>, x: nat)
    ensures Enqueue(Enqueue(q, x), x) == Enqueue(q, x)
  {
    EnqueueOnce(q, x);
  }

  // --------------------------------------------------------- deferred delivery

  /** timer_expired: a zero deadline or one that has passed. */
  predicate Expired(timeout: u64, now: u64)
  {
    timeout == 0 || now >= timeout
  }

  /**
   * deq_softirq's test on a queued record: deliverable now because it
   * belongs to the service VM or its delay timer has expired (a slot
   * outside the table is never queued; it counts as due).
   */
  predicate Due(es: seq<PtIrq>, x: nat, now: u64)
  {
    x >= |es| || IsService(es[x]) || Expired(es[x].delayTimeout, now)
  }

  /** The position of the first due record in the queue, or its length when none is due. */
  function FirstDue(q: seq<nat>, es: seq<PtIrq>, now: u64): (k: nat)
    ensures k <= |q|
    ensures forall j :: 0 <= j < k ==> !Due(es, q[j], now)
    ensures k < |q| ==> Due(es, q[k], now)
  {
    if q == [] || Due(es, q[0], now) then 0 else 1 + FirstDue(q[1..], es, now)
  }

  lemma {:induction false} FirstDueAt(q: seq<nat>, es: seq<PtIrq>, now: u64, k: nat)
    requires k <= |q|
    requires forall j :: 0 <= j < k ==> !Due(es, q[j], now)
    requires k < |q| ==> Due(es, q[k], now)
    ensures FirstDue(q, es, now) == k
  {
    if k > 0 {
      assert !Due(es, q[0], now);
      FirstDueAt(q[1..], es, now, k - 1);
    }
  }

  function TimerOf(es: seq<PtIrq>, x: nat): HvTimer
  {
    DelayTimer(x, if x < |es| then es[x] else ZERO_PTIRQ)
  }

  /** The CPU's timer list and the deadline last given to the hardware timer. */
  type TimerState = (seq<HvTimer>, Option<u64>)

  /**
   * add_timer of the delay timers of xs, in order: each is linked into the
   * sorted list, and the hardware deadline follows each one that became
   * the head.
   */
  function Park(s: TimerState, xs: seq<nat>, es: seq<PtIrq>): (r: TimerState)
    decreases |xs|
  {
    if xs == [] then s else ParkAdd(Park(s, xs[..|xs| - 1], es), TimerOf(es, xs[|xs| - 1]))
  }

  /** One successful add_timer: the timer is linked in order; the hardware follows a new head. */
  function ParkAdd(s: TimerState, t: HvTimer): TimerState
  {
    (Insert(s.0, t), if InsertPos(s.0, t.timeout) == 0 then Some(t.timeout) else s.1)
  }

  lemma {:induction false} ParkAppend(s: TimerState, a: seq<nat>, b: seq<nat>, es: seq<PtIrq>)
    ensures Park(s, a + b, es) == Park(Park(s, a, es), b, es)
    decreases |b|
  {
    if b == [] {
      assert a + b == a;
    } else {
      var b' := b[..|b| - 1];
      assert (a + b)[..|a + b| - 1] == a + b';
      assert (a + b)[|a + b| - 1] == b[|b| - 1];
      ParkAppend(s, a, b', es);
    }
  }

  /**
   * Parking keeps the timer list sorted with distinct ids when the parked
   * slots are distinct and not yet started; afterwards exactly the old
   * timers and the parked slots are started.
   */
  lemma {:induction false} ParkValid(s: TimerState, xs: seq<nat>, es: seq<PtIrq>)
    requires Sorted(s.0) && DistinctIds(s.0) && Distinct(xs)
    requires forall j :: 0 <= j < |xs| ==> !Started(s.0, xs[j])
    ensures Sorted(Park(s, xs, es).0) && DistinctIds(Park(s, xs, es).0)
    ensures forall y :: Started(Park(s, xs, es).0, y) <==> Started(s.0, y) || y in xs
    decreases |xs|
  {
    if xs != [] {
      var xs' := xs[..|xs| - 1];
      var x := xs[|xs| - 1];
      assert Distinct(xs') by {
        forall a, b | 0 <= a < b < |xs'| ensures At(xs', a) != At(xs', b) {
          assert At(xs, a) != At(xs, b);
        }
      }
      forall j | 0 <= j < |xs'| ensures !Started(s.0, xs'[j]) {
        assert xs'[j] == xs[j];
      }
      ParkValid(s, xs', es);
      var p := Park(s, xs', es);
      assert x !in xs' by {
        forall j | 0 <= j < |xs'| ensures xs'[j] != x {
          assert At(xs, j) != At(xs, |xs| - 1);
        }
      }
      assert !Started(p.0, x);
      InsertValid(p.0, TimerOf(es, x));
      assert xs == xs' + [x];
      forall y ensures Started(Park(s, xs, es).0, y) <==> Started(s.0, y) || y in xs {
        assert y in xs <==> y in xs' || y == x;
      }
    }
  }

  /** The queued records handed to ptirq_softirq_arch: the due ones that are still active, in queue order. */
  function Delivered(q: seq<nat>, es: seq<PtIrq>, now: u64): seq<nat>
    decreases |q|
  {
    if q == [] then []
    else (if Due(es, q[0], now) && q[0] < |es| && es[q[0]].active then [q[0]] else []) + Delivered(q[1..], es, now)
  }

  /** The queued records that deq_softirq parks on the timer list: the ones not yet due, in queue order. */
  function Parked(q: seq<nat>, es: seq<PtIrq>, now: u64): seq<nat>
    decreases |q|
  {
    if q == [] then [] else (if Due(es, q[0], now) then [] else [q[0]]) + Parked(q[1..], es, now)
  }

  /** Every queued record is either handed over (due and active), parked (not due), or dropped (due but inactive). */
  lemma {:induction false} FiltersMembers(q: seq<nat>, es: seq<PtIrq>, now: u64)
    ensures forall y :: y in Delivered(q, es, now) <==> y in q && Due(es, y, now) && y < |es| && es[y].active
    ensures forall y :: y in Parked(q, es, now) <==> y in q && !Due(es, y, now)
    decreases |q|
  {
    if q != [] {
      FiltersMembers(q[1..], es, now);
      assert q == [q[0]] + q[1..];
    }
  }

  lemma {:induction false} DeliveredAppend(a: seq<nat>, b: seq<nat>, es: seq<PtIrq>, now: u64)
    ensures Delivered(a + b, es, now) == Delivered(a, es, now) + Delivered(b, es, now)
    decreases |a|
  {
    if a == [] {
      assert a + b == b;
    } else {
      assert (a + b)[0] == a[0] && (a + b)[1..] == a[1..] + b;
      DeliveredAppend(a[1..], b, es, now);
    }
  }

  lemma {:induction false} ParkedAppend(a: seq<nat>, b: seq<nat>, es: seq<PtIrq>, now: u64)
    ensures Parked(a + b, es, now) == Parked(a, es, now) + Parked(b, es, now)
    decreases |a|
  {
    if a == [] {
      assert a + b == b;
    } else {
      assert (a + b)[0] == a[0] && (a + b)[1..] == a[1..] + b;
      ParkedAppend(a[1..], b, es, now);
    }
  }

  /** A run of records none of which is due is parked whole and delivers nothing. */
  lemma {:induction false} FiltersNotDue(q: seq<nat>, es: seq<PtIrq>, now: u64)
    requires forall j :: 0 <= j < |q| ==> !Due(es, q[j], now)
    ensures Delivered(q, es, now) == [] && Parked(q, es, now) == q
    decreases |q|
  {
    if q != [] {
      assert !Due(es, q[0], now);
      forall j | 0 <= j < |q[1..]| ensures !Due(es, q[1..][j], now) {
        assert q[1..][j] == q[j + 1];
      }
      FiltersNotDue(q[1..], es, now);
      assert q == [q[0]] + q[1..];
    }
  }

  /**
   * How one deq_softirq call that stops at the due record q[k] splits the
   * queue: the run before it is parked whole, q[k] is delivered when
   * active, and the filters go on with the rest.
   */
  lemma {:induction false} DeqSplit(q: seq<nat>, k: nat, es: seq<PtIrq>, now: u64)
    requires k < |q| && Due(es, q[k], now)
    requires forall j :: 0 <= j < k ==> !Due(es, q[j], now)
    ensures Parked(q, es, now) == q[..k] + Parked(q[k + 1..], es, now)
    ensures Delivered(q, es, now) == Pending(Some(q[k]), es) + Delivered(q[k + 1..], es, now)
  {
    var run := q[..k];
    var rest := q[k..];
    forall j | 0 <= j < |run| ensures !Due(es, run[j], now) {
      assert run[j] == q[j];
    }
    FiltersNotDue(run, es, now);
    assert q == run + rest;
    assert rest[0] == q[k] && rest[1..] == q[k + 1..];
    ParkedAppend(run, rest, es, now);
    DeliveredAppend(run, rest, es, now);
  }

  /** What the softirq loop hands over for the record deq_softirq returned: the record itself when active. */
  function Pending(irq: Option<nat>, es: seq<PtIrq>): (r: seq<nat>)
    ensures r == [] || (irq.Some? && r == [irq.value])
  {
    if irq.Some? && irq.value < |es| && es[irq.value].active then [irq.value] else []
  }

  /**
   * One deq_softirq call of the softirq loop, told by the call's own
   * result: if the whole queue parks pk and hands over dl when p has been
   * parked and ran handed over before the current queue q, the same holds
   * after the call with the skipped run parked and the returned record
   * pending.
   */
  lemma {:induction false} SoftirqTurn(pk: seq<nat>, dl: seq<nat>, p: seq<nat>, ran: seq<nat>, q: seq<nat>,
                                       es: seq<PtIrq>, now: u64, irq: Option<nat>, q1: seq<nat>)
    requires pk == p + Parked(q, es, now) && dl == ran + Delivered(q, es, now)
    requires var k := FirstDue(q, es, now);
      irq == (if k < |q| then Some(q[k]) else None) &&
      q1 == (if k < |q| then q[k + 1..] else [])
    ensures pk == p + q[..FirstDue(q, es, now)] + Parked(q1, es, now)
    ensures dl == ran + Pending(irq, es) + Delivered(q1, es, now)
    ensures irq.Some? ==> |q1| < |q|
    ensures irq.None? ==> q1 == []
  {
    var k := FirstDue(q, es, now);
    if k < |q| {
      DeqSplit(q, k, es, now);
      Assoc(p, q[..k], Parked(q1, es, now));
      Assoc(ran, Pending(irq, es), Delivered(q1, es, now));
    } else {
      FiltersNotDue(q, es, now);
      assert q[..k] == q;
      assert Parked([], es, now) == [] && Delivered([], es, now) == [];
      assert p + q + [] == p + q;
      assert ran + [] + [] == ran;
    }
  }

  lemma Assoc(a: seq<nat>, b: seq<nat>, c: seq<nat>)
    ensures a + (b + c) == a + b + c
  {
  }

  /** One add_timer of deq_softirq extends the parking fold by one record. */
  lemma {:induction false} ParkStep(s0: TimerState, q0: seq<nat>, i: nat, es: seq<PtIrq>, before: TimerState, after: TimerState)
    requires i < |q0| && before == Park(s0, q0[..i], es)
    requires after == ParkAdd(before, TimerOf(es, q0[i]))
    ensures after == Park(s0, q0[..i + 1], es)
  {
    assert q0[..i + 1][..i] == q0[..i];
    assert q0[..i + 1][i] == q0[i];
  }

  // ----------------------------------------------------------- table invariant

  /**
   * The table invariant on values: a slot is allocated exactly when its
   * record is active; an active record knows its slot and its VM; only a
   * delayed record has a deadline; queued records are distinct and
   * active; and a started delay timer belongs to an active, delayed
   * record that is not queued.
   */
  ghost predicate Coherent(es: seq<PtIrq>, bits: seq<bool>, q: seq<nat>, tl: seq<HvTimer>)
  {
    |es| == N && |bits| == N &&
    (forall i :: 0 <= i < N ==> bits[i] == es[i].active) &&
    (forall i :: 0 <= i < N && es[i].active ==> es[i].id == i && es[i].vm.Some?) &&
    (forall i :: 0 <= i < N && es[i].delayTimeout != 0 ==> IsDelayed(es[i])) &&
    Distinct(q) &&
    (forall j :: 0 <= j < |q| ==> q[j] < N && es[q[j]].active) &&
    (forall i :: 0 <= i < N && Started(tl, i) ==> es[i].active && i !in q && IsDelayed(es[i]))
  }

  lemma {:induction false} DistinctHead(q: seq<nat>, i: nat)
    requires Distinct(q) && i < |q|
    ensures q[i] !in q[..i]
  {
    forall j | 0 <= j < i ensures q[..i][j] != q[i] {
      assert At(q, j) != At(q, i);
    }
  }

  /** Before each turn of deq_softirq's loop the list is well formed and the head's timer is not running. */
  lemma {:induction false} ParkPrefix(s0: TimerState, q0: seq<nat>, i: nat, es: seq<PtIrq>)
    requires Sorted(s0.0) && DistinctIds(s0.0) && Distinct(q0) && i < |q0|
    requires forall j :: 0 <= j < |q0| ==> !Started(s0.0, q0[j])
    ensures Sorted(Park(s0, q0[..i], es).0) && DistinctIds(Park(s0, q0[..i], es).0)
    ensures !Started(Park(s0, q0[..i], es).0, q0[i])
  {
    PrefixDistinct(q0, i);
    DistinctHead(q0, i);
    ParkValid(s0, q0[..i], es);
  }

  lemma {:induction false} PrefixDistinct(q0: seq<nat>, i: nat)
    requires Distinct(q0) && i <= |q0|
    ensures Distinct(q0[..i])
    ensures forall j :: 0 <= j < i ==> q0[..i][j] == q0[j]
  {
    forall a, b | 0 <= a < b < i ensures At(q0[..i], a) != At(q0[..i], b) {
      assert At(q0, a) != At(q0, b);
    }
  }

  /** What deq_softirq may rely on about the queue it starts from. */
  lemma {:induction false} DeqStart(es: seq<PtIrq>, bits: seq<bool>, q: seq<nat>, tl: seq<HvTimer>)
    requires Coherent(es, bits, q, tl)
    ensures Distinct(q)
    ensures forall j :: 0 <= j < |q| ==> q[j] < N && es[q[j]].active && !Started(tl, q[j])
  {
    forall j | 0 <= j < |q| ensures !Started(tl, q[j]) {
      assert q[j] in q;
    }
  }

  /**
   * After deq_softirq: the queue is the suffix past the record it stopped
   * at, and the timers started are the old ones plus the parked records.
   */
  lemma {:induction false} DeqValid(es: seq<PtIrq>, bits: seq<bool>, q0: seq<nat>, i: nat, q1: seq<nat>, now: u64,
                 l0: seq<HvTimer>, l1: seq<HvTimer>)
    requires Coherent(es, bits, q0, l0)
    requires i <= |q0| && (q1 == [] || (i < |q0| && q1 == q0[i + 1..]))
    requires forall j :: 0 <= j < i ==> !Due(es, q0[j], now)
    requires forall y :: Started(l1, y) <==> Started(l0, y) || y in q0[..i]
    ensures Coherent(es, bits, q1, l1)
  {
    assert forall m :: 0 <= m < |q1| ==> q1[m] == q0[i + 1 + m];
    forall a, b | 0 <= a < b < |q1| ensures At(q1, a) != At(q1, b) {
      assert At(q0, i + 1 + a) != At(q0, i + 1 + b);
    }
    forall y | 0 <= y < N && Started(l1, y)
      ensures es[y].active && y !in q1 && IsDelayed(es[y])
    {
      if y in q0[..i] {
        var j :| 0 <= j < i && q0[..i][j] == y;
        assert q0[j] == y && !Due(es, y, now);
        assert q0[j] in q0;
        forall m | 0 <= m < |q1| ensures q1[m] != y {
          assert At(q0, j) != At(q0, i + 1 + m);
        }
      } else {
        assert Started(l0, y);
        forall m | 0 <= m < |q1| ensures q1[m] != y {
          assert q1[m] == q0[i + 1 + m];
          assert q0[i + 1 + m] in q0;
        }
      }
    }
  }

  /** How deq_softirq's loop ends: the record it returns and the table invariant over the parked timers. */
  lemma {:induction false} DeqEnd(es: seq<PtIrq>, bits: seq<bool>, q0: seq<nat>, i: nat, q1: seq<nat>, irq: Option<nat>,
               now: u64, s0: TimerState)
    requires Coherent(es, bits, q0, s0.0) && Sorted(s0.0) && DistinctIds(s0.0)
    requires i <= |q0| && forall j :: 0 <= j < i ==> !Due(es, q0[j], now)
    requires irq.None? ==> i == |q0| && q1 == []
    requires irq.Some? ==> i < |q0| && irq.value == q0[i] && Due(es, q0[i], now) && q1 == q0[i + 1..]
    ensures var k := FirstDue(q0, es, now);
      irq == (if k < |q0| then Some(q0[k]) else None) &&
      q1 == (if k < |q0| then q0[k + 1..] else [])
    ensures Sorted(Park(s0, q0[..i], es).0) && DistinctIds(Park(s0, q0[..i], es).0)
    ensures Coherent(es, bits, q1, Park(s0, q0[..i], es).0)
  {
    if irq.None? {
      FirstDueAt(q0, es, now, |q0|);
      assert q0[..|q0|] == q0;
    } else {
      FirstDueAt(q0, es, now, i);
    }
    DeqStart(es, bits, q0, s0.0);
    PrefixDistinct(q0, i);
    ParkValid(s0, q0[..i], es);
    DeqValid(es, bits, q0, i, q1, now, s0.0, Park(s0, q0[..i], es).0);
  }

  /** ptirq_request keeps the table invariant: a free slot is filled with a record of its own slot and owner, and no deadline. */
  lemma {:induction false} FillValid(es: seq<PtIrq>, bits: seq<bool>, q: seq<nat>, tl: seq<HvTimer>, k: nat, e: PtIrq)
    requires Coherent(es, bits, q, tl) && k < N && !bits[k]
    requires e.id == k && e.vm.Some? && e.delayTimeout == 0
    ensures Coherent(es[k := e], bits[k := e.active], q, tl)
  {
    assert k !in q by {
      forall j | 0 <= j < |q| ensures q[j] != k {
        assert es[q[j]].active;
      }
    }
  }

  /** ptirq_free keeps the table invariant: the record goes inactive, leaves the queue and the timer list, and frees its slot. */
  lemma {:induction false} FreeValid(es: seq<PtIrq>, bits: seq<bool>, q: seq<nat>, tl: seq<HvTimer>, i: nat)
    requires Coherent(es, bits, q, tl) && i < N && es[i].active
    ensures Coherent(es[i := es[i].(active := false)], bits[i := false], Without(q, i), Remove(tl, i))
  {
    var es' := es[i := es[i].(active := false)];
    var q' := Without(q, i);
    WithoutDistinct(q, i);
    forall j | 0 <= j < |q'| ensures q'[j] < N && es'[q'[j]].active {
      assert q'[j] in q;
      var m :| 0 <= m < |q| && q[m] == q'[j];
    }
    forall y | 0 <= y < N && Started(Remove(tl, i), y)
      ensures es'[y].active && y !in q' && IsDelayed(es'[y])
    {
      RemoveStarted(tl, i, y);
    }
  }

  // -------------------------------------------------------------- the table

  /** A freshly requested record: zero-filled, then its slot, owner, kind and virtual source set. */
  function Fresh(k: nat, vm: Vm, intrType: u32, virtSid: u64): PtIrq
  {
    ZERO_PTIRQ.(id := k, vm := Some(vm), intrType := intrType, virtSid := virtSid)
  }

  /**
   * ptirq_entries[] with its bitmap, this CPU's softirq_dev_entry_list (as
   * slot numbers, head first) and this CPU's timers.
   */
  class PtIrqTable {
    const entries: array<PtIrq>
    const bitmap: array<bool>
    const timers: CpuTimers
    var queue: seq<nat>

    /** The table invariant (Coherent) over the arrays, the queue and the CPU's timer list. */
    ghost predicate Valid()
      reads this, entries, bitmap, timers
    {
      entries.Length == N && bitmap.Length == N && timers.Valid() &&
      Coherent(entries[..], bitmap[..], queue, timers.timerList)
    }

    /** The zero-filled static table over a CPU whose timer list holds no delay timer. */
    constructor (cpuTimers: CpuTimers)
      requires cpuTimers.Valid()
      requires forall i :: 0 <= i < N ==> !cpuTimers.IsStarted(i)
      ensures Valid() && fresh(entries) && fresh(bitmap) && timers == cpuTimers && queue == []
      ensures forall i :: 0 <= i < N ==> entries[i] == ZERO_PTIRQ && !bitmap[i]
    {
      entries := new PtIrq[N](_ => ZERO_PTIRQ);
      bitmap := new bool[N](_ => false);
      timers := cpuTimers;
      queue := [];
      forall i | 0 <= i < N ensures !Started(cpuTimers.timerList, i) {
        assert !cpuTimers.IsStarted(i);
      }
    }

    /** alloc_ptirq_id: mark and return the lowest clear slot; INVALID_PTDEV_ENTRY_ID when all are set. */
    method AllocId() returns (id: nat)
      requires bitmap.Length == N
      modifies bitmap
      ensures var k := FirstClear(old(bitmap[..]));
              if k < N then id == k && bitmap[..] == old(bitmap[..])[k := true]
              else id == INVALID_PTDEV_ENTRY_ID && bitmap[..] == old(bitmap[..])
    {
      var k := FirstClear(bitmap[..]);
      if k < N {
        bitmap[k] := true;
        id := k;
      } else {
        id := INVALID_PTDEV_ENTRY_ID;
      }
    }

    /** free_ptirq_id: clear the slot's bit; nothing for an id outside the table. */
    method FreeId(id: nat)
      requires bitmap.Length == N
      modifies bitmap
      ensures bitmap[..] == if id < N then old(bitmap[..])[id := false] else old(bitmap[..])
    {
      if id < N {
        bitmap[id] := false;
      }
    }

    /**
     * ptirq_request: take the lowest free slot, zero it and fill in the
     * owner, kind and virtual source, then register the physical IRQ
     * (requestIrq stands for request_irq: a negative error or the IRQ
     * granted). On failure the slot is released and the error returned;
     * on success the record is active with the granted IRQ and is handed
     * back. Without a free slot the result is -EINVAL and nothing changes.
     */
    method Request(vm: Vm, intrType: u32, physSid: u64, virtSid: u64, requestIrq: nat -> int)
      returns (ret: int, irq: Option<nat>)
      requires Valid()
      modifies entries, bitmap
      ensures Valid()
      ensures var k := FirstClear(old(bitmap[..])); var e := Fresh(k, vm, intrType, virtSid);
        if k >= N then
          ret == -EINVAL && irq == None && entries[..] == old(entries[..]) && bitmap[..] == old(bitmap[..])
        else
          ret == requestIrq(ArchPtIrq.GetIrqArch(intrType, physSid)) &&
          if ret < 0 then
            irq == None && bitmap[..] == old(bitmap[..]) && entries[..] == old(entries[..])[k := e]
          else
            irq == Some(k) && bitmap[..] == old(bitmap[..])[k := true] &&
            entries[..] == old(entries[..])[k := e.(allocatedPirq := ret % U32, active := true)] &&
            GetIrq(k) == ret % U32
    {
      ret := -EINVAL;
      irq := None;
      var id := AllocId();
      if id < N {
        ghost var es := entries[..];
        ghost var bits := old(bitmap[..]);
        entries[id] := Fresh(id, vm, intrType, virtSid);
        var physIrq := ArchPtIrq.GetIrqArch(intrType, physSid);
        ret := requestIrq(physIrq);
        if ret < 0 {
          FreeId(id);
          FillValid(es, bits, queue, timers.timerList, id, entries[id]);
          assert bits[id := false] == bits;
        } else {
          entries[id] := entries[id].(allocatedPirq := ret % U32, active := true);
          irq := Some(id);
          FillValid(es, bits, queue, timers.timerList, id, entries[id]);
        }
      }
    }

    /**
     * ptirq_free: for an active record, mark it inactive, release its IRQ
     * (the IRQ handed to free_irq is returned), unlink it from the softirq
     * queue and from the timer list, and free its slot. A missing or
     * inactive record is left alone, so a second call changes nothing.
     */
    method Free(irq: Option<nat>) returns (released: Option<nat>)
      requires Valid() && (irq.Some? ==> irq.value < N)
      modifies entries, bitmap, this`queue, timers`timerList
      ensures Valid()
      ensures irq.Some? ==> !entries[irq.value].active && GetIrq(irq.value) == Irq.IRQ_INVALID
      ensures irq.None? || !old(entries[irq.value].active) ==>
        released == None && entries[..] == old(entries[..]) && bitmap[..] == old(bitmap[..]) &&
        queue == old(queue) && timers.timerList == old(timers.timerList)
      ensures irq.Some? && old(entries[irq.value].active) ==>
        var i := irq.value;
        released == Some(old(entries[i].allocatedPirq) as nat) &&
        entries[..] == old(entries[..])[i := old(entries[i]).(active := false)] &&
        bitmap[..] == old(bitmap[..])[i := false] &&
        queue == Without(old(queue), i) &&
        timers.timerList == Remove(old(timers.timerList), i)
    {
      released := None;
      if irq.Some? && entries[irq.value].active {
        var i := irq.value;
        FreeValid(entries[..], bitmap[..], queue, timers.timerList, i);
        entries[i] := entries[i].(active := false);
        released := Some(entries[i].allocatedPirq as nat);
        queue := Without(queue, i);
        timers.DelTimer(Some(i));
        FreeId(entries[i].id);
      }
    }

    /** enq_softirq (and ptirq_intr_delay_callback, which only calls it) for a record whose timer is not running. */
    method EnqSoftirq(i: nat)
      requires Valid() && i < N && entries[i].active && !timers.IsStarted(i)
      modifies this`queue
      ensures Valid() && queue == Enqueue(old(queue), i)
    {
      EnqueueOnce(queue, i);
      ghost var q := queue;
      queue := Without(queue, i) + [i];
      forall j | 0 <= j < |queue| ensures queue[j] < N && entries[queue[j]].active {
        assert queue[j] in q || queue[j] == i;
      }
    }

    /**
     * ptirq_interrupt_handler on an active record at time now. For a
     * non-service VM the count goes up by one (modulo 2^64); with a
     * non-zero delay a running delay timer swallows the interrupt, and
     * otherwise the deadline becomes now + delay (modulo 2^64); with a
     * zero delay the deadline is 0. Every interrupt not swallowed is
     * enqueued. A service-VM record is enqueued unchanged.
     */
    method InterruptHandler(i: nat, now: u64)
      requires Valid() && i < N && entries[i].active
      modifies entries, this`queue
      ensures Valid()
      ensures forall j :: 0 <= j < N && j != i ==> entries[j] == old(entries[j])
      ensures var e := old(entries[i]);
        if IsService(e) then
          entries[i] == e && queue == Enqueue(old(queue), i)
        else
          var counted := e.(intrCount := (e.intrCount + 1) % U64);
          var delta := e.vm.value.injectDelayDelta;
          if delta == 0 then
            entries[i] == counted.(delayTimeout := 0) && queue == Enqueue(old(queue), i)
          else if old(timers.IsStarted(i)) then
            entries[i] == counted && queue == old(queue)
          else
            entries[i] == counted.(delayTimeout := (now + delta) % U64) && queue == Enqueue(old(queue), i)
    {
      var e := entries[i];
      var toEnqueue := true;
      if !IsService(e) {
        e := e.(intrCount := (e.intrCount + 1) % U64);
        var delta := e.vm.value.injectDelayDelta;
        if delta > 0 {
          if timers.IsStarted(i) {
            toEnqueue := false;
          } else {
            e := e.(delayTimeout := (now + delta) % U64);
          }
        } else {
          e := e.(delayTimeout := 0);
        }
      }
      entries[i] := e;
      if toEnqueue {
        EnqSoftirq(i);
      }
    }

    /**
     * deq_softirq: take records off the head of the queue until one is
     * due; each record taken before it is parked on the timer list. The
     * due record is returned; None when the queue ran out.
     */
    method Deq(now: u64, cpuFreqKhz: u32) returns (irq: Option<nat>)
      requires Valid()
      modifies this`queue, timers
      ensures Valid()
      ensures var q := old(queue); var k := FirstDue(q, entries[..], now);
        irq == (if k < |q| then Some(q[k]) else None) &&
        queue == (if k < |q| then q[k + 1..] else []) &&
        (timers.timerList, timers.programmed) == Park((old(timers.timerList), old(timers.programmed)), q[..k], entries[..])
    {
      ghost var q0 := queue;
      ghost var es := entries[..];
      ghost var s0: TimerState := (timers.timerList, timers.programmed);
      DeqStart(es, bitmap[..], q0, s0.0);
      ghost var i: nat := 0;
      irq := None;
      while queue != []
        invariant i <= |q0| && queue == q0[i..]
        invariant forall j :: 0 <= j < i ==> !Due(es, q0[j], now)
        invariant (timers.timerList, timers.programmed) == Park(s0, q0[..i], es)
        invariant irq == None
        decreases |queue|
      {
        var x, due := DeqOne(now, cpuFreqKhz, s0, q0, i, es);
        if due {
          irq := Some(x);
          break;
        }
        i := i + 1;
      }
      DeqEnd(es, bitmap[..], q0, i, queue, irq, now, s0);
    }

    /**
     * One turn of deq_softirq's loop, the queue being q0[i..]: take the
     * head off the queue and park it unless it is due, so that the timers
     * hold the parked records of q0[..i + 1].
     */
    method DeqOne(now: u64, cpuFreqKhz: u32, ghost s0: TimerState, ghost q0: seq<nat>, ghost i: nat,
                  ghost es: seq<PtIrq>) returns (x: nat, due: bool)
      requires entries.Length == N && entries[..] == es
      requires Sorted(s0.0) && DistinctIds(s0.0) && Distinct(q0) && i < |q0| && queue == q0[i..]
      requires forall j :: 0 <= j < |q0| ==> q0[j] < N && !Started(s0.0, q0[j])
      requires (timers.timerList, timers.programmed) == Park(s0, q0[..i], es)
      modifies this`queue, timers
      ensures x == q0[i] && queue == q0[i + 1..] && due == Due(es, x, now)
      ensures (timers.timerList, timers.programmed) == Park(s0, q0[..if due then i else i + 1], es)
    {
      ParkPrefix(s0, q0, i, es);
      ghost var before: TimerState := (timers.timerList, timers.programmed);
      x := queue[0];
      queue := queue[1..];
      due := IsService(entries[x]) || Expired(entries[x].delayTimeout, now);
      if !due {
        ParkOne(x, cpuFreqKhz);
        ParkStep(s0, q0, i, es, before, (timers.timerList, timers.programmed));
      }
    }

    /** deq_softirq's add_timer of a record that is not due: its delay timer joins the list. */
    method ParkOne(x: nat, cpuFreqKhz: u32)
      requires timers.Valid() && x < entries.Length && !Started(timers.timerList, x)
      requires entries[x].delayTimeout != 0
      modifies timers
      ensures timers.Valid()
      ensures (timers.timerList, timers.programmed) == ParkAdd((old(timers.timerList), old(timers.programmed)), DelayTimer(x, entries[x]))
      ensures forall y :: Started(timers.timerList, y) <==> old(Started(timers.timerList, y)) || y == x
    {
      var t := DelayTimer(x, entries[x]);
      InsertValid(timers.timerList, t);
      var added := timers.AddTimer(Some(t), cpuFreqKhz);
    }

    /**
     * ptirq_softirq: dequeue until nothing is due, handing each dequeued
     * record that is still active to ptirq_softirq_arch (the returned
     * list). Afterwards the queue is empty, every due active record was
     * handed over in queue order, and every record not yet due was parked
     * on the timer list in queue order.
     */
    method Softirq(now: u64, cpuFreqKhz: u32) returns (ran: seq<nat>)
      requires Valid()
      modifies this`queue, timers
      ensures Valid() && queue == []
      ensures ran == Delivered(old(queue), entries[..], now)
      ensures (timers.timerList, timers.programmed) ==
        Park((old(timers.timerList), old(timers.programmed)), Parked(old(queue), entries[..], now), entries[..])
    {
      ghost var q0 := queue;
      ghost var es := entries[..];
      ghost var s0: TimerState := (timers.timerList, timers.programmed);
      ghost var pk := Parked(q0, es, now);
      ghost var dl := Delivered(q0, es, now);
      ghost var p: seq<nat> := [];
      ran := [];
      assert pk == p + Parked(queue, es, now) && dl == ran + Delivered(queue, es, now);
      var more := true;
      while more
        invariant Valid() && entries[..] == es
        invariant (timers.timerList, timers.programmed) == Park(s0, p, es)
        invariant pk == p + Parked(queue, es, now)
        invariant dl == ran + Delivered(queue, es, now)
        invariant !more ==> queue == []
        decreases |queue| + (if more then 1 else 0)
      {
        more, ran, p := SoftirqOne(now, cpuFreqKhz, s0, es, pk, dl, p, ran);
      }
      assert Parked([], es, now) == [] && p + [] == p;
      assert Delivered([], es, now) == [] && ran + [] == ran;
    }

    /**
     * One turn of ptirq_softirq's loop: deq_softirq, then ptirq_softirq_arch
     * of the record it returns when that is still active. Told on values:
     * what the whole queue parks (pk) and hands over (dl) stays split
     * between what is done and what the remaining queue gives.
     */
    method SoftirqOne(now: u64, cpuFreqKhz: u32, ghost s0: TimerState, ghost es: seq<PtIrq>,
                      ghost pk: seq<nat>, ghost dl: seq<nat>, ghost p: seq<nat>, ran: seq<nat>)
      returns (more: bool, ran': seq<nat>, ghost p': seq<nat>)
      requires Valid() && entries[..] == es
      requires (timers.timerList, timers.programmed) == Park(s0, p, es)
      requires pk == p + Parked(queue, es, now) && dl == ran + Delivered(queue, es, now)
      modifies this`queue, timers
      ensures Valid()
      ensures (timers.timerList, timers.programmed) == Park(s0, p', es)
      ensures pk == p' + Parked(queue, es, now) && dl == ran' + Delivered(queue, es, now)
      ensures more ==> |queue| < old(|queue|)
      ensures !more ==> queue == []
    {
      ghost var q := queue;
      ghost var k := FirstDue(q, es, now);
      ParkAppend(s0, p, q[..k], es);
      var irq := Deq(now, cpuFreqKhz);
      SoftirqTurn(pk, dl, p, ran, q, es, now, irq, queue);
      p' := p + q[..k];
      ran' := ran;
      more := irq.Some?;
      if more {
        var x := irq.value;
        if x < entries.Length && entries[x].active {
          ran' := ran + [x];
        }
      } else {
        assert Delivered([], es, now) == [] && ran + [] + [] == ran;
      }
    }

    /** ptirq_set_vmsi: an active MSI record takes the new guest MSI; any other is left alone. */
    method SetVmsi(i: nat, vmsi: MsiInfo)
      requires Valid() && i < N
      modifies entries
      ensures Valid()
      ensures entries[..] ==
        if old(entries[i].active) && old(entries[i].intrType) == PTDEV_INTR_MSI
        then old(entries[..])[i := old(entries[i]).(vmsi := vmsi)] else old(entries[..])
    {
      if entries[i].active && entries[i].intrType == PTDEV_INTR_MSI {
        entries[i] := entries[i].(vmsi := vmsi);
      }
    }

    /** ptirq_set_polarity: an active record takes the polarity, which GetPolarity then reports. */
    method SetPolarity(i: nat, polarity: u32)
      requires Valid() && i < N
      modifies entries
      ensures Valid()
      ensures entries[..] ==
        if old(entries[i].active) then old(entries[..])[i := old(entries[i]).(polarity := polarity)] else old(entries[..])
      ensures GetPolarity(i) == if old(entries[i].active) then polarity else 0
    {
      if entries[i].active {
        entries[i] := entries[i].(polarity := polarity);
      }
    }

    /**
     * Hand an active record to owner vm under the virtual source virtSid.
     * ptirq.c has no such setter: the mapping layer's ownership transfer and
     * controller switch need it to keep the record and its mapping in step
     * (see the findings). The record must not be held back by a delay timer
     * unless it stays with the same VM, as a service-VM record never is.
     */
    method SetOwner(i: nat, vm: Vm, virtSid: u64)
      requires Valid() && i < N && entries[i].active
      requires !IsDelayed(entries[i]) || entries[i].vm == Some(vm)
      modifies entries
      ensures Valid()
      ensures entries[..] == old(entries[..])[i := old(entries[i]).(vm := Some(vm), virtSid := virtSid)]
    {
      entries[i] := entries[i].(vm := Some(vm), virtSid := virtSid);
    }

    /** ptirq_get_polarity: the polarity of an active record, 0 otherwise. */
    function GetPolarity(i: nat): (p: u32)
      requires i < entries.Length
      reads entries
      ensures entries[i].active ==> p == entries[i].polarity
      ensures !entries[i].active ==> p == 0
    {
      if entries[i].active then entries[i].polarity else 0
    }

    /** ptirq_get_irq: the physical IRQ of an active record, IRQ_INVALID otherwise. */
    function GetIrq(i: nat): (r: nat)
      requires i < entries.Length
      reads entries
      ensures entries[i].active ==> r == entries[i].allocatedPirq as nat && r < U32
      ensures !entries[i].active ==> r == Irq.IRQ_INVALID
    {
      if entries[i].active then entries[i].allocatedPirq as nat else Irq.IRQ_INVALID
    }

    /**
     * ptirq_get_intr_data: for an active record, append [IRQ, count] to
     * the caller's buffer of bufferCnt words at pos and report 2 words
     * written, or report -1 and write nothing when they do not fit. An
     * inactive record writes nothing and reports 0.
     */
    method GetIntrData(i: nat, buffer: array<u64>, pos: nat, bufferCnt: nat)
      returns (written: int, newPos: nat)
      requires i < entries.Length && bufferCnt <= buffer.Length
      modifies buffer
      ensures var e := entries[i];
        if !e.active then
          written == 0 && newPos == pos && buffer[..] == old(buffer[..])
        else if pos + 2 > bufferCnt then
          written == -1 && newPos == pos && buffer[..] == old(buffer[..])
        else
          written == 2 && newPos == pos + 2 &&
          buffer[..] == old(buffer[..])[pos := e.allocatedPirq as u64][pos + 1 := e.intrCount]
    {
      written := 0;
      newPos := pos;
      var e := entries[i];
      if e.active {
        if pos + 2 > bufferCnt {
          written := -1;
        } else {
          buffer[pos] := e.allocatedPirq as u64;
          buffer[pos + 1] := e.intrCount;
          newPos := pos + 2;
          written := 2;
        }
      }
    }
  }
}
