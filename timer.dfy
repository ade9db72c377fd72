/**
 * The per-CPU software timer list: timers kept in order of their deadline,
 * a one-shot or periodic mode, insertion that reports whether the new timer
 * became the earliest (so that the hardware deadline is reprogrammed), and
 * the timer soft interrupt that fires due timers, re-arms periodic ones and
 * gives up after MAX_TIMER_ACTIONS - 1 callbacks.
 *
 * A timer is a value identified by its id; membership of the list stands
 * for a linked list node that is not empty (timer_is_started). Callbacks
 * are represented by the ids of the timers whose callback ran, and are
 * assumed not to add or delete timers themselves.
 */
module Timer {
  import opened Types
  import Cycles

  const MAX_TIMER_ACTIONS: nat := 32

  datatype TimerMode = OneShot | Periodic

  /** struct hv_timer: identity, deadline in cycles, mode, period, and whether a callback is set. */
  datatype HvTimer = HvTimer(id: nat, timeout: u64, mode: TimerMode, periodInCycle: u64, hasFunc: bool)

  // --------------------------------------------------------------- the list

  // The pairwise facts below are stated on TimeoutAt and IdAt rather than on
  // l[i], so that they are used only where a proof names two positions.

  function TimeoutAt(l: seq<HvTimer>, i: nat): u64
    requires i < |l|
  {
    l[i].timeout
  }

  function IdAt(l: seq<HvTimer>, i: nat): nat
    requires i < |l|
  {
    l[i].id
  }

  predicate Sorted(l: seq<HvTimer>)
  {
    forall i, j :: 0 <= i < j < |l| ==> TimeoutAt(l, i) <= TimeoutAt(l, j)
  }

  predicate DistinctIds(l: seq<HvTimer>)
  {
    forall i, j :: 0 <= i < j < |l| ==> IdAt(l, i) != IdAt(l, j)
  }

  /** In a sorted list no deadline is later than one further on. */
  lemma SortedAt(l: seq<HvTimer>, a: nat, b: nat)
    requires Sorted(l) && a <= b < |l|
    ensures l[a].timeout <= l[b].timeout
  {
    if a < b {
      assert TimeoutAt(l, a) <= TimeoutAt(l, b);
    }
  }

  /** In a list with distinct ids two positions hold different ids. */
  lemma DistinctAt(l: seq<HvTimer>, a: nat, b: nat)
    requires DistinctIds(l) && a < |l| && b < |l| && a != b
    ensures l[a].id != l[b].id
  {
    if a < b {
      assert IdAt(l, a) != IdAt(l, b);
    } else {
      assert IdAt(l, b) != IdAt(l, a);
    }
  }

  /** timer_is_started: the timer's node is on the list. */
  predicate Started(l: seq<HvTimer>, id: nat)
  {
    exists j :: 0 <= j < |l| && l[j].id == id
  }

  /**
   * Where local_add_timer links a timer with deadline tsc: after every timer
   * that is strictly earlier, so before the first one that is not (a new
   * timer goes in front of existing timers with the same deadline).
   */
  function InsertPos(l: seq<HvTimer>, tsc: u64): (k: nat)
    ensures k <= |l|
    ensures forall j :: 0 <= j < k ==> l[j].timeout < tsc
    ensures k < |l| ==> l[k].timeout >= tsc
  {
    if l == [] || l[0].timeout >= tsc then 0 else 1 + InsertPos(l[1..], tsc)
  }

  function Insert(l: seq<HvTimer>, t: HvTimer): seq<HvTimer>
  {
    var k := InsertPos(l, t.timeout);
    l[..k] + [t] + l[k..]
  }

  /** The only position with the two properties of InsertPos is InsertPos. */
  lemma InsertPosUnique(l: seq<HvTimer>, tsc: u64, i: nat)
    requires i <= |l|
    requires forall j :: 0 <= j < i ==> l[j].timeout < tsc
    requires i < |l| ==> l[i].timeout >= tsc
    ensures i == InsertPos(l, tsc)
  {
  }

  /** The elements of Insert(l, t), by index. */
  lemma InsertAt(l: seq<HvTimer>, t: HvTimer, j: nat)
    requires j <= |l|
    ensures |Insert(l, t)| == |l| + 1
    ensures var k := InsertPos(l, t.timeout);
      Insert(l, t)[j] == if j < k then l[j] else if j == k then t else l[j - 1]
  {
  }

  /** Insertion keeps the list in deadline order. */
  lemma InsertSorted(l: seq<HvTimer>, t: HvTimer)
    requires Sorted(l)
    ensures Sorted(Insert(l, t))
  {
    var r := Insert(l, t);
    var k := InsertPos(l, t.timeout);
    forall a, b | 0 <= a < b < |r| ensures TimeoutAt(r, a) <= TimeoutAt(r, b) {
      InsertAt(l, t, a);
      InsertAt(l, t, b);
      if a != k && b != k {
        SortedAt(l, if a < k then a else a - 1, if b < k then b else b - 1);
      } else if a == k {
        SortedAt(l, k, b - 1);
      }
    }
  }

  /** Insertion of a timer that is not started keeps the ids distinct. */
  lemma InsertDistinct(l: seq<HvTimer>, t: HvTimer)
    requires DistinctIds(l) && !Started(l, t.id)
    ensures DistinctIds(Insert(l, t))
  {
    var r := Insert(l, t);
    var k := InsertPos(l, t.timeout);
    forall a, b | 0 <= a < b < |r| ensures IdAt(r, a) != IdAt(r, b) {
      InsertAt(l, t, a);
      InsertAt(l, t, b);
      if a != k && b != k {
        DistinctAt(l, if a < k then a else a - 1, if b < k then b else b - 1);
      }
    }
  }

  /** After insertion exactly the old timers and t are started. */
  lemma InsertStarted(l: seq<HvTimer>, t: HvTimer, x: nat)
    ensures Started(Insert(l, t), x) <==> Started(l, x) || x == t.id
  {
    var k := InsertPos(l, t.timeout);
    var r := Insert(l, t);
    if Started(l, x) {
      var j :| 0 <= j < |l| && l[j].id == x;
      if j < k { InsertAt(l, t, j); assert r[j].id == x; }
      else { InsertAt(l, t, j + 1); assert r[j + 1].id == x; }
    }
    if Started(r, x) {
      var j :| 0 <= j < |r| && r[j].id == x;
      InsertAt(l, t, j);
      if j < k { assert l[j].id == x; }
      else if j > k { assert l[j - 1].id == x; }
    }
    InsertAt(l, t, k);
    assert r[k].id == t.id;
  }

  /** Insertion keeps the list in deadline order and its ids distinct, and adds exactly t. */
  lemma InsertValid(l: seq<HvTimer>, t: HvTimer)
    requires Sorted(l) && DistinctIds(l) && !Started(l, t.id)
    ensures Sorted(Insert(l, t)) && DistinctIds(Insert(l, t))
    ensures |Insert(l, t)| == |l| + 1
    ensures forall x :: Started(Insert(l, t), x) <==> Started(l, x) || x == t.id
  {
    InsertSorted(l, t);
    InsertDistinct(l, t);
    forall x ensures Started(Insert(l, t), x) <==> Started(l, x) || x == t.id {
      InsertStarted(l, t, x);
    }
  }

  /** del_timer on the list: the timer with that id leaves it, order kept. */
  function Remove(l: seq<HvTimer>, id: nat): (r: seq<HvTimer>)
    ensures |r| <= |l|
  {
    if l == [] then []
    else (if l[0].id == id then [] else [l[0]]) + Remove(l[1..], id)
  }

  /** With distinct ids, removing the timer at index i cuts exactly that element out. */
  lemma {:induction false} RemoveAt(l: seq<HvTimer>, i: nat)
    requires DistinctIds(l) && i < |l|
    ensures Remove(l, l[i].id) == l[..i] + l[i + 1..]
  {
    if i == 0 {
      forall j | 0 <= j < |l[1..]| ensures l[1..][j].id != l[0].id {
        DistinctAt(l, 0, j + 1);
      }
      RemoveAbsent(l[1..], l[0].id);
      assert l[..0] + l[1..] == l[1..];
    } else {
      forall a, b | 0 <= a < b < |l[1..]| ensures IdAt(l[1..], a) != IdAt(l[1..], b) {
        DistinctAt(l, a + 1, b + 1);
      }
      assert DistinctIds(l[1..]);
      DistinctAt(l, 0, i);
      RemoveAt(l[1..], i - 1);
      assert l[1..][i - 1].id == l[i].id;
      assert l[..i] + l[i + 1..] == [l[0]] + (l[1..][..i - 1] + l[1..][i..]);
    }
  }

  /** Removing a timer that is not on the list changes nothing. */
  lemma {:induction false} RemoveAbsent(l: seq<HvTimer>, id: nat)
    requires !Started(l, id)
    ensures Remove(l, id) == l
  {
    if l != [] {
      forall j | 0 <= j < |l[1..]| ensures l[1..][j].id != id {
        assert l[1..][j] == l[j + 1];
      }
      RemoveAbsent(l[1..], id);
    }
  }

  /** After a removal the timer is no longer started, and nobody else was touched. */
  lemma {:induction false} RemoveStarted(l: seq<HvTimer>, id: nat, x: nat)
    ensures Started(Remove(l, id), x) <==> Started(l, x) && x != id
  {
    if l != [] {
      RemoveStarted(l[1..], id, x);
      var r := Remove(l, id);
      var head := if l[0].id == id then [] else [l[0]];
      assert r == head + Remove(l[1..], id);
      if Started(l, x) && x != id {
        var j :| 0 <= j < |l| && l[j].id == x;
        if j == 0 { assert r[0].id == x; }
        else {
          assert l[1..][j - 1].id == x;
          var m :| 0 <= m < |Remove(l[1..], id)| && Remove(l[1..], id)[m].id == x;
          assert r[|head| + m].id == x;
        }
      }
      if Started(r, x) {
        var j :| 0 <= j < |r| && r[j].id == x;
        if j < |head| { assert l[0].id == x; }
        else {
          assert Remove(l[1..], id)[j - |head|].id == x;
          var m :| 0 <= m < |l[1..]| && l[1..][m].id == x;
          assert l[m + 1].id == x;
        }
      }
    }
  }

  /** Deleting twice is deleting once. */
  lemma RemoveIdempotent(l: seq<HvTimer>, id: nat)
    ensures Remove(Remove(l, id), id) == Remove(l, id)
  {
    RemoveStarted(l, id, id);
    RemoveAbsent(Remove(l, id), id);
  }

  /** Cutting one element out keeps a list sorted with distinct ids. */
  lemma CutValid(l: seq<HvTimer>, i: nat)
    requires Sorted(l) && DistinctIds(l) && i < |l|
    ensures Sorted(l[..i] + l[i + 1..]) && DistinctIds(l[..i] + l[i + 1..])
    ensures !Started(l[..i] + l[i + 1..], l[i].id)
  {
    var r := l[..i] + l[i + 1..];
    assert forall j :: 0 <= j < |r| ==> r[j] == (if j < i then l[j] else l[j + 1]);
    forall a, b | 0 <= a < b < |r| ensures TimeoutAt(r, a) <= TimeoutAt(r, b) && IdAt(r, a) != IdAt(r, b) {
      var a', b' := if a < i then a else a + 1, if b < i then b else b + 1;
      SortedAt(l, a', b');
      DistinctAt(l, a', b');
    }
    forall j | 0 <= j < |r| ensures r[j].id != l[i].id {
      DistinctAt(l, if j < i then j else j + 1, i);
    }
  }

  // ---------------------------------------------------- the soft interrupt

  /** A periodic timer's next deadline: one period later, modulo 2^64. */
  function Rearm(t: HvTimer): HvTimer
  {
    t.(timeout := (t.timeout + t.periodInCycle) % U64)
  }

  /** run_timer calls the callback only when one is set and the deadline is non-zero. */
  function Fired(t: HvTimer): seq<nat>
  {
    if t.hasFunc && t.timeout != 0 then [t.id] else []
  }

  /**
   * The list and the cursor after the due timer at position i is handled:
   * it is unlinked and, when periodic, re-linked one period later; the
   * cursor is list_for_each_safe's saved successor, which moves up one
   * place when the re-armed timer lands at or before it.
   */
  function AdvanceList(l: seq<HvTimer>, i: nat): seq<HvTimer>
    requires i < |l|
  {
    var rest := l[..i] + l[i + 1..];
    if l[i].mode == Periodic then Insert(rest, Rearm(l[i])) else rest
  }

  function AdvanceCursor(l: seq<HvTimer>, i: nat): nat
    requires i < |l|
  {
    var rest := l[..i] + l[i + 1..];
    if l[i].mode == Periodic && InsertPos(rest, Rearm(l[i]).timeout) <= i then i + 1 else i
  }

  /**
   * What the rest of timer_softirq's walk does from cursor position i with
   * the given number of tries left: the ids whose callbacks run, and the
   * final list. A re-inserted timer that lands before the cursor is not
   * visited again in this run.
   */
  function SoftirqRun(l: seq<HvTimer>, i: nat, tries: nat, now: u64): (seq<nat>, seq<HvTimer>)
    decreases tries
  {
    if i >= |l| || tries == 0 then ([], l)
    else if !(l[i].timeout <= now && tries - 1 != 0) then ([], l)
    else
      var r := SoftirqRun(AdvanceList(l, i), AdvanceCursor(l, i), tries - 1, now);
      (Fired(l[i]) + r.0, r.1)
  }

  /** timer_softirq's whole walk: from the head, with MAX_TIMER_ACTIONS tries. */
  function SoftirqAll(l: seq<HvTimer>, now: u64): (seq<nat>, seq<HvTimer>)
  {
    SoftirqRun(l, 0, MAX_TIMER_ACTIONS, now)
  }

  /** Concatenation of id runs regroups, and the empty run adds nothing. */
  lemma RunAppend(a: seq<nat>, b: seq<nat>, c: seq<nat>)
    ensures a + (b + c) == (a + b) + c && a + [] == a && [] + c == c
  {
  }

  /** At most tries - 1 callbacks run: with MAX_TIMER_ACTIONS tries, at most 31. */
  lemma {:induction false} SoftirqBound(l: seq<HvTimer>, i: nat, tries: nat, now: u64)
    requires tries >= 1
    decreases tries
    ensures |SoftirqRun(l, i, tries, now).0| <= tries - 1
  {
    if i < |l| && l[i].timeout <= now && tries - 1 != 0 {
      SoftirqBound(AdvanceList(l, i), AdvanceCursor(l, i), tries - 1, now);
    }
  }

  /** The walk keeps the list in deadline order with distinct ids. */
  lemma {:induction false} SoftirqValid(l: seq<HvTimer>, i: nat, tries: nat, now: u64)
    requires Sorted(l) && DistinctIds(l)
    ensures Sorted(SoftirqRun(l, i, tries, now).1) && DistinctIds(SoftirqRun(l, i, tries, now).1)
    decreases tries
  {
    if i < |l| && tries != 0 && l[i].timeout <= now && tries - 1 != 0 {
      var t := l[i];
      var rest := l[..i] + l[i + 1..];
      CutValid(l, i);
      if t.mode == Periodic {
        InsertValid(rest, Rearm(t));
      }
      SoftirqValid(AdvanceList(l, i), AdvanceCursor(l, i), tries - 1, now);
    }
  }

  predicate AllOneShot(l: seq<HvTimer>)
  {
    forall j :: 0 <= j < |l| ==> l[j].mode == OneShot
  }

  /** Number of leading timers that are due at now. */
  function DuePrefix(l: seq<HvTimer>, now: u64): (k: nat)
    ensures k <= |l|
    ensures forall j :: 0 <= j < k ==> l[j].timeout <= now
    ensures k < |l| ==> l[k].timeout > now
  {
    if l == [] || l[0].timeout > now then 0 else 1 + DuePrefix(l[1..], now)
  }

  /** The callbacks that run for a run of timers, in order. */
  function FiredAll(l: seq<HvTimer>): seq<nat>
  {
    if l == [] then [] else Fired(l[0]) + FiredAll(l[1..])
  }

  function Min(a: nat, b: nat): nat { if a <= b then a else b }

  /**
   * Without periodic timers the soft interrupt consumes the due prefix of
   * the list, front to back, but never more than tries - 1 timers, and
   * leaves the rest untouched.
   */
  lemma {:induction false} SoftirqOneShot(l: seq<HvTimer>, tries: nat, now: u64)
    requires AllOneShot(l) && tries >= 1
    ensures var k := Min(DuePrefix(l, now), tries - 1);
      SoftirqRun(l, 0, tries, now) == (FiredAll(l[..k]), l[k..])
  {
    if l != [] && l[0].timeout <= now && tries - 1 != 0 {
      var rest := l[1..];
      var k' := Min(DuePrefix(rest, now), tries - 2);
      OneShotStep(l, tries, now);
      assert AllOneShot(rest) by {
        forall j | 0 <= j < |rest| ensures rest[j].mode == OneShot {
          assert rest[j] == l[j + 1];
        }
      }
      SoftirqOneShot(rest, tries - 1, now);
      OneShotPrefix(l, tries, now);
      FiredAllCons(l, k' + 1);
    }
  }

  /** With the head due and tries to spare, the walk takes one more timer than it takes from the tail. */
  lemma {:induction false} OneShotPrefix(l: seq<HvTimer>, tries: nat, now: u64)
    requires l != [] && l[0].timeout <= now && tries > 1
    ensures Min(DuePrefix(l, now), tries - 1) == 1 + Min(DuePrefix(l[1..], now), tries - 2)
    ensures var k' := Min(DuePrefix(l[1..], now), tries - 2); l[k' + 1..] == l[1..][k'..]
  {
  }

  lemma {:induction false} FiredAllCons(l: seq<HvTimer>, k: nat)
    requires 0 < k <= |l|
    ensures FiredAll(l[..k]) == Fired(l[0]) + FiredAll(l[1..][..k - 1])
  {
    assert l[..k][0] == l[0] && l[..k][1..] == l[1..][..k - 1];
  }

  /** A due one-shot head is unlinked and the walk goes on from the same place. */
  lemma {:induction false} OneShotStep(l: seq<HvTimer>, tries: nat, now: u64)
    requires l != [] && l[0].mode == OneShot && l[0].timeout <= now && tries > 1
    ensures var r := SoftirqRun(l[1..], 0, tries - 1, now);
      SoftirqRun(l, 0, tries, now) == (Fired(l[0]) + r.0, r.1)
  {
    assert l[..0] + l[0 + 1..] == l[1..];
    assert AdvanceList(l, 0) == l[1..] && AdvanceCursor(l, 0) == 0;
  }




  // --------------------------------------------------------- the CPU's timers

  /** add_timer's floor on a periodic timer's period: MIN_TIMER_PERIOD_US in cycles. */
  function Clamped(t: HvTimer, cpuFreqKhz: u32): (c: HvTimer)
    ensures c.id == t.id && c.timeout == t.timeout && c.mode == t.mode && c.hasFunc == t.hasFunc
    ensures t.mode == Periodic ==>
      c.periodInCycle >= Cycles.UsToCycles(cpuFreqKhz, Cycles.MIN_TIMER_PERIOD_US)
      && c.periodInCycle >= t.periodInCycle
      && (c.periodInCycle == t.periodInCycle
          || c.periodInCycle == Cycles.UsToCycles(cpuFreqKhz, Cycles.MIN_TIMER_PERIOD_US))
    ensures t.mode == OneShot ==> c == t
  {
    if t.mode == Periodic then
      var floor := Cycles.UsToCycles(cpuFreqKhz, Cycles.MIN_TIMER_PERIOD_US);
      t.(periodInCycle := if t.periodInCycle >= floor then t.periodInCycle else floor)
    else t
  }

  /** add_timer's argument check: a timer, with a callback, with a non-zero deadline. */
  predicate Addable(timer: Option<HvTimer>)
  {
    timer.Some? && timer.value.hasFunc && timer.value.timeout != 0
  }

  /** struct per_cpu_timers, with the deadline last given to the hardware timer. */
  class CpuTimers {
    var timerList: seq<HvTimer>
    var programmed: Option<u64>

    ghost predicate Valid()
      reads this
    {
      Sorted(timerList) && DistinctIds(timerList)
    }

    /** init_percpu_timer: an empty list; nothing programmed yet. */
    constructor ()
      ensures Valid() && timerList == [] && programmed == None
    {
      timerList := [];
      programmed := None;
    }

    predicate IsStarted(id: nat)
      reads this
    {
      Started(timerList, id)
    }

    /** local_add_timer: link t after the last strictly earlier timer; true when t became the head. */
    method LocalAdd(t: HvTimer) returns (head: bool)
      requires Valid() && !IsStarted(t.id)
      modifies this`timerList
      ensures Valid()
      ensures timerList == Insert(old(timerList), t)
      ensures head <==> InsertPos(old(timerList), t.timeout) == 0
    {
      var i := 0;
      while i < |timerList| && timerList[i].timeout < t.timeout
        invariant 0 <= i <= |timerList|
        invariant forall j :: 0 <= j < i ==> timerList[j].timeout < t.timeout
      {
        i := i + 1;
      }
      InsertPosUnique(timerList, t.timeout, i);
      InsertValid(timerList, t);
      timerList := timerList[..i] + [t] + timerList[i..];
      head := i == 0;
    }

    /** update_physical_timer: program the head's deadline, if there is a head. */
    method UpdatePhysicalTimer()
      modifies this`programmed
      ensures programmed == if timerList == [] then old(programmed) else Some(timerList[0].timeout)
    {
      if timerList != [] {
        programmed := Some(timerList[0].timeout);
      }
    }

    /**
     * add_timer: -EINVAL for a missing timer, a missing callback or a zero
     * deadline; otherwise the (period-clamped) timer is linked in order and
     * the hardware is reprogrammed when it became the head. Adding a timer
     * that is already started is refused by an assertion in the source.
     */
    method AddTimer(timer: Option<HvTimer>, cpuFreqKhz: u32) returns (ret: int)
      requires Valid()
      requires Addable(timer) ==> !IsStarted(timer.value.id)
      modifies this
      ensures Valid()
      ensures ret == 0 || ret == -EINVAL
      ensures ret == 0 <==> Addable(timer)
      ensures ret != 0 ==> timerList == old(timerList) && programmed == old(programmed)
      ensures ret == 0 ==> timerList == Insert(old(timerList), Clamped(timer.value, cpuFreqKhz))
      ensures ret == 0 && InsertPos(old(timerList), timer.value.timeout) == 0 ==>
        programmed == Some(timer.value.timeout)
      ensures ret == 0 && InsertPos(old(timerList), timer.value.timeout) != 0 ==>
        programmed == old(programmed)
    {
      if !Addable(timer) {
        ret := -EINVAL;
      } else {
        var t := Clamped(timer.value, cpuFreqKhz);
        var head := LocalAdd(t);
        if head {
          UpdatePhysicalTimer();
        }
        ret := 0;
      }
    }

    /** del_timer: unlink the timer if it is started; nothing otherwise. */
    method DelTimer(id: Option<nat>)
      requires Valid()
      modifies this`timerList
      ensures Valid()
      ensures timerList == if id.Some? then Remove(old(timerList), id.value) else old(timerList)
      ensures id.Some? ==> !IsStarted(id.value)
      ensures forall x :: IsStarted(x) <==> old(IsStarted(x)) && (id.None? || x != id.value)
    {
      if id.Some? {
        if IsStarted(id.value) {
          var j :| 0 <= j < |timerList| && timerList[j].id == id.value;
          RemoveAt(timerList, j);
          CutValid(timerList, j);
          forall x ensures Started(Remove(timerList, id.value), x) <==> Started(timerList, x) && x != id.value {
            RemoveStarted(timerList, id.value, x);
          }
          timerList := timerList[..j] + timerList[j + 1..];
        } else {
          RemoveAbsent(timerList, id.value);
        }
      }
    }

    /**
     * One step of timer_softirq's walk on the due timer at position i: it
     * is deleted, its callback runs, and a periodic timer is re-added one
     * period later. Returns the walk's next position and the callback run.
     */
    method Expire(i: nat) returns (next: nat, fired: seq<nat>)
      requires Valid() && i < |timerList|
      modifies this`timerList
      ensures Valid()
      ensures timerList == AdvanceList(old(timerList), i)
      ensures next == AdvanceCursor(old(timerList), i)
      ensures fired == Fired(old(timerList)[i])
    {
      var t := timerList[i];
      RemoveAt(timerList, i);
      DelTimer(Some(t.id));
      fired := Fired(t);
      next := i;
      if t.mode == Periodic {
        // the saved successor moves up when the re-armed timer lands before it
        var k := InsertPos(timerList, Rearm(t).timeout);
        var _ := LocalAdd(Rearm(t));
        if k <= i {
          next := i + 1;
        }
      }
    }

    /**
     * One turn of timer_softirq's walk at cursor i: a try is spent; a due
     * timer, while tries remain, is expired and the walk goes on from the
     * saved successor; otherwise the walk stops here.
     */
    method Turn(i: nat, tries: nat, now: u64) returns (next: nat, left: nat, fired: seq<nat>, stop: bool)
      requires Valid() && i < |timerList| && 1 <= tries
      modifies this`timerList
      ensures Valid() && left == tries - 1 && (!stop ==> left != 0) && next <= |timerList|
      ensures stop ==> fired == [] && timerList == old(timerList)
      ensures var r := SoftirqRun(timerList, next, left, now);
        SoftirqRun(old(timerList), i, tries, now) == if stop then ([], timerList) else (fired + r.0, r.1)
    {
      left := tries - 1;
      next := i;
      fired := [];
      stop := !(timerList[i].timeout <= now && left != 0);
      if !stop {
        next, fired := Expire(i);
      }
    }

    /**
     * timer_softirq at cycle count now: walk the list from the head, firing
     * due timers and re-arming periodic ones, for at most 31 callbacks,
     * stopping at the first timer that is not due; then program the new
     * head's deadline. Returns the ids whose callbacks ran.
     */
    method Softirq(now: u64) returns (ran: seq<nat>)
      requires Valid()
      modifies this
      ensures Valid()
      ensures (ran, timerList) == SoftirqAll(old(timerList), now)
      ensures programmed == if timerList == [] then old(programmed) else Some(timerList[0].timeout)
    {
      ran := Walk(now);
      UpdatePhysicalTimer();
    }

    /** The list walk of timer_softirq: SoftirqAll of the list. */
    method Walk(now: u64) returns (ran: seq<nat>)
      requires Valid()
      modifies this`timerList
      ensures Valid()
      ensures (ran, timerList) == SoftirqAll(old(timerList), now)
    {
      var tries := MAX_TIMER_ACTIONS;
      var i: nat := 0;
      ghost var total := SoftirqRun(timerList, i, tries, now);
      assert total == SoftirqAll(timerList, now);
      ran := [];
      RunAppend([], [], SoftirqRun(timerList, i, tries, now).0);
      while i < |timerList|
        invariant Valid() && 1 <= tries <= MAX_TIMER_ACTIONS && i <= |timerList|
        invariant total.0 == ran + SoftirqRun(timerList, i, tries, now).0
        invariant total.1 == SoftirqRun(timerList, i, tries, now).1
        decreases tries
      {
        ghost var ranBefore := ran;
        var fired, stop;
        i, tries, fired, stop := Turn(i, tries, now);
        ran := ran + fired;
        RunAppend(ranBefore, fired, SoftirqRun(timerList, i, tries, now).0);
        if stop {
          RunAppend(ranBefore, [], []);
          break;
        }
      }
      RunAppend(ran, [], []);
    }
  }
}
