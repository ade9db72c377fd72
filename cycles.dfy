/**
 * Conversions between CPU cycles and wall time, given the CPU frequency in
 * kHz (cycles per millisecond). The frequency is read from the hardware by
 * get_cpu_freq, so here it is a parameter. All arithmetic is on uint64_t:
 * the product in cycles-to-microseconds wraps modulo 2^64.
 */
module Cycles {
  import opened Types

  const MIN_TIMER_PERIOD_US: u32 := 500

  /** The product of two 32-bit values always fits in 64 bits. */
  lemma {:induction false} ProductFits(a: u32, b: u32)
    ensures 0 <= a * b < U64
  {
    assert a * b <= a * (U32 - 1) by {
      MulLeftMono(a, b, U32 - 1);
    }
    assert a * (U32 - 1) <= (U32 - 1) * (U32 - 1) by {
      MulLeftMono(U32 - 1, a, U32 - 1);
    }
  }

  lemma MulLeftMono(k: nat, x: int, y: int)
    requires x <= y
    ensures x * k <= y * k
  {
  }

  /** Integer division by a positive divisor is monotone in the dividend. */
  lemma {:induction false} DivMono(x: nat, y: nat, d: nat)
    requires x <= y && d > 0
    ensures x / d <= y / d
  {
    if x / d > y / d {
      assert (y / d + 1) * d <= (x / d) * d by { MulLeftMono(d, y / d + 1, x / d); }
      assert false;
    }
  }

  /** x / d never exceeds x when d is positive. */
  lemma {:induction false} DivBelow(x: nat, d: nat)
    requires d > 0
    ensures x / d <= x
  {
    var q := x / d;
    assert q * d <= x;
    MulLeftMono(q, 1, d);
  }

  /**
   * us_to_cycles: the number of whole thousandths in us * freq, so that
   * 1000 * r <= us * freq < 1000 * (r + 1); the product never wraps.
   */
  function UsToCycles(cpuFreqKhz: u32, us: u32): (r: u64)
    ensures 1000 * r <= us * cpuFreqKhz < 1000 * r + 1000
  {
    ProductFits(us, cpuFreqKhz);
    DivBelow(us * cpuFreqKhz, 1000);
    (us * cpuFreqKhz) / 1000
  }

  /**
   * cycles_to_us: the 64-bit product ticks * 1000, wrapped, divided by the
   * frequency; zero when the frequency is unknown (zero).
   */
  function CyclesToUs(cpuFreqKhz: u32, ticks: u64): (r: u64)
    ensures cpuFreqKhz == 0 ==> r == 0
    ensures cpuFreqKhz != 0 ==>
      r * cpuFreqKhz <= (ticks * 1000) % U64 < r * cpuFreqKhz + cpuFreqKhz
  {
    if cpuFreqKhz == 0 then 0
    else
      var us := ((ticks * 1000) % U64) / cpuFreqKhz;
      DivBelow((ticks * 1000) % U64, cpuFreqKhz);
      us
  }

  /** cycles_to_ms: whole milliseconds in ticks; the source divides unguarded. */
  function CyclesToMs(cpuFreqKhz: u32, ticks: u64): (r: u64)
    requires cpuFreqKhz != 0
    ensures r * cpuFreqKhz <= ticks < r * cpuFreqKhz + cpuFreqKhz
  {
    DivBelow(ticks, cpuFreqKhz);
    ticks / cpuFreqKhz
  }

  /** A longer interval never converts to fewer cycles. */
  lemma {:induction false} UsToCyclesMonotone(cpuFreqKhz: u32, a: u32, b: u32)
    requires a <= b
    ensures UsToCycles(cpuFreqKhz, a) <= UsToCycles(cpuFreqKhz, b)
  {
    MulLeftMono(cpuFreqKhz, a, b);
    DivMono(a * cpuFreqKhz, b * cpuFreqKhz, 1000);
  }

  /**
   * Converting microseconds to cycles and back never gains time: the
   * truncations only lose, and the intermediate product does not wrap.
   */
  lemma {:induction false} CyclesRoundTripBelow(cpuFreqKhz: u32, us: u32)
    requires cpuFreqKhz != 0
    ensures CyclesToUs(cpuFreqKhz, UsToCycles(cpuFreqKhz, us)) <= us
  {
    var c: nat := UsToCycles(cpuFreqKhz, us);
    var p: nat := us * cpuFreqKhz;
    var m: nat := c * 1000;
    ProductFits(us, cpuFreqKhz);
    assert m <= p < U64;
    assert m % U64 == m;
    assert CyclesToUs(cpuFreqKhz, c) == m / cpuFreqKhz;
    DivMono(m, p, cpuFreqKhz);
    MulDivCancel(us, cpuFreqKhz);
  }

  lemma {:induction false} MulDivCancel(a: nat, f: nat)
    requires f > 0
    ensures (a * f) / f == a
  {
    var q := (a * f) / f;
    var r := (a * f) % f;
    assert a * f == q * f + r && 0 <= r < f;
    if q < a {
      MulLeftMono(f, q + 1, a);
      assert false;
    } else if q > a {
      MulLeftMono(f, a + 1, q);
      assert false;
    }
  }


  /**
   * The wrapped product makes the conversion fall back: at 2 GHz, one cycle
   * past 2^64 / 1000 (about 106 days of uptime) the result drops to zero.
   */
  lemma CyclesToUsWrapsBack()
    ensures CyclesToUs(2_000_000, 18_446_744_073_709_552) == 0
    ensures CyclesToUs(2_000_000, 18_446_744_073_709_551) == 9_223_372_036_854
  {
  }

  /**
   * The conversion without the wrap: whole seconds' worth of cycles are
   * divided before multiplying, so no intermediate exceeds 64 bits.
   */
  function CyclesToUsUnwrapped(cpuFreqKhz: u32, ticks: u64): (r: nat)
    ensures cpuFreqKhz == 0 ==> r == 0
    ensures cpuFreqKhz != 0 ==> r * cpuFreqKhz <= ticks * 1000 < r * cpuFreqKhz + cpuFreqKhz
  {
    if cpuFreqKhz == 0 then 0
    else
      var q := ticks / cpuFreqKhz;
      var s := ((ticks % cpuFreqKhz) * 1000) / cpuFreqKhz;
      assert q >= 0 && s >= 0;
      var r := q * 1000 + s;
      SplitDivision(ticks, cpuFreqKhz, r);
      r
  }

  /** Dividing quotient and remainder separately gives the exact quotient of t * 1000. */
  lemma {:induction false} SplitDivision(t: nat, f: nat, r: nat)
    requires f > 0 && r == (t / f) * 1000 + ((t % f) * 1000) / f
    ensures r * f <= t * 1000 < r * f + f
  {
    var q, m := t / f, t % f;
    var s := (m * 1000) / f;
    assert t == q * f + m;
    assert s * f <= m * 1000 < s * f + f;
    assert t * 1000 == q * f * 1000 + m * 1000 by {
      assert (q * f + m) * 1000 == q * f * 1000 + m * 1000;
    }
    assert (q * 1000 + s) * f == q * 1000 * f + s * f;
    assert q * f * 1000 == q * 1000 * f;
  }

  /** x * k < y * k with k positive gives x < y. */
  lemma {:induction false} MulCancelLess(x: nat, y: nat, k: nat)
    requires k > 0 && x * k < y * k
    ensures x < y
  {
    if y <= x { MulLeftMono(k, y, x); }
  }

  /** Without the wrap, a later counter value never converts to fewer microseconds. */
  lemma {:induction false} CyclesToUsUnwrappedMonotone(cpuFreqKhz: u32, a: u64, b: u64)
    requires a <= b
    ensures CyclesToUsUnwrapped(cpuFreqKhz, a) <= CyclesToUsUnwrapped(cpuFreqKhz, b)
  {
    if cpuFreqKhz != 0 {
      var ra, rb := CyclesToUsUnwrapped(cpuFreqKhz, a), CyclesToUsUnwrapped(cpuFreqKhz, b);
      assert ra * cpuFreqKhz < (rb + 1) * cpuFreqKhz;
      MulCancelLess(ra, rb + 1, cpuFreqKhz);
    }
  }

  /** Where the product does not wrap, the source's conversion is the unwrapped one. */
  lemma {:induction false} CyclesToUsAgreesBelowWrap(cpuFreqKhz: u32, ticks: u64)
    requires ticks * 1000 < U64
    ensures CyclesToUs(cpuFreqKhz, ticks) == CyclesToUsUnwrapped(cpuFreqKhz, ticks)
  {
    if cpuFreqKhz != 0 {
      var r, u := CyclesToUs(cpuFreqKhz, ticks), CyclesToUsUnwrapped(cpuFreqKhz, ticks);
      assert (ticks * 1000) % U64 == ticks * 1000;
      if r < u {
        MulLeftMono(cpuFreqKhz, r + 1, u);
        assert false;
      } else if u < r {
        MulLeftMono(cpuFreqKhz, u + 1, r);
        assert false;
      }
    }
  }
}
