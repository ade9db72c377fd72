/**
 * The same conversions as Cycles, for the platform time counter whose
 * frequency (kHz) get_frequency_khz reports; here it is a parameter.
 */
module Timecount {
  import opened Types
  import Cycles

  /** us_to_ticks: 1000 * r <= us * freq < 1000 * (r + 1), without wrap. */
  function UsToTicks(freqKhz: u32, us: u32): (r: u64)
    ensures 1000 * r <= us * freqKhz < 1000 * r + 1000
  {
    Cycles.ProductFits(us, freqKhz);
    Cycles.DivBelow(us * freqKhz, 1000);
    (us * freqKhz) / 1000
  }

  /** ticks_to_us: the wrapped product ticks * 1000 over the frequency; zero for an unknown frequency. */
  function TicksToUs(freqKhz: u32, ticks: u64): (r: u64)
    ensures freqKhz == 0 ==> r == 0
    ensures freqKhz != 0 ==> r * freqKhz <= (ticks * 1000) % U64 < r * freqKhz + freqKhz
  {
    if freqKhz == 0 then 0
    else
      Cycles.DivBelow((ticks * 1000) % U64, freqKhz);
      ((ticks * 1000) % U64) / freqKhz
  }

  /** ticks_to_ms: whole milliseconds; the source divides unguarded. */
  function TicksToMs(freqKhz: u32, ticks: u64): (r: u64)
    requires freqKhz != 0
    ensures r * freqKhz <= ticks < r * freqKhz + freqKhz
  {
    Cycles.DivBelow(ticks, freqKhz);
    ticks / freqKhz
  }

  /** A longer interval never converts to fewer ticks. */
  lemma {:induction false} UsToTicksMonotone(freqKhz: u32, a: u32, b: u32)
    requires a <= b
    ensures UsToTicks(freqKhz, a) <= UsToTicks(freqKhz, b)
  {
    Cycles.UsToCyclesMonotone(freqKhz, a, b);
    assert UsToTicks(freqKhz, a) == Cycles.UsToCycles(freqKhz, a);
    assert UsToTicks(freqKhz, b) == Cycles.UsToCycles(freqKhz, b);
  }

  /** Microseconds to ticks and back never gains time. */
  lemma {:induction false} TicksRoundTripBelow(freqKhz: u32, us: u32)
    requires freqKhz != 0
    ensures TicksToUs(freqKhz, UsToTicks(freqKhz, us)) <= us
  {
    Cycles.CyclesRoundTripBelow(freqKhz, us);
    assert UsToTicks(freqKhz, us) == Cycles.UsToCycles(freqKhz, us);
    assert TicksToUs(freqKhz, UsToTicks(freqKhz, us))
      == Cycles.CyclesToUs(freqKhz, Cycles.UsToCycles(freqKhz, us));
  }
}
