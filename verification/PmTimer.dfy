// pm_timer.c and the sleeps of clocks.c: a 24- or 32-bit counter that wraps, read into an
// accumulator that does not.

module PmTimers {

  function Modulus(is32bit: bool): nat { if is32bit then 0x1_0000_0000 else 0x100_0000 }

  // x & mask
  function Masked(x: int, is32bit: bool): nat { if is32bit then x % 0x1_0000_0000 else x % 0x100_0000 }

  // (current - last) & mask in 32-bit arithmetic.
  function Delta(current: nat, last: nat, is32bit: bool): nat {
    Masked((current - last) % 0x1_0000_0000, is32bit)
  }

  // The C expression is that remainder.
  lemma MaskIsModulus(current: bv32, last: bv32)
    ensures (current - last) & 0x00FF_FFFF == (current - last) % 0x0100_0000
    ensures (current - last) & 0xFFFF_FFFF == current - last
  {
  }

  // Two readings of the true count t0 and then t1 tell t1 - t0 up to whole wraps.
  lemma DeltaCounts(t0: nat, t1: nat, current: nat, last: nat, is32bit: bool)
    requires t0 <= t1 && Masked(last, is32bit) == Masked(t0, is32bit) && Masked(current, is32bit) == Masked(t1, is32bit)
    ensures Delta(current, last, is32bit) == Masked(t1 - t0, is32bit)
  {
    if is32bit {
      Congruent32(current - last, t1 - t0, current, last, t1, t0);
    } else {
      Congruent24(current - last, t1 - t0, current, last, t1, t0);
    }
  }

  lemma Congruent32(x: int, y: int, a: nat, b: nat, c: nat, d: nat)
    requires x == a - b && y == c - d && a % 0x1_0000_0000 == c % 0x1_0000_0000
    requires b % 0x1_0000_0000 == d % 0x1_0000_0000
    ensures x % 0x1_0000_0000 == y % 0x1_0000_0000
  {
  }

  lemma Congruent24(x: int, y: int, a: nat, b: nat, c: nat, d: nat)
    requires x == a - b && y == c - d && a % 0x100_0000 == c % 0x100_0000 && b % 0x100_0000 == d % 0x100_0000
    ensures x % 0x1_0000_0000 % 0x100_0000 == y % 0x100_0000
  {
  }

  class PmTimer {
    const is32bit: bool
    var accumulated: nat
    var last: nat
    ghost var truth: nat  // ticks the hardware had counted at the last read

    ghost predicate Valid()
      reads this
    {
      Masked(last, is32bit) == Masked(truth, is32bit)
    }

    // The static variables start at zero, as if the count had been read at zero.
    constructor (is32bit: bool)
      ensures Valid() && this.is32bit == is32bit && accumulated == 0 && last == 0 && truth == 0
    {
      this.is32bit := is32bit;
      accumulated := 0;
      last := 0;
      truth := 0;
    }

    // pm_timer_read, when the hardware has counted `now` ticks and shows `current`.
    method Read(current: nat, ghost now: nat) returns (r: nat)
      requires Valid() && truth <= now && Masked(current, is32bit) == Masked(now, is32bit)
      modifies `accumulated, `last, `truth
      ensures Valid() && truth == now && r == accumulated
      ensures accumulated == old(accumulated) + Masked(now - old(truth), is32bit)
      ensures accumulated == old(accumulated) +
        if is32bit then (now - old(truth)) % 0x1_0000_0000 else (now - old(truth)) % 0x100_0000
      ensures accumulated - old(accumulated) == now - old(truth) <==>
        now - old(truth) < if is32bit then 0x1_0000_0000 else 0x100_0000
    {
      DeltaCounts(truth, now, current, last, is32bit);
      var delta := Delta(current, last, is32bit);
      accumulated := accumulated + delta;
      last := current;
      truth := now;
      r := accumulated;
      LessThanWrap(now - old(truth), is32bit);
    }
  }

  lemma LessThanWrap(x: nat, is32bit: bool)
    ensures Masked(x, is32bit) == x <==> x < Modulus(is32bit)
    ensures Masked(x, is32bit) <= x
  {
  }

  // ---- Whole histories of reads ----

  predicate Sorted(counts: seq<nat>) { forall i, j :: 0 <= i < j < |counts| ==> counts[i] <= counts[j] }

  // What the accumulator has gained over a run of true counts.
  function Gained(counts: seq<nat>, is32bit: bool): nat
    requires |counts| > 0 && Sorted(counts)
  {
    if |counts| == 1 then 0
    else
      var last := |counts| - 1;
      Gained(counts[..last], is32bit) + Masked(counts[last] - counts[last - 1], is32bit)
  }

  ghost predicate Soon(counts: seq<nat>, is32bit: bool) {
    forall i :: 0 < i < |counts| ==> counts[i] - counts[i - 1] < Modulus(is32bit)
  }

  // However often the counter wraps, the accumulator gains the true count exactly when no two reads
  // are a wrap or more apart; otherwise it falls behind.
  lemma {:induction false} ReadsTrack(counts: seq<nat>, is32bit: bool)
    requires |counts| > 0 && Sorted(counts)
    ensures Gained(counts, is32bit) <= counts[|counts| - 1] - counts[0]
    ensures Soon(counts, is32bit) <==> Gained(counts, is32bit) == counts[|counts| - 1] - counts[0]
    decreases |counts|
  {
    if |counts| > 1 {
      var last := |counts| - 1;
      var gap := counts[last] - counts[last - 1];
      ReadsTrack(counts[..last], is32bit);
      LessThanWrap(gap, is32bit);
      SoonStep(counts, is32bit);
      hide Soon, Modulus, Masked, Sorted;
    }
  }

  lemma SoonStep(counts: seq<nat>, is32bit: bool)
    requires |counts| > 1
    ensures var last := |counts| - 1;
      Soon(counts, is32bit) <==> Soon(counts[..last], is32bit) && counts[last] - counts[last - 1] < Modulus(is32bit)
  {
  }

  // A whole wrap between two reads goes unnoticed.
  lemma WrapIsMissed()
    ensures Gained([0, 0x100_0000], false) == 0 && !Soon([0, 0x100_0000], false)
  {
    var counts := [0, 0x100_0000];
    assert counts[..1] == [0];
    assert counts[1] - counts[0] == 0x100_0000;
  }

  // ---- Sleeping ----

  // Reads are less than a wrap apart.
  ghost predicate Ticking(clock: nat -> nat, is32bit: bool) {
    forall i: nat :: clock(i) <= clock(i + 1) < clock(i) + Modulus(is32bit)
  }

  // No read before the n-th is late enough.
  ghost predicate Waiting(clock: nat -> nat, n: nat, ticks: nat) {
    forall i: nat :: 0 < i < n ==> clock(i) - clock(0) < ticks
  }

  // busy_sleep_ticks on a clock whose i-th read happens when the hardware has counted clock(i) ticks.
  // It returns at the first read that is `ticks` true ticks or more after the one it started with.
  method BusySleepTicks(timer: PmTimer, ticks: nat, clock: nat -> nat, ghost enough: nat) returns (n: nat)
    requires timer.Valid() && timer.truth <= clock(0) && clock(enough) - clock(0) >= ticks
    requires Ticking(clock, timer.is32bit)
    modifies timer
    ensures timer.Valid() && n > 0 && clock(n) - clock(0) >= ticks
    ensures Waiting(clock, n, ticks)
  {
    hide Modulus, Masked, Ticking, Waiting, Raw;
    RawShows(clock(0), timer.is32bit);
    var start := timer.Read(Raw(clock(0), timer.is32bit), clock(0));
    var now := ReadNext(timer, clock, 0);
    n := 1;
    Awaited(clock, 0, ticks);
    while now - start < ticks
      invariant timer.Valid() && n > 0 && timer.truth == clock(n)
      invariant now - start == clock(n) - clock(0) && now == timer.accumulated
      invariant Waiting(clock, n, ticks)
      invariant n <= enough || n == 1
      decreases enough - n
    {
      NotYet(clock, n, enough, ticks, timer.is32bit);
      Awaited(clock, n, ticks);
      now := ReadNext(timer, clock, n);
      n := n + 1;
    }
  }

  // What the counter register shows.
  function Raw(count: nat, is32bit: bool): nat { Masked(count, is32bit) }

  lemma RawShows(count: nat, is32bit: bool)
    ensures Masked(Raw(count, is32bit), is32bit) == Masked(count, is32bit)
  {
  }

  lemma Awaited(clock: nat -> nat, n: nat, ticks: nat)
    requires n == 0 || (Waiting(clock, n, ticks) && clock(n) - clock(0) < ticks)
    ensures Waiting(clock, n + 1, ticks)
  {
  }

  method ReadNext(timer: PmTimer, clock: nat -> nat, i: nat) returns (r: nat)
    requires timer.Valid() && timer.truth == clock(i) && Ticking(clock, timer.is32bit)
    modifies timer
    ensures timer.Valid() && timer.truth == clock(i + 1) && r == timer.accumulated
    ensures r - old(timer.accumulated) == clock(i + 1) - clock(i)
  {
    assert clock(i) <= clock(i + 1) < clock(i) + Modulus(timer.is32bit);
    RawShows(clock(i + 1), timer.is32bit);
    hide Raw, Masked;
    r := timer.Read(Raw(clock(i + 1), timer.is32bit), clock(i + 1));
  }

  lemma {:induction false} Climbs(clock: nat -> nat, i: nat, j: nat, is32bit: bool)
    requires i <= j && Ticking(clock, is32bit)
    ensures clock(i) <= clock(j)
    decreases j - i
  {
    if i < j { Climbs(clock, i + 1, j, is32bit); }
  }

  lemma NotYet(clock: nat -> nat, n: nat, enough: nat, ticks: nat, is32bit: bool)
    requires clock(n) - clock(0) < ticks <= clock(enough) - clock(0)
    requires Ticking(clock, is32bit)
    ensures n < enough
  {
    if enough <= n { Climbs(clock, enough, n, is32bit); }
  }

  // busy_sleep_ns turns nanoseconds into ticks in 64-bit arithmetic, rounding down.
  function SleepTicks(ns: nat, freq: nat): nat { ns * freq % 0x1_0000_0000_0000_0000 / 1000000000 }

  // The sleep covers the time asked for exactly when the product fits 64 bits and is a whole number of
  // ticks. If it fits, less than one tick is missing.
  lemma SleepIsLongEnough(ns: nat, freq: nat)
    ensures SleepTicks(ns, freq) * 1000000000 >= ns * freq <==>
      ns * freq < 0x1_0000_0000_0000_0000 && ns * freq % 1000000000 == 0
    ensures ns * freq < 0x1_0000_0000_0000_0000 ==> SleepTicks(ns, freq) * 1000000000 > ns * freq - 1000000000
    ensures SleepTicks(ns, freq) * 1000000000 <= ns * freq
  {
    TicksCover(ns * freq);
  }

  // Of the product only the low 64 bits, w, are divided.
  lemma SleepTicksOf(ns: nat, freq: nat, q: nat, w: nat)
    requires ns * freq == q * 0x1_0000_0000_0000_0000 + w && w < 0x1_0000_0000_0000_0000
    ensures SleepTicks(ns, freq) * 1000000000 <= w < SleepTicks(ns, freq) * 1000000000 + 1000000000
  {
    var x := ns * freq;
    assert x % 0x1_0000_0000_0000_0000 == w;
  }

  lemma TicksCover(x: nat)
    ensures var t := x % 0x1_0000_0000_0000_0000 / 1000000000;
      (t * 1000000000 >= x <==> x < 0x1_0000_0000_0000_0000 && x % 1000000000 == 0) &&
      (x < 0x1_0000_0000_0000_0000 ==> t * 1000000000 > x - 1000000000) && t * 1000000000 <= x
  {
    var w := x % 0x1_0000_0000_0000_0000;
    assert w <= x && (w == x <==> x < 0x1_0000_0000_0000_0000);
    assert w / 1000000000 * 1000000000 + w % 1000000000 == w;
  }

  // busy_sleep_ns, on the same clock.
  method BusySleepNs(timer: PmTimer, ns: nat, freq: nat, clock: nat -> nat, ghost enough: nat) returns (n: nat)
    requires timer.Valid() && timer.truth <= clock(0) && clock(enough) - clock(0) >= SleepTicks(ns, freq)
    requires Ticking(clock, timer.is32bit)
    modifies timer
    ensures timer.Valid() && n > 0 && clock(n) - clock(0) >= SleepTicks(ns, freq)
    ensures Waiting(clock, n, SleepTicks(ns, freq))
    ensures ns * freq < 0x1_0000_0000_0000_0000 && ns * freq % 1000000000 == 0 ==>
      (clock(n) - clock(0)) * 1000000000 >= ns * freq
  {
    SleepIsLongEnough(ns, freq);
    hide SleepTicks, Ticking, Waiting;
    n := BusySleepTicks(timer, SleepTicks(ns, freq), clock, enough);
  }

  // Seven seconds on a counter of 3 GHz last 2553255926 ticks, less than one second.
  lemma LongSleepIsCutShort()
    ensures SleepTicks(7000000000, 3000000000) == 2553255926
  {
    assert 7000000000 * 3000000000 == 0x1_0000_0000_0000_0000 + 2553255926290448384;
  }
}
