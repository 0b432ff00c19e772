/**
 CLOCK_MONOTONIC of packages/ti/posix/tirtos/clock.c: a 32-bit tick count whose rollovers are counted, turned into seconds
 and nanoseconds in 32-bit arithmetic. `tps` is TICKS_PER_SEC.
 */
module MonotonicClock {
  import opened Arithmetic

  const TWO32: int := 0x1_0000_0000
  const MAX_TICKS: int := 0xFFFF_FFFF

  type U32 = x: int | 0 <= x < 0x1_0000_0000

  function Wrap(x: int): U32 {
    x % TWO32
  }

  /** A tick period of 1 to 1000000 microseconds. */
  predicate Rate(tps: int) {
    1 <= tps <= 1_000_000
  }

  /** MAX_SECONDS and REM_TICKS. */
  function MaxSeconds(tps: int): int
    requires Rate(tps)
  {
    MAX_TICKS / tps
  }

  function RemTicks(tps: int): int
    requires Rate(tps)
  {
    MAX_TICKS - MaxSeconds(tps) * tps + 1
  }

  /** A rollover is MAX_SECONDS seconds and REM_TICKS ticks, at most one more second. */
  lemma RolloverIs(tps: int)
    requires Rate(tps)
    ensures TWO32 == MaxSeconds(tps) * tps + RemTicks(tps) && 1 <= RemTicks(tps) <= tps && 1 <= MaxSeconds(tps) < TWO32
  {
    DivFacts(MAX_TICKS, tps);
  }

  // ---------------------------------------------------------------- rollovers

  /** prevTicks and rolloverCount. */
  datatype Ticks = Ticks(prev: U32, rollovers: U32)

  /** getClockTicks when the counter reads `now`. */
  function Sample(s: Ticks, now: U32): Ticks {
    Ticks(now, if now < s.prev then Wrap(s.rollovers + 1) else s.rollovers)
  }

  /** The tick count the two words stand for. */
  function Total(s: Ticks): int {
    s.rollovers * TWO32 + s.prev
  }

  /** A sample at the true tick `time` is right exactly if fewer than 2^32 ticks have passed since the last one. */
  lemma SampleExactIff(s: Ticks, time: int)
    requires Total(s) <= time && s.rollovers < MAX_TICKS
    ensures Total(Sample(s, Wrap(time))) == time <==> time - Total(s) < TWO32
  {
    var q := time / TWO32;
    DivFacts(time, TWO32);
    assert time == q * TWO32 + Wrap(time);
    Scale(s.rollovers + 1, q, TWO32);
    Scale(q, s.rollovers, TWO32);
    Scale(q, s.rollovers + 1, TWO32);
    Scale(s.rollovers + 2, q, TWO32);
  }

  /** The state after samples at the given true ticks. */
  function Sampled(times: seq<int>): Ticks {
    if times == [] then Ticks(0, 0) else Sample(Sampled(times[..|times| - 1]), Wrap(times[|times| - 1]))
  }

  /** Each sample less than 2^32 ticks after the one before, the first counting from zero. */
  ghost predicate Close(times: seq<int>) {
    forall i :: 0 <= i < |times| ==> Gap(times, i)
  }

  ghost predicate Gap(times: seq<int>, i: nat)
    requires i < |times|
  {
    var before := if i == 0 then 0 else times[i - 1];
    before <= times[i] < before + TWO32
  }

  lemma {:induction false} SampledExact(times: seq<int>)
    requires Close(times) && times != [] && times[|times| - 1] < MAX_TICKS * TWO32
    ensures Total(Sampled(times)) == times[|times| - 1]
    decreases |times|
  {
    var n := |times| - 1;
    var rest := times[..n];
    assert Gap(times, n);
    forall i | 0 <= i < n ensures Gap(rest, i) {
      assert Gap(times, i);
    }
    if n > 0 {
      SampledExact(rest);
    }
    var s := Sampled(rest);
    assert s.rollovers < MAX_TICKS by {
      Scale(MAX_TICKS, s.rollovers, TWO32);
    }
    SampleExactIff(s, times[n]);
  }

  // ---------------------------------------------------------------- seconds and nanoseconds

  datatype Time = Time(secs: U32, remTicks: U32)

  /** Lines 161-172: seconds, and the remaining ticks that tv_nsec is made of. */
  function GetTime(s: Ticks, tps: int): (t: Time)
    requires Rate(tps)
  {
    var ticks := s.prev;
    DivFacts(ticks, tps);
    RolloverIs(tps);
    var secs := ticks / tps;
    var remTicks := Wrap(ticks - secs * tps + Wrap(RemTicks(tps) * s.rollovers));
    DivFacts(remTicks, tps);
    var remSecs := remTicks / tps;
    Time(Wrap(secs + remSecs + Wrap(MaxSeconds(tps) * s.rollovers)), remTicks - remSecs * tps)
  }

  /** The ticks that are not whole seconds, of the count and of all rollovers together. */
  function RemainderSum(s: Ticks, tps: int): int
    requires Rate(tps)
  {
    s.prev % tps + RemTicks(tps) * s.rollovers
  }

  /** The true count in terms of the parts the code adds up. */
  lemma TotalInParts(s: Ticks, tps: int)
    requires Rate(tps)
    ensures Total(s) == (s.prev / tps + MaxSeconds(tps) * s.rollovers) * tps + RemainderSum(s, tps)
    ensures 0 <= RemainderSum(s, tps) && 0 <= MaxSeconds(tps) * s.rollovers
  {
    RolloverIs(tps);
    DivFacts(s.prev, tps);
    var n := s.rollovers;
    assert n * TWO32 == n * (MaxSeconds(tps) * tps) + n * RemTicks(tps);
    Associate(n, MaxSeconds(tps), tps);
    assert n * MaxSeconds(tps) == MaxSeconds(tps) * n && n * RemTicks(tps) == RemTicks(tps) * n;
    Distribute(s.prev / tps, MaxSeconds(tps) * n, tps);
    Scale(0, n, MaxSeconds(tps));
    Scale(0, n, RemTicks(tps));
  }

  /** Quotient and remainder of a sum whose first part is whole seconds. */
  lemma QuotientOfParts(total: int, whole: int, rest: int, tps: int)
    requires tps > 0 && total == whole * tps + rest && 0 <= rest
    ensures total / tps == whole + rest / tps && total % tps == rest % tps
  {
    DivFacts(rest, tps);
    Distribute(whole, rest / tps, tps);
    DivUnique(total, tps, whole + rest / tps, rest % tps);
  }

  /**
   While the seconds fit in 32 bits, clock_gettime returns exactly the quotient and the remainder of the tick count by
   TICKS_PER_SEC, if the remainder sum fits in 32 bits too.
   */
  lemma GetTimeExact(s: Ticks, tps: int)
    requires Rate(tps) && Total(s) / tps < TWO32 && RemainderSum(s, tps) < TWO32
    ensures GetTime(s, tps).secs == Total(s) / tps && GetTime(s, tps).remTicks == Total(s) % tps
  {
    hide GetTime, RemainderSum, Total, MaxSeconds, RemTicks;
    TotalInParts(s, tps);
    DivFacts(s.prev, tps);
    var rest := RemainderSum(s, tps);
    var rollovers := MaxSeconds(tps) * s.rollovers;
    var whole := s.prev / tps + rollovers;
    QuotientOfParts(Total(s), whole, rest, tps);
    DivFacts(rest, tps);
    GetTimeFrom(s, tps, rest);
    assert s.prev / tps + rest / tps + rollovers == Total(s) / tps;
  }

  /** The code's sums, when the remainder sum taken modulo 2^32 is `rest`. */
  lemma GetTimeFrom(s: Ticks, tps: int, rest: U32)
    requires Rate(tps) && rest == Wrap(RemainderSum(s, tps))
    ensures rest / tps * tps <= rest
    ensures GetTime(s, tps).secs == Wrap(s.prev / tps + rest / tps + MaxSeconds(tps) * s.rollovers)
    ensures GetTime(s, tps).remTicks == rest % tps
  {
    DivFacts(s.prev, tps);
    DivFacts(rest, tps);
    WrapInner(s.prev % tps, RemTicks(tps) * s.rollovers);
    WrapInner(s.prev / tps + rest / tps, MaxSeconds(tps) * s.rollovers);
  }

  lemma WrapInner(x: int, y: int)
    ensures Wrap(x + Wrap(y)) == Wrap(x + y)
  {
  }

  /** When the remainder sum does not fit, the seconds are wrong. */
  lemma GetTimeWrong(s: Ticks, tps: int)
    requires Rate(tps) && Total(s) / tps < TWO32 && RemainderSum(s, tps) >= TWO32
    ensures GetTime(s, tps).secs != Total(s) / tps
  {
    TotalInParts(s, tps);
    RolloverIs(tps);
    DivFacts(s.prev, tps);
    var sum := RemainderSum(s, tps);
    var whole := s.prev / tps + MaxSeconds(tps) * s.rollovers;
    QuotientOfParts(Total(s), whole, sum, tps);
    var rest := Wrap(sum);
    DivFacts(sum, tps);
    DivFacts(rest, tps);
    GetTimeFrom(s, tps, rest);
    // what was lost, at least 2^32 ticks, is at least one second and less than 2^32 of them
    LostSeconds(sum, rest, tps, whole);
  }

  lemma LostSeconds(sum: int, rest: int, tps: int, whole: int)
    requires Rate(tps) && rest == Wrap(sum) && sum >= TWO32 && 0 <= whole && whole + sum / tps < TWO32
    ensures Wrap(whole + rest / tps) != whole + sum / tps
  {
    DivFacts(sum, tps);
    DivFacts(rest, tps);
    DivFacts(sum, TWO32);
    assert sum - rest >= TWO32;
    Scale(sum / tps, rest / tps, tps);
    assert rest / tps < sum / tps;
    assert 0 <= rest / tps;
  }

  /** So while the seconds fit in 32 bits, the time is right exactly if the remainder sum fits too. */
  lemma GetTimeRightIff(s: Ticks, tps: int)
    requires Rate(tps) && Total(s) / tps < TWO32
    ensures GetTime(s, tps).secs == Total(s) / tps && GetTime(s, tps).remTicks == Total(s) % tps <==>
            RemainderSum(s, tps) < TWO32
  {
    if RemainderSum(s, tps) < TWO32 {
      GetTimeExact(s, tps);
    } else {
      GetTimeWrong(s, tps);
    }
  }

  /** Nanoseconds stay below a second, and fit the code's 32-bit product. */
  lemma NanosecondsBelow(s: Ticks, tickPeriod: int)
    requires 1 <= tickPeriod <= 1_000_000
    ensures Rate(1_000_000 / tickPeriod)
    ensures 0 <= GetTime(s, 1_000_000 / tickPeriod).remTicks * tickPeriod * 1000 < 1_000_000_000
  {
    var tps := 1_000_000 / tickPeriod;
    DivFacts(1_000_000, tickPeriod);
    var rest := Wrap(RemainderSum(s, tps));
    GetTimeFrom(s, tps, rest);
    DivFacts(rest, tps);
    var r := rest % tps;
    Scale(r + 1, tps, tickPeriod);
    Scale(0, r, tickPeriod);
    Distribute(r, 1, tickPeriod);
  }

  /** Time never goes backwards over a run of samples that are close enough, while it fits. */
  lemma Monotonic(times: seq<int>, k: nat, tps: int)
    requires Rate(tps) && 0 < k < |times| && Close(times) && times[k] < MAX_TICKS * TWO32
    requires var s := Sampled(times[..k]); Total(s) / tps < TWO32 && RemainderSum(s, tps) < TWO32
    requires var t := Sampled(times[..k + 1]); Total(t) / tps < TWO32 && RemainderSum(t, tps) < TWO32
    ensures var s, t := GetTime(Sampled(times[..k]), tps), GetTime(Sampled(times[..k + 1]), tps);
            s.secs < t.secs || (s.secs == t.secs && s.remTicks <= t.remTicks)
  {
    var a, b := times[..k], times[..k + 1];
    assert Gap(times, k);
    forall i | 0 <= i < k + 1 ensures Gap(b, i) && (i < k ==> Gap(a, i)) {
      assert Gap(times, i);
    }
    SampledExact(a);
    SampledExact(b);
    GetTimeExact(Sampled(a), tps);
    GetTimeExact(Sampled(b), tps);
    DivOrder(times[k - 1], times[k], tps);
  }

  lemma DivOrder(x: int, y: int, c: int)
    requires c > 0 && x <= y
    ensures x / c < y / c || (x / c == y / c && x % c <= y % c)
  {
    DivFacts(x, c);
    DivFacts(y, c);
    Scale(y / c + 1, x / c, c);
    Distribute(y / c, 1, c);
  }

  class ClockTime {
    var prevTicks: U32
    var rolloverCount: U32

    ghost function S(): Ticks
      reads this
    {
      Ticks(prevTicks, rolloverCount)
    }

    constructor ()
      ensures S() == Sampled([])
    {
      prevTicks, rolloverCount := 0, 0;
    }

    /** getClockTicks. */
    method GetClockTicks(now: U32) returns (ticks: U32)
      modifies this
      ensures S() == Sample(old(S()), now) && ticks == now
    {
      ticks := now;
      if ticks < prevTicks {
        rolloverCount := Wrap(rolloverCount + 1);
      }
      prevTicks := ticks;
    }

    /** clock_gettime(CLOCK_MONOTONIC) at tick `now`: tv_sec and tv_nsec. */
    method ClockGetTime(now: U32, tickPeriod: int) returns (sec: U32, nsec: int)
      requires 1 <= tickPeriod <= 1_000_000 && Rate(1_000_000 / tickPeriod)
      modifies this
      ensures S() == Sample(old(S()), now)
      ensures var t := GetTime(S(), 1_000_000 / tickPeriod); sec == t.secs && nsec == t.remTicks * tickPeriod * 1000
      ensures 0 <= nsec < 1_000_000_000
    {
      var ticks: int := GetClockTicks(now);
      var numRollovers := rolloverCount;
      NanosecondsBelow(S(), tickPeriod);
      var tps := 1_000_000 / tickPeriod;
      DivFacts(ticks, tps);
      RolloverIs(tps);
      var secs := ticks / tps;
      var remTicks: int := ticks - secs * tps;
      remTicks := Wrap(remTicks + Wrap(RemTicks(tps) * numRollovers));
      DivFacts(remTicks, tps);
      var remSecs := remTicks / tps;
      remTicks := remTicks - remSecs * tps;
      sec := Wrap(secs + remSecs + Wrap(MaxSeconds(tps) * numRollovers));
      nsec := remTicks * tickPeriod * 1000;
    }
  }
}
