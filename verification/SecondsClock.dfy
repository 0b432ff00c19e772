/**
 packages/ti/sysbios/hal/SecondsClock.c: a count of seconds driven by a timer whose "second" is off by a drift, and the
 two-level correction of that drift.
 */
module SecondsClock {
  import opened Arithmetic

  const TWO32: int := 0x1_0000_0000
  const SECONDS_MAX: int := 0xFFFF_FFFF
  const NSECSPERSEC: int := 1_000_000_000

  type U32 = x: int | 0 <= x < 0x1_0000_0000

  function Wrap(x: int): U32 {
    x % TWO32
  }

  function Abs(x: int): nat {
    if x < 0 then -x else x
  }

  /** The correction: every c1 increments adjust by inc, except every c2-th time. */
  datatype Drift = Drift(c1: U32, c2: U32, inc: int)

  /** SecondsClock_Module_startup, lines 119-131: freq is the timer frequency, drift = freq - counts of one "second". */
  function Correction(freq: U32, drift: int): (d: Drift)
    requires Abs(drift) < TWO32
  {
    if freq != 0 && drift != 0 then
      var a := Abs(drift);
      QuotientFits(freq, a);
      var c1 := freq / a;
      var d2 := freq - c1 * a;
      if d2 != 0 then
        QuotientFits(freq, d2);
        Drift(c1, freq / d2, if drift > 0 then -1 else 1)
      else Drift(c1, 0, if drift > 0 then -1 else 1)
    else Drift(0, 0, 0)
  }

  lemma QuotientFits(f: int, a: int)
    requires 0 <= f < TWO32 && a > 0
    ensures 0 <= f / a <= f && 0 <= f - (f / a) * a < a
  {
    DivFacts(f, a);
  }

  datatype Count = Count(seconds: U32, secondsHi: U32, count1: int, count2: int)

  /** What the corrections of one increment add to `seconds`: 0 or inc. */
  function Adjustment(s: Count, d: Drift): int {
    if d.c1 != 0 && s.count1 + 1 == d.c1 && !(d.c2 != 0 && s.count2 + 1 == d.c2) then d.inc else 0
  }

  /** SecondsClock_increment. */
  function Incremented(s: Count, d: Drift): Count {
    var hi := if s.seconds == SECONDS_MAX then Wrap(s.secondsHi + 1) else s.secondsHi;
    var seconds := Wrap(s.seconds + 1);
    if d.c1 == 0 then Count(seconds, hi, s.count1, s.count2)
    else if s.count1 + 1 != d.c1 then Count(seconds, hi, s.count1 + 1, s.count2)
    else if d.c2 == 0 then Count(Wrap(seconds + d.inc), hi, 0, s.count2)
    else if s.count2 + 1 == d.c2 then Count(seconds, hi, 0, 0)
    else Count(Wrap(seconds + d.inc), hi, 0, s.count2 + 1)
  }

  /** After n increments from zero. */
  function After(n: nat, d: Drift): Count {
    if n == 0 then Count(0, 0, 0, 0) else Incremented(After(n - 1, d), d)
  }

  // ---------------------------------------------------------------- the closed form

  /** The corrections made in n increments. */
  function Corrections(n: nat, d: Drift): int {
    if d.c1 == 0 then 0
    else if d.c2 == 0 then n / d.c1
    else n / d.c1 - (n / d.c1) / d.c2
  }

  /** The true count of seconds, which the 32-bit one is the remainder of. */
  function Seconds(n: nat, d: Drift): int {
    n + d.inc * Corrections(n, d)
  }

  /** What one increment does to each counter. */
  lemma IncrementIs(s: Count, d: Drift)
    ensures var t := Incremented(s, d);
            var round := d.c1 != 0 && s.count1 + 1 == d.c1;
            && t.seconds == Wrap(s.seconds + 1 + Adjustment(s, d))
            && t.count1 == (if d.c1 == 0 then s.count1 else if round then 0 else s.count1 + 1)
            && t.count2 == (if !round || d.c2 == 0 then s.count2 else if s.count2 + 1 == d.c2 then 0 else s.count2 + 1)
  {
  }

  /** count1 and count2 count the increments and the rounds, and seconds is the closed form modulo 2^32. */
  lemma {:induction false} ClosedForm(n: nat, d: Drift)
    ensures var s := After(n, d);
            && s.seconds == Wrap(Seconds(n, d))
            && (d.c1 != 0 ==> s.count1 == n % d.c1)
            && (d.c1 != 0 && d.c2 != 0 ==> s.count2 == (n / d.c1) % d.c2)
  {
    hide Wrap, Incremented, Corrections;
    if n == 0 {
      NothingYet(d);
    } else {
      var m: nat := n - 1;
      var s := After(m, d);
      ClosedForm(m, d);
      IncrementIs(s, d);
      CorrectionsStep(m, d);
      assert Seconds(n, d) == Seconds(m, d) + 1 + Adjustment(s, d);
      WrapSum(Seconds(m, d), 1 + Adjustment(s, d));
    }
  }

  lemma NothingYet(d: Drift)
    ensures Corrections(0, d) == 0 && Wrap(Seconds(0, d)) == 0
    ensures d.c1 != 0 ==> 0 % d.c1 == 0
    ensures d.c1 != 0 && d.c2 != 0 ==> (0 / d.c1) % d.c2 == 0
  {
    if d.c1 != 0 {
      DivUnique(0, d.c1, 0, 0);
      if d.c2 != 0 {
        DivUnique(0, d.c2, 0, 0);
      }
    }
  }

  /** Whether the increment after the m-th one adjusts. */
  predicate Adjusts(m: nat, d: Drift) {
    d.c1 != 0 && m % d.c1 + 1 == d.c1 && !(d.c2 != 0 && (m / d.c1) % d.c2 + 1 == d.c2)
  }

  lemma CorrectionsStep(m: nat, d: Drift)
    ensures Corrections(m + 1, d) == Corrections(m, d) + if Adjusts(m, d) then 1 else 0
    ensures d.inc * Corrections(m + 1, d) == d.inc * Corrections(m, d) + if Adjusts(m, d) then d.inc else 0
    ensures d.c1 != 0 ==> (m + 1) % d.c1 == if m % d.c1 + 1 == d.c1 then 0 else m % d.c1 + 1
    ensures d.c1 != 0 && d.c2 != 0 ==>
              ((m + 1) / d.c1) % d.c2 ==
              if m % d.c1 + 1 != d.c1 then (m / d.c1) % d.c2
              else if (m / d.c1) % d.c2 + 1 == d.c2 then 0 else (m / d.c1) % d.c2 + 1
  {
    if d.c1 != 0 {
      DivStep(m, d.c1);
      if d.c2 != 0 {
        DivStep(m / d.c1, d.c2);
      }
    }
    Distribute(Corrections(m, d), 1, d.inc);
  }

  lemma WrapSum(x: int, y: int)
    ensures Wrap(Wrap(x) + y) == Wrap(x + y)
  {
  }

  // ---------------------------------------------------------------- the error of the correction

  /** How many timer counts `seconds` seconds differ from the counts of n increments, which are freq - drift each. */
  function Gap(freq: int, drift: int, n: int, seconds: int): int {
    freq * seconds - n * (freq - drift)
  }

  /** A drift beyond the frequency is not corrected at all: the error is the whole drift. */
  lemma UncorrectedGap(freq: U32, drift: int, n: nat)
    requires 0 < freq && freq < Abs(drift) < TWO32
    ensures Gap(freq, drift, n, Seconds(n, Correction(freq, drift))) == n * drift
  {
    var a := Abs(drift);
    DivUnique(freq, a, 0, freq);
    var d := Correction(freq, drift);
    assert Corrections(n, d) == 0;
    assert d.inc * 0 == 0;
    assert freq * n - n * (freq - drift) == n * drift;
  }

  /**
   The residue left by the two levels: with M rounds of c1 increments and r1 over, and K rounds of c2 of those and n2
   over, the gap is K * d3 - n2 * d2 + r1 * |drift|, up to its sign.
   */
  lemma GapIs(f: int, a: int, n: int, c1: int, r1: int, c2: int, rounds: int, k: int, n2: int)
    requires n == rounds * c1 + r1 && rounds == k * c2 + n2
    ensures var d2 := f - c1 * a;
            var d3 := f - c2 * d2;
            f * (rounds - k) - n * a == n2 * d2 - k * d3 - r1 * a
  {
    var d2 := f - c1 * a;
    var d3 := f - c2 * d2;
    assert n * a == rounds * (c1 * a) + r1 * a;
    assert c1 * a == f - d2;
    assert rounds * (c1 * a) == rounds * f - rounds * d2;
    assert rounds * d2 == k * (c2 * d2) + n2 * d2;
    assert c2 * d2 == f - d3;
    assert k * (c2 * d2) == k * f - k * d3;
    assert f * (rounds - k) == rounds * f - k * f;
  }

  /** c1 levels only: when they divide the frequency exactly the gap never reaches one second. */
  lemma GapOneLevel(freq: U32, drift: int, n: nat)
    requires drift != 0 && Abs(drift) <= freq && Correction(freq, drift).c2 == 0
    ensures Abs(Gap(freq, drift, n, Seconds(n, Correction(freq, drift)))) < freq
  {
    var a := Abs(drift);
    var d := Correction(freq, drift);
    QuotientFits(freq, a);
    DivFacts(freq, a);
    var c1 := d.c1;
    var d2 := freq - c1 * a;
    if d2 != 0 {
      DivFacts(freq, d2);
    }
    var rounds, r1 := n / c1, n % c1;
    assert n == rounds * c1 + r1;
    GapIs(freq, a, n, c1, r1, 1, rounds, 0, rounds);
    assert rounds * d2 == 0;
    RemainderBelow(freq, c1, a, r1);
    SignedGap(freq, drift, n, rounds, d.inc);
  }

  /** Correcting by -1 for a positive drift and +1 for a negative one turns the gap into that of the corrections alone. */
  lemma SignedGap(freq: int, drift: int, n: int, corrections: int, inc: int)
    requires drift != 0 && inc == if drift > 0 then -1 else 1
    ensures Gap(freq, drift, n, n + inc * corrections) == inc * (freq * corrections - n * Abs(drift))
    ensures Abs(Gap(freq, drift, n, n + inc * corrections)) == Abs(freq * corrections - n * Abs(drift))
  {
    assert freq * (n + inc * corrections) == freq * n + inc * (freq * corrections) by {
      assert inc * corrections == if drift > 0 then -corrections else corrections;
      assert freq * (-corrections) == -(freq * corrections);
    }
    assert n * (freq - drift) == freq * n - n * drift;
    assert n * drift == -inc * (n * Abs(drift)) by {
      if drift > 0 {
      } else {
        assert n * (-drift) == -(n * drift);
      }
    }
  }

  /**
   Both levels: the gap stays below one second plus d3 timer counts for each of the n / (c1 * c2) times that the second
   level has acted.
   */
  lemma GapTwoLevels(freq: U32, drift: int, n: nat)
    requires drift != 0 && Abs(drift) <= freq && Correction(freq, drift).c2 != 0
    ensures var d := Correction(freq, drift);
            var d2 := freq - d.c1 * Abs(drift);
            var d3 := freq - d.c2 * d2;
            && d.c1 > 0 && 0 <= d3 < d2 < Abs(drift)
            && Abs(Gap(freq, drift, n, Seconds(n, d))) < freq + (n / d.c1 / d.c2) * d3
  {
    var a := Abs(drift);
    var d := Correction(freq, drift);
    DivFacts(freq, a);
    var c1, c2 := d.c1, d.c2;
    var d2 := freq - c1 * a;
    DivFacts(freq, d2);
    var rounds := n / c1;
    DivFacts(n, c1);
    DivFacts(rounds, c2);
    TwoLevels(freq, a, n, c1, c2);
    SignedGap(freq, drift, n, rounds - rounds / c2, d.inc);
  }

  lemma TwoLevels(f: int, a: int, n: nat, c1: int, c2: int)
    requires c1 > 0 && c2 > 0 && a > 0 && 0 < f - c1 * a && 0 <= f - c2 * (f - c1 * a) && n / c1 >= 0
    ensures var d3 := f - c2 * (f - c1 * a);
            var rounds := n / c1;
            Abs(f * (rounds - rounds / c2) - n * a) < f + (rounds / c2) * d3
  {
    var d2 := f - c1 * a;
    var d3 := f - c2 * d2;
    var rounds, r1 := n / c1, n % c1;
    DivFacts(n, c1);
    var k, n2 := rounds / c2, rounds % c2;
    DivFacts(rounds, c2);
    GapIs(f, a, n, c1, r1, c2, rounds, k, n2);
    RemainderBelow(f, c1, a, r1);
    RemainderBelow(f, c2, d2, n2);
    Scale(0, k, d3);
    hide Abs;
    var x := n2 * d2 - k * d3 - r1 * a;
    AbsBelow(x, f + k * d3);
  }

  lemma AbsBelow(x: int, b: int)
    requires -b < x < b
    ensures Abs(x) < b
  {
  }

  // ---------------------------------------------------------------- the 64-bit count

  function Total(s: Count): int {
    s.secondsHi * TWO32 + s.seconds
  }

  /**
   The two words are one 64-bit count that each increment advances by one plus the adjustment, except in exactly two
   cases: an adjustment that takes back the wrap of `seconds` leaves secondsHi incremented, and one that itself wraps
   `seconds` does not increment it.
   */
  lemma TotalAdvancesIff(s: Count, d: Drift)
    requires -1 <= d.inc <= 1 && s.secondsHi < SECONDS_MAX && 0 <= Total(s) + 1 + Adjustment(s, d)
    ensures Total(Incremented(s, d)) == Total(s) + 1 + Adjustment(s, d) <==>
            && !(Adjustment(s, d) == -1 && s.seconds == SECONDS_MAX)
            && !(Adjustment(s, d) == 1 && s.seconds == SECONDS_MAX - 1)
  {
  }

  /** SecondsClock_setTime, as far as the count is concerned: the counters of the correction go on. */
  function TimeSet(s: Count, secsHi: U32, secs: U32, nsecs: U32): Count {
    s.(seconds := Wrap(secs + nsecs / NSECSPERSEC), secondsHi := secsHi)
  }

  /**
   Both cases occur, whatever the correction is, if it adjusts at all: c1 - 1 increments, a time set to the last second
   before the wrap (or the one before it), and one more increment, which goes 2^32 seconds wrong.
   */
  lemma AdvanceFails(d: Drift, secsHi: U32)
    requires d.c1 != 0 && d.c2 != 1 && (d.inc == 1 || d.inc == -1) && secsHi < SECONDS_MAX
    ensures var s := TimeSet(After(d.c1 - 1, d), secsHi, if d.inc < 0 then SECONDS_MAX else SECONDS_MAX - 1, 0);
            && Adjustment(s, d) == d.inc
            && Total(Incremented(s, d)) == Total(s) + 1 + d.inc + (if d.inc < 0 then TWO32 else -TWO32)
  {
    ClosedForm(d.c1 - 1, d);
    DivUnique(d.c1 - 1, d.c1, 0, d.c1 - 1);
    if d.c2 != 0 {
      DivUnique(0, d.c2, 0, 0);
    }
    hide After, Corrections;
    assert 0 / NSECSPERSEC == 0;
  }

  // ---------------------------------------------------------------- the module

  class Module {
    var seconds: U32
    var secondsHi: U32
    var ticks: U32
    var count1: int
    var count2: int
    var c1: U32
    var c2: U32
    var c1Inc: int

    ghost function S(): Count
      reads this
    {
      Count(seconds, secondsHi, count1, count2)
    }

    ghost function D(): Drift
      reads this
    {
      Drift(c1, c2, c1Inc)
    }

    /** SecondsClock_Module_startup on zeroed module state. */
    constructor (freq: U32, drift: int)
      requires Abs(drift) < TWO32
      ensures D() == Correction(freq, drift) && S() == After(0, D())
    {
      seconds, secondsHi, ticks, count1, count2 := 0, 0, 0, 0, 0;
      c1, c2, c1Inc := 0, 0, 0;
      new;
      var absDrift := if drift < 0 then -drift else drift;
      if freq != 0 && drift != 0 {
        QuotientFits(freq, absDrift);
        c1 := freq / absDrift;
        if freq != c1 * absDrift {
          QuotientFits(freq, freq - c1 * absDrift);
          c2 := freq / (freq - c1 * absDrift);
        }
        c1Inc := if drift > 0 then -1 else 1;
      }
    }

    /** SecondsClock_increment. */
    method Increment(now: U32)
      modifies this`seconds, this`secondsHi, this`ticks, this`count1, this`count2
      ensures S() == Incremented(old(S()), D()) && ticks == now
    {
      if seconds == SECONDS_MAX {
        secondsHi := Wrap(secondsHi + 1);
      }
      seconds := Wrap(seconds + 1);
      ticks := now;
      if c1 != 0 {
        count1 := count1 + 1;
        if count1 == c1 {
          count1 := 0;
          if c2 != 0 {
            count2 := count2 + 1;
            if count2 == c2 {
              count2 := 0;
            } else {
              seconds := Wrap(seconds + c1Inc);
            }
          } else {
            seconds := Wrap(seconds + c1Inc);
          }
        }
      }
    }

    /** SecondsClock_getTime at tick `now`: seconds and nanoseconds. */
    method GetTime(now: U32, tickPeriod: U32) returns (secsHi: U32, secs: U32, nsecs: U32)
      ensures secsHi == secondsHi && secs == seconds
      ensures nsecs == Wrap(Wrap(now - ticks) * tickPeriod * 1000)
    {
      secsHi, secs := secondsHi, seconds;
      var t := Wrap(now - ticks);
      nsecs := Wrap(t * tickPeriod * 1000);
    }

    /** The time set by SecondsClock_setTime at tick `now` (lines 228-259), and the timeout until the next increment. */
    method SetTime(secsHi: U32, secs: U32, nsecs: U32, now: U32, tickPeriod: U32, period: U32) returns (timeout: U32)
      requires 0 < tickPeriod <= MAX_TICK_PERIOD
      modifies this`seconds, this`secondsHi, this`ticks
      ensures S() == TimeSet(old(S()), secsHi, secs, nsecs)
      ensures ticks == Wrap(now - Ceiling(nsecs % NSECSPERSEC, tickPeriod))
      ensures timeout == var left := Wrap(1_000_000 / tickPeriod - Ceiling(nsecs % NSECSPERSEC, tickPeriod));
                         if NotHappening(left, period) then period else left
    {
      seconds := Wrap(secs + nsecs / NSECSPERSEC);
      var nanos := nsecs - (nsecs / NSECSPERSEC) * NSECSPERSEC;
      var nsecsPerTick := tickPeriod * 1000;
      var ticksNSecs := ((nanos + nsecsPerTick - 1) / 1000) / tickPeriod;
      assert ticksNSecs == Ceiling(nanos, tickPeriod);
      Nanoseconds(nsecs);
      hide Ceiling;
      secondsHi := secsHi;
      ticks := Wrap(now - ticksNSecs);
      timeout := Wrap(1_000_000 / tickPeriod - ticksNSecs);
      if timeout == 0 || timeout > period {
        timeout := period;
      }
    }
  }

  lemma Nanoseconds(nsecs: nat)
    ensures nsecs - (nsecs / NSECSPERSEC) * NSECSPERSEC == nsecs % NSECSPERSEC
  {
  }

  /** The largest tick period in microseconds for which the sums of setTime do not wrap. */
  const MAX_TICK_PERIOD := 3_294_967

  /** The test of the branch of setTime marked as not happening. */
  predicate NotHappening(timeout: int, period: int) {
    timeout == 0 || timeout > period
  }

  /** ticksNSecs of setTime. */
  function Ceiling(nsecs: int, tickPeriod: int): int
    requires tickPeriod > 0
  {
    ((nsecs + tickPeriod * 1000 - 1) / 1000) / tickPeriod
  }

  /** The ticks of setTime are the nanoseconds rounded up: never behind the time set, and less than a tick ahead of it. */
  lemma SetTimeNotBehind(nsecs: nat, tickPeriod: nat)
    requires nsecs < NSECSPERSEC && 0 < tickPeriod <= MAX_TICK_PERIOD
    ensures var t := Ceiling(nsecs, tickPeriod);
            0 <= t && nsecs <= t * tickPeriod * 1000 < nsecs + tickPeriod * 1000
  {
    var p := tickPeriod * 1000;
    var x := nsecs + p - 1;
    DivTwice(x, 1000, tickPeriod);
    assert 1000 * tickPeriod == p;
    var t := x / p;
    DivFacts(x, p);
    assert t * tickPeriod * 1000 == t * p;
  }

  /**
   The time read at the tick it was set at, seconds and nanoseconds together, is the time set, rounded up by less than a
   tick, if and only if carrying the nanoseconds does not wrap the lower word: secondsHi gets no carry.
   */
  lemma SetTimeReadsIff(s: Count, secsHi: U32, secs: U32, nsecs: U32, now: U32, tickPeriod: nat)
    requires 0 < tickPeriod <= MAX_TICK_PERIOD
    ensures var c := TimeSet(s, secsHi, secs, nsecs);
            var ticks := Wrap(now - Ceiling(nsecs % NSECSPERSEC, tickPeriod));
            var told := (secsHi * TWO32 + secs) * NSECSPERSEC + nsecs;
            var read := Total(c) * NSECSPERSEC + Wrap(Wrap(now - ticks) * tickPeriod * 1000);
            told <= read < told + tickPeriod * 1000 <==> secs + nsecs / NSECSPERSEC < TWO32
  {
    var rest, q := nsecs % NSECSPERSEC, nsecs / NSECSPERSEC;
    SetTimeNotBehind(rest, tickPeriod);
    var t := Ceiling(rest, tickPeriod);
    hide Ceiling;
    var v, p := t * tickPeriod * 1000, tickPeriod * 1000;
    Associate(t, tickPeriod, 1000);
    TicksFew(rest, t, p);
    hide Wrap;
    ReadsBack(now, t);
    Small(v);
    ToldIsRead(secsHi, secs, q, rest, v, p);
  }

  /**
   The branch of setTime marked as not happening does happen. With the period SecondsClock is configured with, the ticks
   of a second, it is taken exactly for times beyond the last whole tick but one of the second: on a tick that divides
   the second, for times less than one tick before the next second, and the nanoseconds read back are then a whole second.
   */
  lemma SetTimeReachesSecond(nsecs: nat, tickPeriod: nat)
    requires nsecs < NSECSPERSEC && 0 < tickPeriod <= MAX_TICK_PERIOD
    ensures var period := 1_000_000 / tickPeriod;
            NotHappening(Wrap(period - Ceiling(nsecs, tickPeriod)), period) <==> nsecs > (period - 1) * tickPeriod * 1000
    ensures 1_000_000 % tickPeriod == 0 && nsecs > NSECSPERSEC - tickPeriod * 1000 ==>
              && nsecs > (1_000_000 / tickPeriod - 1) * tickPeriod * 1000
              && Ceiling(nsecs, tickPeriod) * tickPeriod * 1000 == NSECSPERSEC
  {
    SetTimeNotBehind(nsecs, tickPeriod);
    var t, period := Ceiling(nsecs, tickPeriod), 1_000_000 / tickPeriod;
    var p := tickPeriod * 1000;
    hide Ceiling;
    DivFacts(1_000_000, tickPeriod);
    Associate(t, tickPeriod, 1000);
    Associate(period, tickPeriod, 1000);
    Associate(period - 1, tickPeriod, 1000);
    Distribute(period, -1, p);
    TicksReach(nsecs, t, period, p);
    TicksFew(nsecs, t, p);
    hide Wrap;
    WrapsHigh(period, t);
    if 1_000_000 % tickPeriod == 0 {
      assert period * p == NSECSPERSEC;
      WholeSecond(nsecs, t, period, p);
    }
  }

  /** t ticks of p, the least that reach nsecs, are at least n exactly if nsecs is beyond n - 1 ticks. */
  lemma TicksReach(nsecs: nat, t: int, n: int, p: int)
    requires p > 0 && 0 <= t && nsecs <= t * p < nsecs + p
    ensures t >= n <==> nsecs > (n - 1) * p
  {
    Scale(t, n - 1, p);
    Scale(n, t, p);
    Distribute(n, -1, p);
  }

  lemma TicksFew(nsecs: nat, t: int, p: int)
    requires p >= 1000 && 0 <= t && nsecs < NSECSPERSEC && t * p < nsecs + p
    ensures t <= 1_000_000
  {
    if t > 1_000_000 {
      Scale(1_000_001, t, p);
      Distribute(1_000_000, 1, p);
    }
  }

  lemma Small(v: int)
    requires 0 <= v < TWO32
    ensures Wrap(v) == v
  {
  }

  /** A count of seconds told with q seconds in its nanoseconds, and read with v nanoseconds for the rest. */
  lemma ToldIsRead(secsHi: U32, secs: U32, q: int, rest: int, v: int, p: int)
    requires 0 <= q < TWO32 && rest <= v < rest + p && 0 <= p < TWO32
    ensures var told := (secsHi * TWO32 + secs) * NSECSPERSEC + (q * NSECSPERSEC + rest);
            var read := (secsHi * TWO32 + Wrap(secs + q)) * NSECSPERSEC + v;
            told <= read < told + p <==> secs + q < TWO32
  {
  }

  lemma ReadsBack(now: U32, t: int)
    requires 0 <= t <= 1_000_000
    ensures Wrap(now - Wrap(now - t)) == t
  {
  }

  lemma WrapsHigh(period: int, t: int)
    requires 0 <= period <= 1_000_000 && 0 <= t <= 1_000_000
    ensures NotHappening(Wrap(period - t), period) <==> t >= period
  {
  }

  lemma WholeSecond(nsecs: nat, t: int, period: int, p: int)
    requires p > 0 && 0 <= t && period * p == NSECSPERSEC && nsecs <= t * p < nsecs + p && nsecs < NSECSPERSEC
    ensures nsecs > NSECSPERSEC - p ==> t * p == NSECSPERSEC
  {
    Scale(period + 1, t, p);
    Scale(t + 1, period, p);
    Distribute(period, 1, p);
    Distribute(t, 1, p);
  }
}
