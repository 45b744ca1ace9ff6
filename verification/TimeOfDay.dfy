/**
 The wall clock: `settimeofday` stores the time at tick 0, `gettimeofday` adds the ticks since and brings the
 result into range. Seconds and ticks are unbounded here.
 */
module TimeOfDay {
  const US: nat := 1_000_000
  const ENOTSUP: int := 134
  const ENOSYS: int := 88

  datatype Time = Time(sec: int, usec: int)
  {
    /** The time in microseconds. */
    function Total(): int { sec * US + usec }

    predicate Normal() { 0 <= usec < US }
  }

  datatype Zone = Zone(minutesWest: int, dst: int)

  predicate Divides(rate: nat) { rate > 0 && US % rate == 0 }

  /** Microseconds per tick, as the clock computes them. */
  function Step(rate: nat): nat
    requires rate > 0
  {
    US / rate
  }

  /** What the clock takes for the time from tick 0 to tick `n`. */
  function Elapsed(n: nat, rate: nat): Time
    requires rate > 0
  {
    Time(n / rate, n * Step(rate) % US)
  }

  /** A time brought into range; one that is short of zero by its microseconds becomes zero. */
  function Normalised(t: Time): Time
  {
    if t.usec < 0 && t.Total() < 0 then Time(0, 0) else Time(t.Total() / US, t.Total() % US)
  }

  /** What the clock shows at tick `n` when `reset` is stored. */
  function Shown(reset: Time, n: nat, rate: nat): Time
    requires rate > 0
  {
    var e := Elapsed(n, rate);
    Normalised(Time(reset.sec + e.sec, reset.usec + e.usec))
  }

  /** What is stored when the clock is set to `t` at tick `n`. */
  function ResetFor(t: Time, n: nat, rate: nat): Time
    requires rate > 0
  {
    var e := Elapsed(n, rate);
    Time(t.sec - e.sec, t.usec - e.usec)
  }

  lemma NormalisedKeeps(t: Time)
    requires t.Total() >= 0
    ensures Normalised(t).Normal() && Normalised(t).Total() == t.Total()
  {
  }

  /** A time brought into range is in range and the same time, unless it is clamped. */
  lemma NormalisedIs(t: Time)
    ensures Normalised(t).Normal()
    ensures t.usec < 0 && t.Total() < 0 ==> Normalised(t).Total() == 0
    ensures t.usec >= 0 || t.Total() >= 0 ==> Normalised(t).Total() == t.Total()
  {
  }

  lemma Times(a: nat, b: nat, c: nat)
    ensures (a * b) * c == a * (b * c) && (a + b) * c == a * c + b * c
  {
  }

  lemma Less(a: nat, b: nat, c: nat)
    requires a < b && c > 0
    ensures a * c < b * c
  {
    Times(a, b - a, c);
    assert (b - a) * c > 0;
  }

  lemma NextMultiple(a: nat, b: nat, c: nat)
    requires a < b
    ensures a * c + c <= b * c
  {
    Times(a + 1, b - a - 1, c);
    Times(a, 1, c);
    assert (b - a - 1) * c >= 0;
  }

  lemma DividesExactly(rate: nat)
    requires rate > 0
    ensures Divides(rate) <==> rate * Step(rate) == US
    ensures rate * Step(rate) <= US
  {
    assert US == rate * (US / rate) + US % rate;
  }

  /** When the tick rate divides a million, the time elapsed is exact. */
  lemma ElapsedExact(n: nat, rate: nat)
    requires Divides(rate)
    ensures Elapsed(n, rate).Total() == n * Step(rate)
  {
    var step, q, r := Step(rate), n / rate, n % rate;
    DividesExactly(rate);
    assert n == q * rate + r;
    Times(q * rate, r, step);
    Times(q, rate, step);
    Less(r, rate, step);
    assert n * step == q * US + r * step && r * step < US;
    assert n * step % US == r * step;
  }

  /**
   When the tick rate divides a million, the clock set to `t` at tick `n` shows, at every tick from then on, `t`
   plus the ticks since at a million over the rate each, in normal form; and the clamp to zero never acts.
   */
  lemma ShowsTheTime(t: Time, n: nat, n': nat, rate: nat)
    requires Divides(rate) && t.Total() >= 0 && n <= n'
    ensures var shown := Shown(ResetFor(t, n, rate), n', rate);
            shown.Normal() && shown.Total() == t.Total() + (n' - n) * Step(rate)
  {
    ElapsedExact(n, rate);
    ElapsedExact(n', rate);
    Times(n, n' - n, Step(rate));
    var e, e', reset := Elapsed(n, rate), Elapsed(n', rate), ResetFor(t, n, rate);
    var sum := Time(reset.sec + e'.sec, reset.usec + e'.usec);
    assert sum.Total() == t.Total() - e.Total() + e'.Total();
    assert (n' - n) * Step(rate) >= 0;
    NormalisedKeeps(sum);
  }

  /** Reading back at once gives the time set, if that is in normal form. */
  lemma SetThenGet(t: Time, n: nat, rate: nat)
    requires Divides(rate) && t.Normal() && t.sec >= 0
    ensures Shown(ResetFor(t, n, rate), n, rate) == t
  {
    ShowsTheTime(t, n, n, rate);
  }

  /** The clock never falls behind the microseconds that have passed, nor runs ahead of them. */
  ghost predicate Exact(rate: nat)
    requires rate > 0
  {
    forall n: nat :: ShownTotal(n, rate) == n * US / rate
  }

  /** What a clock that was never set shows, in microseconds. */
  function ShownTotal(n: nat, rate: nat): int
    requires rate > 0
  {
    Shown(Time(0, 0), n, rate).Total()
  }

  lemma ShownIsElapsed(n: nat, rate: nat)
    requires rate > 0
    ensures ShownTotal(n, rate) == Elapsed(n, rate).Total()
  {
    NormalisedKeeps(Elapsed(n, rate));
  }

  /**
   The clock is exact at every tick if and only if the tick rate divides a million. Otherwise it is already wrong
   after one second or, at rates above a million, one tick before.
   */
  lemma ExactIffDivides(rate: nat)
    requires rate > 0
    ensures Exact(rate) <==> Divides(rate)
  {
    if Divides(rate) {
      forall n: nat ensures ShownTotal(n, rate) == n * US / rate {
        ShownIsElapsed(n, rate);
        ElapsedExact(n, rate);
        DividesExactly(rate);
        Times(n, Step(rate), rate);
        WholeQuotient(n * Step(rate), rate, n * US);
      }
    } else if rate > US {
      WrongBelowASecond(rate);
    } else {
      WrongAfterASecond(rate);
    }
  }

  lemma WholeQuotient(q: nat, rate: nat, m: nat)
    requires rate > 0 && m == q * rate
    ensures m / rate == q
  {
    var q' := m / rate;
    assert m == q' * rate + m % rate;
    if q' < q {
      NextMultiple(q', q, rate);
    } else if q < q' {
      Less(q, q', rate);
    }
  }

  lemma WrongAfterASecond(rate: nat)
    requires 0 < rate <= US && !Divides(rate)
    ensures ShownTotal(rate, rate) == US + rate * Step(rate) > US && rate * US / rate == US && !Exact(rate)
  {
    ShownIsElapsed(rate, rate);
    DividesExactly(rate);
    Less(0, rate, Step(rate));
    WholeQuotient(1, rate, rate);
    WholeQuotient(US, rate, rate * US);
    assert ShownTotal(rate, rate) != rate * US / rate;
  }

  lemma WrongBelowASecond(rate: nat)
    requires rate > US
    ensures ShownTotal(rate - 1, rate) == 0 && (rate - 1) * US / rate > 0 && !Exact(rate)
  {
    var m := (rate - 1) * US;
    ShownIsElapsed(rate - 1, rate);
    assert Step(rate) == 0 && (rate - 1) / rate == 0;
    Times(rate - 1, 0, US);
    assert m >= rate;
    assert m / rate >= 1;
    assert ShownTotal(rate - 1, rate) != m / rate;
  }

  /** A clock that was never set does not go back from one tick to the next. */
  ghost predicate Monotone(rate: nat)
    requires rate > 0
  {
    forall n: nat :: ShownTotal(n, rate) <= ShownTotal(n + 1, rate)
  }

  /** Quotient and remainder by a positive number are what they should be. */
  lemma QuotientIs(m: nat, d: nat, q: nat, r: nat)
    requires m == q * d + r && r < d
    ensures m / d == q && m % d == r
  {
    assert m == (m / d) * d + m % d;
    if m / d < q { NextMultiple(m / d, q, d); } else if q < m / d { NextMultiple(q, m / d, d); }
  }

  /**
   The clock never goes back if and only if the tick rate divides a million or is above it. At any other rate the
   microseconds wrap later than the seconds move on, and the clock falls when they do.
   */
  lemma MonotoneIff(rate: nat)
    requires rate > 0
    ensures Monotone(rate) <==> Divides(rate) || rate > US
  {
    if Divides(rate) {
      forall n: nat ensures ShownTotal(n, rate) <= ShownTotal(n + 1, rate) { ExactRises(n, rate); }
    } else if rate > US {
      forall n: nat ensures ShownTotal(n, rate) <= ShownTotal(n + 1, rate) { FastRises(n, rate); }
    } else {
      var n := FallsAt(rate) - 1;
      Falls(rate);
      assert !(ShownTotal(n, rate) <= ShownTotal(n + 1, rate));
    }
  }

  lemma ExactRises(n: nat, rate: nat)
    requires Divides(rate)
    ensures ShownTotal(n, rate) <= ShownTotal(n + 1, rate)
  {
    ShownIsElapsed(n, rate);
    ShownIsElapsed(n + 1, rate);
    ElapsedExact(n, rate);
    ElapsedExact(n + 1, rate);
    Times(n, 1, Step(rate));
  }

  /** Above a million ticks a second a tick is no microsecond, and only the seconds move. */
  lemma FastRises(n: nat, rate: nat)
    requires rate > US
    ensures ShownTotal(n, rate) <= ShownTotal(n + 1, rate)
  {
    ShownIsElapsed(n, rate);
    ShownIsElapsed(n + 1, rate);
    var q, q' := n / rate, (n + 1) / rate;
    assert Step(rate) == 0;
    assert Elapsed(n, rate).Total() == q * US && Elapsed(n + 1, rate).Total() == q' * US;
    assert n == q * rate + n % rate && n + 1 == q' * rate + (n + 1) % rate;
    if q' < q { NextMultiple(q', q, rate); }
  }

  /** The first tick past the first second at which the microseconds wrap. */
  function FallsAt(rate: nat): (n: nat)
    requires 0 < rate <= US
    ensures n >= rate
  {
    rate + (US % rate + Step(rate) - 1) / Step(rate)
  }

  /** At a rate that does not divide a million the clock loses all but one step of a second at that tick. */
  lemma Falls(rate: nat)
    requires 0 < rate <= US && !Divides(rate)
    ensures FallsAt(rate) > rate
    ensures ShownTotal(FallsAt(rate), rate) == ShownTotal(FallsAt(rate) - 1, rate) - US + Step(rate)
    ensures Step(rate) < US
  {
    var step, rem, n := Step(rate), US % rate, FallsAt(rate);
    var k := n - rate;
    assert US == rate * step + rem;
    RoundsUp(rem, step, k);
    AtMost(rem, step, k);
    QuotientIs(n, rate, 1, k);
    QuotientIs(n - 1, rate, 1, k - 1);
    Times(rate, k, step);
    Times(rate, k - 1, step);
    QuotientIs(n * step, US, 1, k * step - rem);
    QuotientIs((n - 1) * step, US, 0, rate * step + (k - 1) * step);
    ShownIsElapsed(n, rate);
    ShownIsElapsed(n - 1, rate);
  }

  lemma AtMost(rem: nat, step: nat, k: nat)
    requires step > 0 && k * step < rem + step
    ensures k <= rem
  {
    Times(rem, step - 1, 1);
    assert rem * step >= rem;
    if rem < k { NextMultiple(rem, k, step); }
  }

  lemma RoundsUp(rem: nat, step: nat, k: nat)
    requires rem > 0 && step > 0 && k == (rem + step - 1) / step
    ensures k > 0 && (k - 1) * step < rem <= k * step < rem + step
  {
    var m := rem + step - 1;
    assert m == k * step + m % step;
    assert m >= step && k > 0;
    Times(k - 1, 1, step);
  }

  /** What the clock shows at tick `n'`, in microseconds, when it was set to `t` at tick `n`. */
  function ShownAfterSet(t: Time, n: nat, n': nat, rate: nat): int
    requires rate > 0
  {
    Shown(ResetFor(t, n, rate), n', rate).Total()
  }

  /** Whatever time it is set to, and whenever, the clock does not go back from then on. */
  ghost predicate NeverBack(rate: nat)
    requires rate > 0
  {
    forall t: Time, n: nat, n': nat, m: nat :: t.Total() >= 0 && n <= n' && m == n' + 1 ==>
      ShownAfterSet(t, n, n', rate) <= ShownAfterSet(t, n, m, rate)
  }

  lemma {:induction false} ElapsedRises(n: nat, n': nat, rate: nat)
    requires rate > 0 && Monotone(rate) && n <= n'
    ensures Elapsed(n, rate).Total() <= Elapsed(n', rate).Total()
    decreases n'
  {
    if n < n' {
      ElapsedRises(n, n' - 1, rate);
      ShownIsElapsed(n' - 1, rate);
      ShownIsElapsed(n', rate);
      assert ShownTotal(n' - 1, rate) <= ShownTotal(n' - 1 + 1, rate);
    }
  }

  lemma AfterSet(t: Time, n: nat, n': nat, rate: nat)
    requires rate > 0 && Monotone(rate) && t.Total() >= 0 && n <= n'
    ensures ShownAfterSet(t, n, n', rate) == t.Total() + Elapsed(n', rate).Total() - Elapsed(n, rate).Total()
  {
    ElapsedRises(n, n', rate);
    var e', reset := Elapsed(n', rate), ResetFor(t, n, rate);
    NormalisedKeeps(Time(reset.sec + e'.sec, reset.usec + e'.usec));
  }

  lemma ForwardAfterSet(t: Time, n: nat, n': nat, rate: nat)
    requires rate > 0 && Monotone(rate) && t.Total() >= 0 && n <= n'
    ensures ShownAfterSet(t, n, n', rate) <= ShownAfterSet(t, n, n' + 1, rate)
  {
    AfterSet(t, n, n', rate);
    AfterSet(t, n, n' + 1, rate);
    ElapsedRises(n', n' + 1, rate);
  }

  lemma SetAtZero(n: nat, rate: nat)
    requires rate > 0
    ensures Time(0, 0).Total() >= 0 && ShownAfterSet(Time(0, 0), 0, n, rate) == ShownTotal(n, rate)
  {
    assert ResetFor(Time(0, 0), 0, rate) == Time(0, 0);
  }

  lemma BackAfterSet(n: nat, m: nat, rate: nat)
    requires rate > 0 && m == n + 1 && ShownTotal(n, rate) > ShownTotal(m, rate)
    ensures !NeverBack(rate)
  {
    SetAtZero(n, rate);
    SetAtZero(m, rate);
  }

  /** A clock that can be set never goes back at just the same rates. */
  lemma NeverBackIff(rate: nat)
    requires rate > 0
    ensures NeverBack(rate) <==> Divides(rate) || rate > US
  {
    MonotoneIff(rate);
    if Divides(rate) || rate > US {
      forall t: Time, n: nat, n': nat, m: nat | t.Total() >= 0 && n <= n' && m == n' + 1
        ensures ShownAfterSet(t, n, n', rate) <= ShownAfterSet(t, n, m, rate)
      {
        ForwardAfterSet(t, n, n', rate);
      }
    } else {
      Falls(rate);
      BackAfterSet(FallsAt(rate) - 1, FallsAt(rate), rate);
    }
  }

  /** At 60 ticks a second the clock runs backwards: almost two seconds at tick 60, little more than one at 61. */
  lemma SixtyRunsBackwards()
    ensures ShownTotal(60, 60) == 1_999_960 && ShownTotal(61, 60) == 1_016_626 && !Monotone(60)
  {
    assert ShownTotal(60, 60) > ShownTotal(60 + 1, 60);
  }

  class WallClock {
    var rate: nat
    var nticks: nat
    var reset: Time
    var zone: Zone
    var errno: int

    /** The clock's two results are left alone when there is no clock. `wantZone` is whether a place for it is given. */
    method GetTimeOfDay(was: Time, wasZone: Zone, wantZone: bool) returns (r: int, t: Time, z: Zone)
      ensures rate == 0 ==> r == -ENOTSUP && t == was && z == wasZone
      ensures rate > 0 ==> r == 0 && t == Shown(reset, nticks, rate) && z == if wantZone then zone else wasZone
    {
      t, z := was, wasZone;
      if rate != 0 {
        var sec := reset.sec + nticks / rate;
        var usec := reset.usec + nticks * (US / rate) % US;
        ghost var sum := Time(sec, usec);
        while usec < 0
          invariant Normalised(Time(sec, usec)) == Normalised(sum)
          decreases -usec
        {
          if sec <= 0 {
            sec, usec := 0, 0;
            break;
          } else {
            sec, usec := sec - 1, usec + US;
          }
        }
        while usec >= US
          invariant usec >= 0 && Normalised(Time(sec, usec)) == Normalised(sum)
        {
          sec, usec := sec + 1, usec - US;
        }
        t := Time(sec, usec);
        if wantZone { z := zone; }
        return 0, t, z;
      }
      return -ENOTSUP, t, z;
    }

    method SetTimeOfDay(t: Time, z: Zone) returns (r: int)
      modifies this
      ensures rate == old(rate) && nticks == old(nticks)
      ensures rate == 0 ==> r == -1 && errno == ENOSYS && reset == old(reset) && zone == old(zone)
      ensures rate > 0 ==> r == 0 && reset == ResetFor(t, nticks, rate) && zone == z && errno == old(errno)
    {
      if rate != 0 {
        reset := Time(t.sec - nticks / rate, t.usec - nticks * (US / rate) % US);
        zone := z;
        return 0;
      }
      errno := ENOSYS;
      return -1;
    }
  }
}
