/** ALT_USLEEP: whole scheduler ticks in chunks that fit 16 bits, then a busy wait for the
    rest, all in 32-bit arithmetic. */
module Usleep {
  import opened Common

  const ALT_US: nat := 1000000
  const MAX_DELAY: nat := 0xffff

  /** The tick count as the code computes it: each product, quotient and sum in 32 bits. */
  function Ticks(us: nat, rate: nat): nat {
    ((us / ALT_US) * rate % TWO_32 + ((us % ALT_US) * rate % TWO_32) / ALT_US) % TWO_32
  }

  function Sum(ds: seq<nat>): nat { if ds == [] then 0 else Sum(ds[..|ds| - 1]) + ds[|ds| - 1] }

  lemma {:induction false} SumSnoc(ds: seq<nat>, d: nat)
    ensures Sum(ds + [d]) == Sum(ds) + d
  {
    assert (ds + [d])[..|ds|] == ds;
  }

  /** The time slept is the time asked for, counted in (1/rate)-ths of a microsecond so that a
      tick is a whole number of them. */
  ghost predicate Exact(us: nat, rate: nat)
    requires 0 < rate <= ALT_US
  {
    assert ALT_US / rate > 0;
    Ticks(us, rate) * ALT_US + us % (ALT_US / rate) * rate == us * rate
  }

  /** The chunked delay loop: every call fits 16 bits, all but the last are full, and together
      they are the ticks asked for. */
  method DelayTicks(n: nat) returns (delays: seq<nat>)
    ensures Sum(delays) == n && delays != []
    ensures forall i :: 0 <= i < |delays| ==> delays[i] <= MAX_DELAY
    ensures forall i :: 0 <= i < |delays| - 1 ==> delays[i] == MAX_DELAY
  {
    var ticks: nat := n;
    delays := [];
    while ticks > MAX_DELAY
      invariant Sum(delays) + ticks == n
      invariant forall i :: 0 <= i < |delays| ==> delays[i] == MAX_DELAY
    {
      SumSnoc(delays, MAX_DELAY);
      delays := delays + [MAX_DELAY];
      ticks := ticks - MAX_DELAY;
    }
    SumSnoc(delays, ticks);
    delays := delays + [ticks];
  }

  /** ALT_USLEEP with the scheduler running or not: the calls of vTaskDelay it makes and the
      microseconds it then spins. For a tick rate that divides a million and is at most 4294
      the two add up to exactly the time asked for. */
  method AltUsleep(us: nat, rate: nat, running: bool) returns (delays: seq<nat>, busy: nat)
    requires us < TWO_32 && 0 < rate <= ALT_US
    ensures !running ==> delays == [] && busy == us
    ensures running ==> Sum(delays) == Ticks(us, rate) && busy < ALT_US
    ensures forall i :: 0 <= i < |delays| ==> delays[i] <= MAX_DELAY
    ensures running && ALT_US % rate == 0 && rate <= 4294 ==> Sum(delays) * ALT_US + busy * rate == us * rate
  {
    if !running {
      return [], us;
    }
    var ticks := ((us / ALT_US) * rate % TWO_32 + ((us % ALT_US) * rate % TWO_32) / ALT_US) % TWO_32;
    delays := DelayTicks(ticks);
    RatePositive(rate);
    busy := us % (ALT_US / rate);
    if ALT_US % rate == 0 && rate <= 4294 {
      ExactWhenDividing(us, rate);
    }
  }

  lemma RatePositive(rate: nat)
    requires 0 < rate <= ALT_US
    ensures ALT_US / rate > 0 && ALT_US / rate * rate <= ALT_US < ALT_US / rate * rate + rate
  {
    var q := ALT_US / rate;
    assert ALT_US == rate * q + ALT_US % rate;
  }

  lemma {:induction false} Bounds(a: nat, b: nat, rate: nat)
    requires a <= 4294 && b < ALT_US && rate <= 4294
    ensures a * rate <= 4294 * 4294 && b * rate <= 999999 * 4294
  {
    MulLe(rate, a, 4294);
    MulLe(rate, b, 999999);
  }

  lemma Small(x: nat, y: nat)
    requires x <= 4294 * 4294 && y <= 999999 * 4294
    ensures (x % TWO_32 + (y % TWO_32) / ALT_US) % TWO_32 == x + y / ALT_US
  {
  }

  /** Neither product overflows, nor does their sum. */
  lemma {:induction false} NoOverflow(us: nat, rate: nat)
    requires us < TWO_32 && 0 < rate <= 4294
    ensures (us / ALT_US) * rate < TWO_32 && (us % ALT_US) * rate < TWO_32
    ensures Ticks(us, rate) == (us / ALT_US) * rate + ((us % ALT_US) * rate) / ALT_US
  {
    Bounds(us / ALT_US, us % ALT_US, rate);
    Small((us / ALT_US) * rate, (us % ALT_US) * rate);
  }

  lemma {:induction false} ExactWhenDividing(us: nat, rate: nat)
    requires us < TWO_32 && 0 < rate <= 4294 && ALT_US % rate == 0
    ensures Exact(us, rate)
  {
    var a, b := us / ALT_US, us % ALT_US;
    RatePositive(rate);
    var q := ALT_US / rate;
    assert q * rate == ALT_US;
    var t, w := b / q, b % q;
    assert b == q * t + w;
    Whole(b, rate, q, t, w);
    Remainder(us, a, b, rate, q, t, w);
    NoOverflow(us, rate);
    Total(us, a, b, rate, q, t, w);
  }

  lemma Whole(b: nat, rate: nat, q: nat, t: nat, w: nat)
    requires q * rate == ALT_US && b == q * t + w && w < q && rate > 0
    ensures (b * rate) / ALT_US == t
  {
    assert b * rate == ALT_US * t + w * rate by {
      assert b * rate == q * t * rate + w * rate;
      assert q * t * rate == q * rate * t;
    }
    assert w * rate < ALT_US by { MulLe(rate, w + 1, q); }
    DivUnique(b * rate, ALT_US, t, w * rate);
  }

  lemma {:induction false} Remainder(us: nat, a: nat, b: nat, rate: nat, q: nat, t: nat, w: nat)
    requires us == ALT_US * a + b && q * rate == ALT_US && b == q * t + w && w < q
    ensures us % q == w
  {
    assert us == q * (rate * a + t) + w by {
      assert ALT_US * a == q * rate * a == q * (rate * a);
      assert q * (rate * a + t) == q * (rate * a) + q * t;
    }
    DivUnique(us, q, rate * a + t, w);
  }

  lemma Total(us: nat, a: nat, b: nat, rate: nat, q: nat, t: nat, w: nat)
    requires us == ALT_US * a + b && q * rate == ALT_US && b == q * t + w
    ensures (a * rate + t) * ALT_US + w * rate == us * rate
  {
    assert b * rate == q * t * rate + w * rate;
    assert q * t * rate == q * rate * t;
    assert us * rate == ALT_US * a * rate + b * rate;
    assert (a * rate + t) * ALT_US == a * rate * ALT_US + t * ALT_US;
  }

  /** The exact condition on the tick rate: every sleep is exact precisely when the rate divides
      a million and does not exceed 4294, the largest for which no product overflows. */
  lemma AlwaysExactIff(rate: nat)
    requires 0 < rate <= ALT_US
    ensures (forall us: nat :: us < TWO_32 ==> Exact(us, rate)) <==> (ALT_US % rate == 0 && rate <= 4294)
  {
    if ALT_US % rate == 0 && rate <= 4294 {
      forall us: nat | us < TWO_32 ensures Exact(us, rate) { ExactWhenDividing(us, rate); }
    } else if rate > 4294 {
      OverflowSleepsShort(rate);
    } else {
      FractionSleepsNotAtAll(rate);
    }
  }

  /** Just below a second the product overflows and ticks are lost. */
  lemma {:induction false} OverflowSleepsShort(rate: nat)
    requires 4294 < rate <= ALT_US
    ensures !Exact(999999, rate)
  {
    RatePositive(rate);
    var q, x := ALT_US / rate, 999999 * rate;
    assert x >= 999999 * 4295 > TWO_32;
    var y := x % TWO_32;
    assert y <= x - TWO_32;
    assert Ticks(999999, rate) == y / ALT_US;
    var busy := 999999 % q;
    MulLe(rate, busy, q - 1);
    assert rate * (q - 1) == rate * q - rate;
    assert busy * rate <= ALT_US - rate;
    assert Ticks(999999, rate) * ALT_US <= y;
  }

  /** One truncated tick period is not slept at all. */
  lemma FractionSleepsNotAtAll(rate: nat)
    requires 0 < rate <= 4294 && ALT_US % rate != 0
    ensures ALT_US / rate < TWO_32 && !Exact(ALT_US / rate, rate)
  {
    RatePositive(rate);
    var q := ALT_US / rate;
    assert ALT_US == rate * q + ALT_US % rate;
    assert 0 < q * rate < ALT_US;
    assert rate >= 2;
    MulLe(q, 2, rate);
    assert q < ALT_US;
    assert q / ALT_US == 0 && q % ALT_US == q;
    assert Ticks(q, rate) == 0;
    assert q % q == 0;
  }
}
