/** What the money arithmetic means: exact half-even conversion, the fee as a ceiling with a
    floor, and precisely when int64 arithmetic spoils either. */
module MoneyProofs {
  import opened Core
  import opened Money

  // ---------- scaling by powers of ten ----------

  /** A whole number of times a real. */
  ghost function Times(m: int, v: real): real {
    m as real * v
  }

  lemma TimesAdds(a: int, b: int, v: real)
    ensures Times(a + b, v) == Times(a, v) + Times(b, v)
    ensures Times(0, v) == 0.0
  {
  }

  lemma TimesOrder(a: int, b: int, v: real, w: real)
    requires 0 <= a <= b && 0.0 <= v <= w
    ensures Times(a, v) <= Times(b, w)
    ensures 0 < b && 0.0 < w ==> Times(b, w) > 0.0
  {
    ProductSign((b - a) as real, v);
    ProductSign(b as real, w - v);
    ProductSign(b as real, w);
    assert (b - a) as real * v == b as real * v - a as real * v;
    assert b as real * (w - v) == b as real * w - b as real * v;
  }

  lemma ProductSign(x: real, y: real)
    requires 0.0 <= x && 0.0 <= y
    ensures 0.0 <= x * y
    ensures 0.0 < x && 0.0 < y ==> 0.0 < x * y
  {
  }

  lemma {:induction false} ScaledStep(v: real, e: int)
    ensures Scaled(v, e + 1) == 10.0 * Scaled(v, e)
  {
  }

  lemma {:induction false} ScaledTwice(v: real, a: int, b: int)
    ensures Scaled(v, a + b) == Scaled(Scaled(v, a), b)
    decreases if b < 0 then -b else b
  {
    if b > 0 {
      ScaledTwice(v, a, b - 1);
      ScaledStep(v, a + b - 1);
    } else if b < 0 {
      ScaledTwice(v, a, b + 1);
      ScaledStep(v, a + b);
    }
  }

  lemma {:induction false} ScaledAdds(v: real, w: real, e: int)
    ensures Scaled(v + w, e) == Scaled(v, e) + Scaled(w, e)
    decreases if e < 0 then -e else e
  {
    if e != 0 {
      ScaledAdds(v, w, if e > 0 then e - 1 else e + 1);
    }
  }

  lemma {:induction false} ScaledMultiple(m: int, c: int, e: int)
    ensures Scaled((m * c) as real, e) == Times(m, Scaled(c as real, e))
    decreases if e < 0 then -e else e
  {
    if e > 0 {
      ScaledMultiple(m, c, e - 1);
      TenfoldTimes(m, Scaled(c as real, e - 1));
    } else if e < 0 {
      ScaledMultiple(m, c, e + 1);
      TenfoldTimes(m, Scaled(c as real, e));
    }
  }

  lemma TenfoldTimes(m: int, v: real)
    ensures Times(m, 10.0 * v) == 10.0 * Times(m, v)
  {
  }

  lemma {:induction false} ScaledOrder(v: real, w: real, e: int)
    ensures v <= w <==> Scaled(v, e) <= Scaled(w, e)
    decreases if e < 0 then -e else e
  {
    if e != 0 {
      ScaledOrder(v, w, if e > 0 then e - 1 else e + 1);
    }
  }

  lemma {:induction false} ScaledZero(e: int)
    ensures Scaled(0.0, e) == 0.0
    decreases if e < 0 then -e else e
  {
    if e != 0 {
      ScaledZero(if e > 0 then e - 1 else e + 1);
    }
  }

  lemma {:induction false} ScaledUp(c: int, n: nat)
    ensures Scaled(c as real, n) == (c * Pow10(n)) as real
  {
    if n > 0 {
      ScaledUp(c, n - 1);
      assert c * Pow10(n) == 10 * (c * Pow10(n - 1));
    }
  }

  lemma {:induction false} ScaledDown(v: real, n: nat)
    ensures Scaled(v, 0 - n) * Pow10(n) as real == v
  {
    if n > 0 {
      ScaledDown(v, n - 1);
      ScaledStep(v, 0 - n);
      TenfoldBoth(Scaled(v, 0 - n), Pow10(n - 1) as real);
    }
  }

  lemma TenfoldBoth(x: real, p: real)
    ensures (10.0 * x) * p == x * (10.0 * p)
  {
  }

  // ---------- rounding ----------

  /** m is the nearest integer to v, and the even one when v lies half way. */
  ghost predicate NearestEven(m: int, v: real) {
    && -0.5 <= v - m as real <= 0.5
    && (v - m as real == 0.5 || v - m as real == -0.5 ==> m % 2 == 0)
  }

  lemma NearestEvenMonotone(m: int, n: int, v: real, w: real)
    requires NearestEven(m, v) && NearestEven(n, w) && v <= w
    ensures m <= n
  {
  }

  lemma NearestEvenUnique(m: int, n: int, v: real)
    requires NearestEven(m, v) && NearestEven(n, v)
    ensures m == n
  {
    NearestEvenMonotone(m, n, v, v);
    NearestEvenMonotone(n, m, v, v);
  }

  lemma HalfEvenBounds(n: int, d: int)
    requires d > 0
    ensures -d <= 2 * (n - HalfEven(n, d) * d) <= d
    ensures 2 * (n - HalfEven(n, d) * d) == d || 2 * (n - HalfEven(n, d) * d) == -d ==> HalfEven(n, d) % 2 == 0
  {
    var q, r := n / d, n % d;
    assert n == q * d + r;
    assert (q + 1) * d == q * d + d;
  }

  lemma RoundBankNearest(a: Decimal)
    ensures NearestEven(a.RoundBank(), a.Value())
  {
    if a.exp >= 0 {
      ScaledUp(a.coef, a.exp);
    } else {
      HalfEvenBounds(a.coef, Pow10(-a.exp));
      ScaledDown(a.coef as real, -a.exp);
      QuotientNearest(a.coef, Pow10(-a.exp), HalfEven(a.coef, Pow10(-a.exp)), a.Value());
    }
  }

  lemma QuotientNearest(n: int, d: int, m: int, v: real)
    requires d > 0 && v * d as real == n as real
    requires -d <= 2 * (n - m * d) <= d
    requires 2 * (n - m * d) == d || 2 * (n - m * d) == -d ==> m % 2 == 0
    ensures NearestEven(m, v)
  {
    var w, dr := v - m as real, d as real;
    var k := n - m * d;
    assert k as real == w * dr by {
      assert (m * d) as real == m as real * dr;
      assert w * dr == v * dr - m as real * dr;
    }
    assert (2 * k) as real == 2.0 * k as real;
    RatioBounds(w, dr, k as real);
  }

  lemma RatioBounds(w: real, d: real, k: real)
    requires d > 0.0 && k == w * d
    requires -d <= 2.0 * k <= d
    ensures -0.5 <= w <= 0.5
    ensures w == 0.5 ==> 2.0 * k == d
    ensures w == -0.5 ==> 2.0 * k == -d
  {
    assert (w - 0.5) * d == k - 0.5 * d;
    assert (w + 0.5) * d == k + 0.5 * d;
  }

  // ---------- int64 sums ----------

  lemma WrapSum(a: Int64, b: Int64)
    requires a > 0
    ensures Wrap64(a + b) == a + b - if FitsInt64(a + b) then 0 else TWO64
  {
    assert FitsInt64(a) && FitsInt64(b);
  }

  // ---------- conversion ----------

  /** The exact converted amount in minor units of `target`, for a rate of this value. */
  ghost function ExactAmount(minor: int, currency: Currency, target: Currency, rate: real): real {
    Scaled(Times(minor, rate), Scale(target) - Scale(currency))
  }

  /** The scales in so many words: won and yen have no minor units, dollars and euros have cents. */
  lemma ExactAmountByPair(minor: int, c: Currency, target: Currency, rate: real)
    requires c in {KRW, USD, JPY, EUR} && target in {KRW, USD, JPY, EUR}
    ensures ExactAmount(minor, c, target, rate)
         == if c in {KRW, JPY} && target in {USD, EUR} then 100.0 * (minor as real * rate)
            else if c in {USD, EUR} && target in {KRW, JPY} then minor as real * rate / 100.0
            else minor as real * rate
  {
    var v := Times(minor, rate);
    ScaledStep(v, 0);
    ScaledStep(v, 1);
    ScaledStep(v, -1);
    ScaledStep(v, -2);
  }

  /** Exactly when a conversion is refused. */
  lemma ConvertRefused(base: Money, target: Currency, rate: Decimal)
    ensures Convert(base, target, rate).Ok? <==> base.minor > 0 && rate.Value() > 0.0 && target in {KRW, USD, JPY, EUR}
    ensures Convert(base, target, rate).Err? ==> Convert(base, target, rate).code == Validation
    ensures Convert(base, target, rate).Ok? ==> Convert(base, target, rate).value.currency == target
  {
    SignOfValue(rate);
  }

  lemma ConvertedUnitsNearest(base: Money, target: Currency, rate: Decimal)
    ensures NearestEven(ConvertedUnits(base, target, rate),
                        ExactAmount(base.minor, base.currency, target, rate.Value()))
  {
    var s := Scale(target) - Scale(base.currency);
    var product := Decimal(base.minor * rate.coef, rate.exp + s);
    assert base.DecimalAmount().Mul(rate).Shift(Scale(target)) == product;
    RoundBankNearest(product);
    ScaledTwice((base.minor * rate.coef) as real, rate.exp, s);
    ScaledMultiple(base.minor, rate.coef, rate.exp);
  }

  lemma SignOfValue(a: Decimal)
    ensures a.coef > 0 <==> a.Value() > 0.0
  {
    ScaledOrder(a.coef as real, 0.0, a.exp);
    ScaledZero(a.exp);
  }

  lemma ExactAmountMonotone(a: int, b: int, currency: Currency, target: Currency, v: real, w: real)
    requires 0 <= a <= b && 0.0 <= v <= w
    ensures ExactAmount(a, currency, target, v) <= ExactAmount(b, currency, target, w)
    ensures 0 < b && 0.0 < w ==> ExactAmount(b, currency, target, w) > 0.0
  {
    var s := Scale(target) - Scale(currency);
    TimesOrder(a, b, v, w);
    ScaledOrder(Times(a, v), Times(b, w), s);
    ScaledOrder(Times(b, w), 0.0, s);
    ScaledZero(s);
  }

  /** Convert yields the half-even rounding of the exact amount precisely when that amount
      rounds below 2^63; beyond it the int64 narrowing wraps. */
  lemma ConvertExactIff(base: Money, target: Currency, rate: Decimal)
    requires base.minor > 0 && rate.coef > 0 && Supported(target)
    ensures Convert(base, target, rate).Ok?
    ensures Convert(base, target, rate).value.currency == target
    ensures var v := ExactAmount(base.minor, base.currency, target, rate.Value());
            NearestEven(Convert(base, target, rate).value.minor, v) <==> v < TWO63 as real - 0.5
  {
    var v, u := ExactAmount(base.minor, base.currency, target, rate.Value()), ConvertedUnits(base, target, rate);
    ConvertedUnitsNearest(base, target, rate);
    SignOfValue(rate);
    ExactAmountMonotone(base.minor, base.minor, base.currency, target, rate.Value(), rate.Value());
    NearestBelowLimit(u, v);
    if NearestEven(Wrap64(u), v) {
      NearestEvenUnique(u, Wrap64(u), v);
    }
  }

  lemma NearestBelowLimit(u: int, v: real)
    requires NearestEven(u, v) && v > 0.0
    ensures u >= 0
    ensures u < TWO63 <==> v < TWO63 as real - 0.5
  {
    assert u as real > -1.0;
    if u < TWO63 {
      assert u as real <= TWO63 as real - 1.0;
      assert (TWO63 - 1) % 2 == 1;
    }
  }

  /** Only the numeric value of the rate matters, so padding it with zeros changes nothing. */
  lemma ConvertByValue(base: Money, target: Currency, r1: Decimal, r2: Decimal)
    requires r1.Value() == r2.Value()
    ensures Convert(base, target, r1) == Convert(base, target, r2)
  {
    ConvertedUnitsNearest(base, target, r1);
    ConvertedUnitsNearest(base, target, r2);
    NearestEvenUnique(ConvertedUnits(base, target, r1), ConvertedUnits(base, target, r2),
                      ExactAmount(base.minor, base.currency, target, r1.Value()));
    SignOfValue(r1);
    SignOfValue(r2);
  }

  /** The exact amount rounds to an int64: as ConvertExactIff says, exactly then Convert does not wrap. */
  ghost predicate ConvertFits(base: Money, target: Currency, rate: Decimal) {
    ExactAmount(base.minor, base.currency, target, rate.Value()) < TWO63 as real - 0.5
  }

  lemma ConvertInRange(base: Money, target: Currency, rate: Decimal)
    requires base.minor > 0 && rate.coef > 0 && Supported(target) && ConvertFits(base, target, rate)
    ensures FitsInt64(ConvertedUnits(base, target, rate))
    ensures Convert(base, target, rate) == Ok(Money(target, ConvertedUnits(base, target, rate)))
  {
    var v := ExactAmount(base.minor, base.currency, target, rate.Value());
    ConvertedUnitsNearest(base, target, rate);
    SignOfValue(rate);
    ExactAmountMonotone(base.minor, base.minor, base.currency, target, rate.Value(), rate.Value());
    NearestBelowLimit(ConvertedUnits(base, target, rate), v);
  }

  /** Provided the larger of two amounts fits, a larger amount, or a higher rate, never converts to less. */
  lemma ConvertMonotone(b1: Money, b2: Money, target: Currency, r1: Decimal, r2: Decimal)
    requires b1.currency == b2.currency && 0 < b1.minor <= b2.minor && Supported(target)
    requires 0 < r1.coef && r1.Value() <= r2.Value() && ConvertFits(b2, target, r2)
    ensures Convert(b1, target, r1).Ok? && Convert(b2, target, r2).Ok?
    ensures Convert(b1, target, r1).value.minor <= Convert(b2, target, r2).value.minor
  {
    SignOfValue(r1);
    SignOfValue(r2);
    ExactAmountMonotone(b1.minor, b2.minor, b1.currency, target, r1.Value(), r2.Value());
    ConvertInRange(b1, target, r1);
    ConvertInRange(b2, target, r2);
    UnitsMonotone(b1, b2, target, r1, r2);
  }

  lemma UnitsMonotone(b1: Money, b2: Money, target: Currency, r1: Decimal, r2: Decimal)
    requires b1.currency == b2.currency && 0 < b1.minor <= b2.minor
    requires 0 < r1.coef && r1.Value() <= r2.Value()
    ensures ConvertedUnits(b1, target, r1) <= ConvertedUnits(b2, target, r2)
  {
    ConvertedUnitsNearest(b1, target, r1);
    ConvertedUnitsNearest(b2, target, r2);
    SignOfValue(r1);
    ExactAmountMonotone(b1.minor, b2.minor, b1.currency, target, r1.Value(), r2.Value());
    NearestEvenMonotone(ConvertedUnits(b1, target, r1), ConvertedUnits(b2, target, r2),
                        ExactAmount(b1.minor, b1.currency, target, r1.Value()),
                        ExactAmount(b2.minor, b2.currency, target, r2.Value()));
  }

  ghost function Sum(xs: seq<Int64>): int {
    if xs == [] then 0 else xs[0] + Sum(xs[1..])
  }

  ghost function SumUnits(parts: seq<Int64>, currency: Currency, target: Currency, rate: Decimal): int {
    if parts == [] then 0
    else ConvertedUnits(Money(currency, parts[0]), target, rate) + SumUnits(parts[1..], currency, target, rate)
  }

  lemma ExactAmountAdds(a: int, b: int, currency: Currency, target: Currency, rate: real)
    ensures ExactAmount(a + b, currency, target, rate)
         == ExactAmount(a, currency, target, rate) + ExactAmount(b, currency, target, rate)
  {
    TimesAdds(a, b, rate);
    ScaledAdds(Times(a, rate), Times(b, rate), Scale(target) - Scale(currency));
  }

  lemma {:induction false} SumUnitsNear(parts: seq<Int64>, currency: Currency, target: Currency, rate: Decimal)
    ensures var gap := ExactAmount(Sum(parts), currency, target, rate.Value())
                       - SumUnits(parts, currency, target, rate) as real;
            -0.5 * |parts| as real <= gap <= 0.5 * |parts| as real
  {
    if parts == [] {
      ScaledZero(Scale(target) - Scale(currency));
      TimesAdds(0, 0, rate.Value());
    } else {
      SumUnitsNear(parts[1..], currency, target, rate);
      ConvertedUnitsNearest(Money(currency, parts[0]), target, rate);
      ExactAmountAdds(parts[0], Sum(parts[1..]), currency, target, rate.Value());
      assert |parts| as real == 1.0 + |parts[1..]| as real;
    }
  }

  lemma SplitUnits(whole: Money, parts: seq<Int64>, target: Currency, rate: Decimal)
    requires Sum(parts) == whole.minor
    ensures var drift := SumUnits(parts, whole.currency, target, rate) - ConvertedUnits(whole, target, rate);
            -(|parts| + 1) <= 2 * drift <= |parts| + 1
  {
    SumUnitsNear(parts, whole.currency, target, rate);
    ConvertedUnitsNearest(whole, target, rate);
    HalfUnits(SumUnits(parts, whole.currency, target, rate), ConvertedUnits(whole, target, rate), |parts|,
              ExactAmount(whole.minor, whole.currency, target, rate.Value()));
  }

  /** The minor units Convert answers, or nothing. */
  function Received(base: Money, target: Currency, rate: Decimal): int {
    var r := Convert(base, target, rate);
    if r.Ok? then r.value.minor else 0
  }

  ghost function SumReceived(parts: seq<Int64>, currency: Currency, target: Currency, rate: Decimal): int {
    if parts == [] then 0
    else Received(Money(currency, parts[0]), target, rate) + SumReceived(parts[1..], currency, target, rate)
  }

  ghost predicate Positive(parts: seq<Int64>) {
    forall i :: 0 <= i < |parts| ==> parts[i] > 0
  }

  /** Of an amount that fits, every part fits, so each part's conversion is its exact units. */
  lemma {:induction false} PartsInRange(whole: Money, parts: seq<Int64>, target: Currency, rate: Decimal)
    requires Positive(parts) && Sum(parts) <= whole.minor && rate.coef > 0 && Supported(target)
    requires ConvertFits(whole, target, rate)
    ensures Sum(parts) >= 0
    ensures SumReceived(parts, whole.currency, target, rate) == SumUnits(parts, whole.currency, target, rate)
  {
    if parts != [] {
      SumPositive(parts[1..]);
      PartsInRange(whole, parts[1..], target, rate);
      SignOfValue(rate);
      ExactAmountMonotone(parts[0], whole.minor, whole.currency, target, rate.Value(), rate.Value());
      ConvertInRange(Money(whole.currency, parts[0]), target, rate);
    }
  }

  lemma {:induction false} SumPositive(parts: seq<Int64>)
    requires Positive(parts)
    ensures Sum(parts) >= 0
  {
    if parts != [] {
      SumPositive(parts[1..]);
    }
  }

  /** Splitting an amount that fits into n positive parts moves the converted total by at most (n+1)/2 units. */
  lemma SplitConversion(whole: Money, parts: seq<Int64>, target: Currency, rate: Decimal)
    requires Positive(parts) && Sum(parts) == whole.minor > 0 && rate.coef > 0 && Supported(target)
    requires ConvertFits(whole, target, rate)
    ensures Convert(whole, target, rate).Ok?
    ensures forall i :: 0 <= i < |parts| ==> Convert(Money(whole.currency, parts[i]), target, rate).Ok?
    ensures var drift := SumReceived(parts, whole.currency, target, rate) - Convert(whole, target, rate).value.minor;
            -(|parts| + 1) <= 2 * drift <= |parts| + 1
  {
    PartsInRange(whole, parts, target, rate);
    ConvertInRange(whole, target, rate);
    SplitUnits(whole, parts, target, rate);
  }

  lemma HalfUnits(s: int, u: int, n: nat, v: real)
    requires -0.5 * n as real <= v - s as real <= 0.5 * n as real
    requires -0.5 <= v - u as real <= 0.5
    ensures -(n + 1) <= 2 * (s - u) <= n + 1
  {
    assert (2 * (s - u)) as real == 2.0 * s as real - 2.0 * u as real;
    assert (n + 1) as real == n as real + 1.0;
  }

  /** The first amount that does not fit. */
  lemma {:induction false} FirstMisfit(limit: Money, target: Currency, rate: Decimal) returns (b: Int64)
    requires limit.minor > 0 && ConvertFits(Money(limit.currency, 1), target, rate)
    requires !ConvertFits(limit, target, rate)
    ensures 1 < b <= limit.minor
    ensures ConvertFits(Money(limit.currency, Previous(b)), target, rate)
             && !ConvertFits(Money(limit.currency, b), target, rate)
    decreases limit.minor
  {
    var before := Money(limit.currency, Previous(limit.minor));
    if ConvertFits(before, target, rate) {
      b := limit.minor;
    } else {
      b := FirstMisfit(before, target, rate);
    }
  }

  function Previous(x: Int64): (y: Int64)
    requires x > 0
    ensures y == x - 1
  {
    assert FitsInt64(x);
    x - 1
  }

  /** The first amount that does not fit converts to a negative one. */
  lemma ConvertDrops(c: Currency, b: Int64, target: Currency, rate: Decimal)
    requires 1 < b && rate.coef > 0 && Supported(target) && ConvertFits(Money(c, 1), target, rate)
    requires ConvertFits(Money(c, Previous(b)), target, rate) && !ConvertFits(Money(c, b), target, rate)
    ensures Received(Money(c, b), target, rate) < 0 <= Received(Money(c, Previous(b)), target, rate)
  {
    var a, r := Previous(b), rate.Value();
    SignOfValue(rate);
    ExactAmountAdds(a, 1, c, target, r);
    ExactAmountMonotone(a, a, c, target, r, r);
    ConvertInRange(Money(c, a), target, rate);
    ConvertedUnitsNearest(Money(c, a), target, rate);
    ConvertedUnitsNearest(Money(c, b), target, rate);
    NearestBelowLimit(ConvertedUnits(Money(c, a), target, rate), ExactAmount(a, c, target, r));
    MisfitRange(ConvertedUnits(Money(c, b), target, rate), ExactAmount(b, c, target, r));
  }

  lemma MisfitRange(u: int, v: real)
    requires NearestEven(u, v) && TWO63 as real - 0.5 <= v < TWO64 as real - 1.0
    ensures TWO63 <= u < TWO64 && Wrap64(u) < 0
  {
    assert u as real < TWO64 as real;
    assert u <= TWO63 - 1 ==> u as real <= TWO63 as real - 1.0;
  }

  /** Conversions never fall as the amount grows. */
  ghost predicate ConversionsMonotone(limit: Money, target: Currency, rate: Decimal) {
    forall a: Int64, b: Int64 :: 0 < a <= b <= limit.minor ==>
      Received(Money(limit.currency, a), target, rate) <= Received(Money(limit.currency, b), target, rate)
  }

  lemma FittingIsMonotone(limit: Money, target: Currency, rate: Decimal)
    requires limit.minor > 0 && rate.coef > 0 && Supported(target) && ConvertFits(limit, target, rate)
    ensures ConversionsMonotone(limit, target, rate)
  {
    SignOfValue(rate);
    forall a: Int64, b: Int64 | 0 < a <= b <= limit.minor
      ensures Received(Money(limit.currency, a), target, rate) <= Received(Money(limit.currency, b), target, rate)
    {
      ExactAmountMonotone(b, limit.minor, limit.currency, target, rate.Value(), rate.Value());
      ConvertMonotone(Money(limit.currency, a), Money(limit.currency, b), target, rate, rate);
    }
  }

  /** At a rate at which one minor unit fits, as at any stored rate, conversion is monotone up to an amount
      exactly when that amount fits. */
  lemma ConvertMonotoneIff(limit: Money, target: Currency, rate: Decimal)
    requires limit.minor > 0 && rate.coef > 0 && Supported(target)
    requires ConvertFits(Money(limit.currency, 1), target, rate)
    ensures ConversionsMonotone(limit, target, rate) <==> ConvertFits(limit, target, rate)
  {
    if ConvertFits(limit, target, rate) {
      FittingIsMonotone(limit, target, rate);
    } else {
      var b := FirstMisfit(limit, target, rate);
      ConvertDrops(limit.currency, b, target, rate);
    }
  }

  // ---------- fee ----------

  function Max(a: int, b: int): int {
    if a < b then b else a
  }

  /** The least integer not below n/d. */
  function CeilDiv(n: int, d: int): (k: int)
    requires d > 0
    ensures (k - 1) * d < n <= k * d
  {
    if n % d == 0 then n / d else n / d + 1
  }

  lemma CeilDivLeast(n: int, d: int, k: int)
    requires d > 0 && n <= k * d
    ensures CeilDiv(n, d) <= k
  {
    var c := CeilDiv(n, d);
    assert (c - 1) * d < k * d;
    SmallerFactor(c - 1, k, d);
  }

  lemma SmallerFactor(a: int, b: int, d: int)
    requires d > 0 && a * d < b * d
    ensures a < b
  {
    assert (b - a) * d > 0;
  }

  /** The fee the service advertises: basis points rounded up, but no less than the minimum. */
  function TrueFee(base: int, bps: int, minimum: int): int {
    Max(minimum, CeilDiv(base * bps, 10000))
  }

  /** Basis points of an int64 product, as the code rounds them. */
  function RoundedUp(product: int): int {
    if GoMod(product, 10000) != 0 then GoDiv(product, 10000) + 1 else GoDiv(product, 10000)
  }

  lemma RoundedUpExact(product: int)
    ensures product >= 0 ==> RoundedUp(product) == CeilDiv(product, 10000)
    ensures product < 0 ==> RoundedUp(product) <= 1
  {
  }

  /** Go's remainder has the sign of the dividend, so a negative product rounds toward zero and then up. */
  lemma TruncatedProduct(product: int)
    ensures product <= 0 ==> -10000 < product - 10000 * GoDiv(product, 10000) <= 0
    ensures product >= 0 ==> 0 <= product - 10000 * GoDiv(product, 10000) < 10000
    ensures RoundedUp(product) == GoDiv(product, 10000) + if product % 10000 == 0 then 0 else 1
  {
  }

  lemma FeeValue(base: Money, bps: Int64, minimum: Money)
    requires base.currency == minimum.currency && Supported(base.currency) && bps >= 0
    ensures FeeFromBPS(base, bps, minimum).Ok?
    ensures FeeFromBPS(base, bps, minimum).value.minor == Max(minimum.minor, RoundedUp(Wrap64(base.minor * bps)))
  {
  }

  /** Exactly when a fee is refused. */
  lemma FeeRefused(base: Money, bps: Int64, minimum: Money)
    ensures FeeFromBPS(base, bps, minimum).Ok? <==>
            base.currency == minimum.currency && bps >= 0 && base.currency in {KRW, USD, JPY, EUR}
    ensures FeeFromBPS(base, bps, minimum).Err? ==> FeeFromBPS(base, bps, minimum).code == Validation
    ensures FeeFromBPS(base, bps, minimum).Ok? ==> FeeFromBPS(base, bps, minimum).value.currency == base.currency
  {
  }

  /** Amounts of one currency add up, modulo 2^64; those of two do not add. */
  lemma AddRefused(a: Money, b: Money)
    ensures a.Add(b).Ok? <==> a.currency == b.currency
    ensures a.Add(b).Err? ==> a.Add(b).code == Validation
    ensures a.Add(b).Ok? ==> a.Add(b).value.currency == a.currency
    ensures a.Add(b).Ok? ==> (a.Add(b).value.minor == a.minor + b.minor <==> FitsInt64(a.minor + b.minor))
  {
    assert a.Add(b).Ok? ==> FitsInt64(a.Add(b).value.minor);
  }

  lemma OverflowUndercharges(product: int)
    requires product >= 0 && !FitsInt64(product)
    ensures RoundedUp(Wrap64(product)) < CeilDiv(product, 10000)
  {
    var w := Wrap64(product);
    RoundedUpExact(w);
    assert product - w >= TWO64 by {
      WrapBelow(product);
    }
    assert CeilDiv(product, 10000) * 10000 >= product;
    assert w >= 0 ==> (RoundedUp(w) - 1) * 10000 < w;
  }

  lemma WrapBelow(x: int)
    requires x >= TWO63
    ensures Wrap64(x) <= x - TWO64
  {
  }

  /** FeeFromBPS charges the advertised fee exactly when base*bps fits int64, or when the
      minimum dominates anyway. */
  lemma FeeExactIff(base: Money, bps: Int64, minimum: Money)
    requires base.currency == minimum.currency && Supported(base.currency)
    requires base.minor > 0 && bps >= 0
    ensures FeeFromBPS(base, bps, minimum).Ok?
    ensures FeeFromBPS(base, bps, minimum).value.minor == TrueFee(base.minor, bps, minimum.minor)
       <==> FitsInt64(base.minor * bps) || minimum.minor >= CeilDiv(base.minor * bps, 10000)
  {
    var p := base.minor * bps;
    assert p >= 0;
    FeeValue(base, bps, minimum);
    if FitsInt64(p) {
      RoundedUpExact(p);
    } else {
      OverflowUndercharges(p);
    }
  }

  /** When FeeExactIff finds the fee exact. */
  predicate FeeFits(base: int, bps: int, minimum: int) {
    FitsInt64(base * bps) || minimum >= CeilDiv(base * bps, 10000)
  }

  /** An overflow never overcharges. */
  lemma FeeAtMostTrue(base: Money, bps: Int64, minimum: Money)
    requires base.currency == minimum.currency && Supported(base.currency)
    requires base.minor > 0 && bps >= 0
    ensures FeeFromBPS(base, bps, minimum).Ok?
    ensures FeeFromBPS(base, bps, minimum).value.minor <= TrueFee(base.minor, bps, minimum.minor)
  {
    var p := base.minor * bps;
    assert p >= 0;
    FeeValue(base, bps, minimum);
    if FitsInt64(p) {
      RoundedUpExact(p);
    } else {
      OverflowUndercharges(p);
    }
  }

  lemma TrueFeeMonotone(b1: int, b2: int, bps: int, minimum: int)
    requires b1 <= b2 && bps >= 0
    ensures TrueFee(b1, bps, minimum) <= TrueFee(b2, bps, minimum)
  {
    assert b1 * bps <= b2 * bps;
    CeilDivLeast(b1 * bps, 10000, CeilDiv(b2 * bps, 10000));
  }

  /** A larger base whose fee is exact is never charged less. */
  lemma FeeMonotone(b1: Money, b2: Money, bps: Int64, minimum: Money)
    requires b1.currency == b2.currency == minimum.currency && Supported(b1.currency)
    requires 0 < b1.minor <= b2.minor && bps >= 0 && FeeFits(b2.minor, bps, minimum.minor)
    ensures FeeFromBPS(b1, bps, minimum).Ok? && FeeFromBPS(b2, bps, minimum).Ok?
    ensures FeeFromBPS(b1, bps, minimum).value.minor <= FeeFromBPS(b2, bps, minimum).value.minor
  {
    FeeAtMostTrue(b1, bps, minimum);
    TrueFeeMonotone(b1.minor, b2.minor, bps, minimum.minor);
    FeeExactIff(b2, bps, minimum);
  }

  /** The first base whose product with the rate leaves int64. */
  lemma {:induction false} FirstOverflow(limit: Int64, bps: Int64) returns (b: Int64)
    requires limit > 0 && bps >= 0 && !FitsInt64(limit * bps)
    ensures 1 < b <= limit && FitsInt64(Previous(b) * bps) && !FitsInt64(b * bps)
    decreases limit
  {
    if FitsInt64(Previous(limit) * bps) {
      b := limit;
    } else {
      b := FirstOverflow(Previous(limit), bps);
    }
  }

  /** Half of what int64 can still charge: 2^62 basis points, rounded up. */
  const LARGE_FEE := 461_168_601_842_739

  /** At the first overflow the product wraps negative. */
  lemma ProductDrops(before: int, product: int)
    requires FitsInt64(before) && !FitsInt64(product) && 0 < product <= 2 * before
    ensures RoundedUp(Wrap64(before)) >= LARGE_FEE && RoundedUp(Wrap64(product)) <= 1
  {
    assert TWO63 <= product < TWO64;
    WrapBelow(product);
    RoundedUpExact(Wrap64(product));
    RoundedUpExact(before);
    assert before <= CeilDiv(before, 10000) * 10000;
  }

  /** So the fee falls to the minimum, or to one unit. */
  lemma FeeDrops(b: Int64, bps: Int64, minimum: Money)
    requires Supported(minimum.currency) && bps >= 0 && minimum.minor < LARGE_FEE
    requires 1 < b && FitsInt64(Previous(b) * bps) && !FitsInt64(b * bps)
    ensures Charged(Money(minimum.currency, b), bps, minimum)
          < Charged(Money(minimum.currency, Previous(b)), bps, minimum)
  {
    FeeValue(Money(minimum.currency, b), bps, minimum);
    FeeValue(Money(minimum.currency, Previous(b)), bps, minimum);
    NextProduct(b, bps);
    ProductDrops(Previous(b) * bps, b * bps);
  }

  lemma NextProduct(b: int, bps: int)
    requires b > 1 && bps >= 0 && !FitsInt64(b * bps)
    ensures 0 < b * bps <= 2 * ((b - 1) * bps)
  {
    assert b * bps == (b - 1) * bps + bps;
    assert (b - 1) * bps == (b - 2) * bps + bps;
    assert (b - 2) * bps >= 0;
  }

  /** Fees never fall as the base grows. */
  ghost predicate FeesMonotone(limit: Int64, bps: Int64, minimum: Money) {
    forall a: Int64, b: Int64 :: 0 < a <= b <= limit ==>
      Charged(Money(minimum.currency, a), bps, minimum) <= Charged(Money(minimum.currency, b), bps, minimum)
  }

  lemma FittingFees(limit: Int64, bps: Int64, minimum: Money)
    requires Supported(minimum.currency) && limit > 0 && bps >= 0 && FitsInt64(limit * bps)
    ensures FeesMonotone(limit, bps, minimum)
  {
    forall a: Int64, b: Int64 | 0 < a <= b <= limit
      ensures Charged(Money(minimum.currency, a), bps, minimum) <= Charged(Money(minimum.currency, b), bps, minimum)
    {
      SmallerProduct(b, limit, bps);
      FeeMonotone(Money(minimum.currency, a), Money(minimum.currency, b), bps, minimum);
    }
  }

  lemma SmallerProduct(a: int, b: int, bps: int)
    requires 0 < a <= b && bps >= 0
    ensures 0 <= a * bps <= b * bps
  {
    assert (b - a) * bps >= 0;
  }

  /** Below a minimum of 461 trillion minor units, fees are monotone up to a base exactly when its product
      with the rate fits int64. */
  lemma FeeMonotoneIff(limit: Int64, bps: Int64, minimum: Money)
    requires Supported(minimum.currency) && limit > 0 && bps >= 0 && minimum.minor < LARGE_FEE
    ensures FeesMonotone(limit, bps, minimum) <==> FitsInt64(limit * bps)
  {
    if FitsInt64(limit * bps) {
      FittingFees(limit, bps, minimum);
    } else {
      var b := FirstOverflow(limit, bps);
      FeeDrops(b, bps, minimum);
    }
  }

  ghost function SumFees(parts: seq<Int64>, bps: int, minimum: int): int {
    if parts == [] then 0 else TrueFee(parts[0], bps, minimum) + SumFees(parts[1..], bps, minimum)
  }

  lemma {:induction false} TrueFeesSum(parts: seq<Int64>, bps: int, minimum: int)
    requires parts != [] && bps >= 0 && minimum >= 0
    ensures TrueFee(Sum(parts), bps, minimum) <= SumFees(parts, bps, minimum)
  {
    if |parts| == 1 {
      assert SumFees(parts[1..], bps, minimum) == 0 && Sum(parts[1..]) == 0;
    } else {
      TrueFeesSum(parts[1..], bps, minimum);
      FeeSubadditive(parts[0], Sum(parts[1..]), bps, minimum);
    }
  }

  /** The fee FeeFromBPS answers, or nothing. */
  function Charged(base: Money, bps: Int64, minimum: Money): int {
    var r := FeeFromBPS(base, bps, minimum);
    if r.Ok? then r.value.minor else 0
  }

  ghost function SumCharged(parts: seq<Int64>, bps: Int64, minimum: Money): int {
    if parts == [] then 0
    else Charged(Money(minimum.currency, parts[0]), bps, minimum) + SumCharged(parts[1..], bps, minimum)
  }

  lemma {:induction false} ChargedExactly(parts: seq<Int64>, bps: Int64, minimum: Money)
    requires Positive(parts) && bps >= 0 && Supported(minimum.currency)
    requires forall i :: 0 <= i < |parts| ==> FeeFits(parts[i], bps, minimum.minor)
    ensures SumCharged(parts, bps, minimum) == SumFees(parts, bps, minimum.minor)
  {
    if parts != [] {
      FeeExactIff(Money(minimum.currency, parts[0]), bps, minimum);
      ChargedExactly(parts[1..], bps, minimum);
    }
  }

  /** Splitting a base into positive parts whose fees are exact never lowers the summed fee, even when the
      fee of the whole overflows. */
  lemma SplitNeverSaves(whole: Money, parts: seq<Int64>, bps: Int64, minimum: Money)
    requires Positive(parts) && Sum(parts) == whole.minor > 0 && bps >= 0
    requires whole.currency == minimum.currency && Supported(whole.currency) && minimum.minor >= 0
    requires forall i :: 0 <= i < |parts| ==> FeeFits(parts[i], bps, minimum.minor)
    ensures FeeFromBPS(whole, bps, minimum).Ok?
    ensures forall i :: 0 <= i < |parts| ==> FeeFromBPS(Money(whole.currency, parts[i]), bps, minimum).Ok?
    ensures FeeFromBPS(whole, bps, minimum).value.minor <= SumCharged(parts, bps, minimum)
  {
    FeeAtMostTrue(whole, bps, minimum);
    TrueFeesSum(parts, bps, minimum.minor);
    ChargedExactly(parts, bps, minimum);
  }

  lemma FeeSubadditive(x: int, y: int, bps: int, minimum: int)
    requires minimum >= 0
    ensures TrueFee(x + y, bps, minimum) <= TrueFee(x, bps, minimum) + TrueFee(y, bps, minimum)
  {
    assert (x + y) * bps == x * bps + y * bps;
    CeilDivLeast((x + y) * bps, 10000, CeilDiv(x * bps, 10000) + CeilDiv(y * bps, 10000));
  }
}
