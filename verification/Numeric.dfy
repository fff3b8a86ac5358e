/** What a NUMERIC(20,10) column makes of a decimal, and what an upsert leaves in the rates table. */
module Numeric {
  import opened Money
  import opened MoneyProofs
  import opened Quotes
  import opened Tables

  lemma ScaledSame(a: real, b: real, e: int)
    ensures Scaled(a, e) == Scaled(b, e) <==> a == b
  {
    ScaledOrder(a, b, e);
    ScaledOrder(b, a, e);
  }

  lemma HalfAwayExact(k: int, d: int)
    requires d > 0
    ensures HalfAway(k * d, d) == k
  {
    if k >= 0 {
      assert k * d >= 0;
      assert 2 * (k * d) + d == (2 * d) * k + d;
      DivExact(2 * d, k, d);
    } else {
      assert -(k * d) == (-k) * d;
      assert k * d < 0;
      assert 2 * -(k * d) + d == (2 * d) * (-k) + d;
      DivExact(2 * d, -k, d);
    }
  }

  /** m is the nearest integer to v, and the one farther from zero when v lies half way. */
  ghost predicate NearestAway(m: int, v: real) {
    && -0.5 <= v - m as real <= 0.5
    && (v - m as real == 0.5 ==> v < 0.0)
    && (v - m as real == -0.5 ==> v > 0.0)
  }

  lemma HalfAwayBounds(n: int, d: int)
    requires d > 0
    ensures -d <= 2 * (n - HalfAway(n, d) * d) <= d
    ensures 2 * (n - HalfAway(n, d) * d) == d ==> n < 0
    ensures 2 * (n - HalfAway(n, d) * d) == -d ==> n > 0
  {
    var k := if n >= 0 then 2 * n + d else 2 * -n + d;
    assert k == (2 * d) * (k / (2 * d)) + k % (2 * d);
    if n >= 0 {
      assert HalfAway(n, d) * d * 2 == (2 * d) * (k / (2 * d));
    } else {
      assert HalfAway(n, d) * d * 2 == -((2 * d) * (k / (2 * d)));
    }
  }

  lemma HalfAwayNearest(n: int, d: int, v: real)
    requires d > 0 && v * d as real == n as real
    ensures NearestAway(HalfAway(n, d), v)
  {
    HalfAwayBounds(n, d);
    var m, dr := HalfAway(n, d), d as real;
    var w, k := v - m as real, n - m * d;
    assert k as real == w * dr by {
      assert (m * d) as real == m as real * dr;
    }
    RatioBounds(w, dr, k as real);
    SignOfQuotient(n, d, v);
  }

  lemma SignOfQuotient(n: int, d: int, v: real)
    requires d > 0 && v * d as real == n as real
    ensures n < 0 <==> v < 0.0
    ensures n > 0 <==> v > 0.0
  {
    if v > 0.0 {
      ProductSign(v, d as real);
    } else if v < 0.0 {
      ProductSign(-v, d as real);
    }
  }

  lemma TenPlacesNearest(a: Decimal)
    ensures NearestAway(TenPlaces(a), Scaled(a.Value(), 10))
  {
    ScaledTwice(a.coef as real, a.exp, 10);
    if a.exp >= -10 {
      ScaledUp(a.coef, a.exp + 10);
    } else {
      ScaledDown(a.coef as real, -10 - a.exp);
      HalfAwayNearest(a.coef, Pow10(-10 - a.exp), Scaled(a.Value(), 10));
    }
  }

  /** NUMERIC(20,10) keeps the nearest ten-place value, ties away from zero, and refuses exactly those
      decimals that round to 10^10 or more in magnitude. */
  lemma NumericNearest(a: Decimal)
    ensures var v, limit := Scaled(a.Value(), 10), NUMERIC_LIMIT as real - 0.5;
            && (CastNumeric(a).Some? <==> -limit < v < limit)
            && (CastNumeric(a).Some? ==> NearestAway(CastNumeric(a).value.coef, v))
  {
    TenPlacesNearest(a);
    NearestWithin(TenPlaces(a), Scaled(a.Value(), 10), NUMERIC_LIMIT);
  }

  lemma NearestWithin(m: int, v: real, limit: int)
    requires NearestAway(m, v) && limit > 0
    ensures -limit < m < limit <==> -(limit as real - 0.5) < v < limit as real - 0.5
  {
    if m <= limit - 1 {
      assert m as real <= limit as real - 1.0;
    }
    if m >= -limit + 1 {
      assert m as real >= -(limit as real) + 1.0;
    }
  }

  lemma DivExact(d: int, q: int, r: int)
    requires d > 0 && 0 <= r < d
    ensures (d * q + r) / d == q
  {
    var n := d * q + r;
    assert d * (n / d - q) == r - n % d by {
      assert d * (n / d - q) == d * (n / d) - d * q;
    }
    SmallMultiple(d, n / d - q);
  }

  lemma SmallMultiple(d: int, x: int)
    requires d > 0
    ensures x >= 1 ==> d * x >= d
    ensures x <= -1 ==> d * x <= -d
  {
    assert d * x == d * (x - 1) + d;
    assert d * x == d * (x + 1) - d;
  }

  lemma PaddedExact(a: Decimal)
    requires a.exp >= -10 && CastNumeric(a).Some?
    ensures CastNumeric(a).value.Value() == a.Value()
  {
    ScaledUp(a.coef, a.exp + 10);
    ScaledTwice(a.coef as real, a.exp + 10, -10);
  }

  /** A coefficient of finer scale with a ten-place value is a multiple of the dropped power of ten. */
  lemma DroppedDigits(a: Decimal, k: int)
    requires a.exp < -10 && Decimal(k, -10).Value() == a.Value()
    ensures a.coef == k * Pow10(-10 - a.exp)
  {
    var n: nat := -10 - a.exp;
    ScaledTwice(a.coef as real, 0 - n, -10);
    ScaledSame(Scaled(a.coef as real, 0 - n), k as real, -10);
    ScaledDown(a.coef as real, n);
    RealProduct(k, Pow10(n));
  }

  lemma RealProduct(a: int, b: int)
    ensures a as real * b as real == (a * b) as real
  {
  }

  /** A decimal that fits the column is stored without loss exactly when its value has ten decimal places. */
  lemma NumericExactIff(a: Decimal)
    requires CastNumeric(a).Some?
    ensures CastNumeric(a).value.Value() == a.Value() <==> exists k: int :: Decimal(k, -10).Value() == a.Value()
  {
    var c := CastNumeric(a).value;
    assert c == Decimal(c.coef, -10);
    if a.exp >= -10 {
      PaddedExact(a);
    } else {
      forall k: int | Decimal(k, -10).Value() == a.Value() ensures c.coef == k {
        DroppedDigits(a, k);
        HalfAwayExact(k, Pow10(-10 - a.exp));
      }
    }
  }

  // ---------- stored rates ----------

  /** The row holds the given rate, to the nearest tenth decimal place, with its instants. */
  ghost predicate Keeps(row: RateRow, given: ExchangeRate, at: int) {
    && Canonical(row.rate) && NearestAway(row.rate.coef, Scaled(given.rate.Value(), 10))
    && row.observedAt == given.observedAt && row.fetchedAt == given.fetchedAt && row.updatedAt == at
  }

  /** A rate with no more than ten decimal places is kept exactly. */
  lemma KeepsValue(row: RateRow, given: ExchangeRate, at: int, k: int)
    requires Keeps(row, given, at) && Decimal(k, -10).Value() == given.rate.Value()
    ensures row.rate == Decimal(k, -10) && row.rate.Value() == given.rate.Value()
  {
    ScaledTwice(k as real, -10, 10);
    assert Scaled(given.rate.Value(), 10) == k as real;
  }

  lemma StoredKeeps(given: ExchangeRate, at: int)
    requires CastNumeric(given.rate).Some?
    ensures Keeps(StoredRate(given, at), given, at)
  {
    NumericNearest(given.rate);
  }

  ghost predicate InBatch(batch: seq<ExchangeRate>, key: RateKey) {
    exists i :: 0 <= i < |batch| && RateKey(batch[i].provider, batch[i].base, batch[i].quote) == key
  }

  /** An upsert leaves every rate of the batch in the row of its provider and corridor, and every other row
      alone. */
  ghost predicate Refreshed(before: map<RateKey, RateRow>, batch: seq<ExchangeRate>, at: int,
                            after: map<RateKey, RateRow>) {
    && (forall i :: 0 <= i < |batch| ==>
          var key := RateKey(batch[i].provider, batch[i].base, batch[i].quote);
          key in after && Keeps(after[key], batch[i], at))
    && (forall k :: k in after <==> k in before || InBatch(batch, k))
    && (forall k :: k in before && !InBatch(batch, k) ==> after[k] == before[k])
  }

  lemma UpsertStores(rates: map<RateKey, RateRow>, batch: seq<ExchangeRate>, at: int)
    requires StorableBatch(batch)
    ensures Refreshed(rates, batch, at, WithRates(rates, batch, at))
  {
    var after := WithRates(rates, batch, at);
    forall i | 0 <= i < |batch|
      ensures KeyOf(batch[i]) in after && Keeps(after[KeyOf(batch[i])], batch[i], at)
    {
      BatchRateStored(rates, batch, at, i);
      StoredKeeps(batch[i], at);
    }
    forall k | k in rates && !InBatch(batch, k) ensures after[k] == rates[k] {
      OtherRateKept(rates, batch, at, k);
    }
    forall k ensures k in after <==> k in rates || InBatch(batch, k) {
      if InBatch(batch, k) {
        var i :| 0 <= i < |batch| && RateKey(batch[i].provider, batch[i].base, batch[i].quote) == k;
        assert KeyOf(batch[i]) in after;
      }
    }
  }
}
