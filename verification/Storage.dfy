/** Round trips between domain values and stored rows, and conversion at stored rates. */
module Storage {
  import opened Core
  import opened Money
  import opened MoneyProofs
  import opened Quotes
  import opened Tables
  import opened Numeric
  import opened Invariants
  import opened Interleaving

  /** A freshly priced quote, stored and read back, is the same quote although its fee and total
      currencies are not stored - up to the rate, which is what the column makes of it. */
  lemma QuoteSurvivesStorage(t: Tables, q: Quote, id: string, key: string, base: Money, target: Currency,
                             rate: ExchangeRate,
                             feeBPS: Int64, minimumFee: Money, now: int, ttl: int)
    requires New(id, key, base, target, rate, feeBPS, minimumFee, now, ttl) == Ok(q)
    requires InsertQuote(t, QuoteFromDomain(q)).Ok?
    ensures CastNumeric(q.rate).Some?
    ensures GetQuote(InsertQuote(t, QuoteFromDomain(q)).value, id) == Ok(q.(rate := CastNumeric(q.rate).value))
    ensures Canonical(q.rate) ==> GetQuote(InsertQuote(t, QuoteFromDomain(q)).value, id) == Ok(q)
  {
    var after := InsertQuote(t, QuoteFromDomain(q)).value;
    assert after.quotes[|t.quotes|].id == id;
    assert QuoteAt(after.quotes, id) == |t.quotes|;
  }

  /** In every reachable state, writing back a conversion as it was read changes nothing. */
  lemma ConversionSurvivesStorage(hist: seq<Tables>, steps: seq<Step>, replies: seq<Reply>, n: nat, id: string)
    requires Run(hist, steps, replies) && n <= |steps| && Known(hist[n].conversions, id)
    ensures GetConversion(hist[n], id).Ok?
    ensures UpdateConversion(hist[n], ConversionFromDomain(GetConversion(hist[n], id).value)) == Ok(hist[n])
  {
    Reachable(hist, steps, replies, n);
    ReadRow(hist[n], id);
    WriteBack(hist[n], ConversionAt(hist[n].conversions, id));
  }

  lemma WriteBack(t: Tables, i: nat)
    requires ConversionsOk(t) && i < |t.conversions| && Canonical(t.conversions[i].rate)
    ensures UpdateConversion(t, t.conversions[i]) == Ok(t)
  {
    var row := t.conversions[i];
    assert Backed(t.quotes, row);
    assert ConversionAt(t.conversions, row.id) == i;
    assert t.conversions[i := row] == t.conversions;
  }

  /** One minor unit fits at every stored rate. */
  lemma UnitFits(c: Currency, target: Currency, rate: Decimal)
    requires Canonical(rate) && rate.coef > 0
    ensures ConvertFits(Money(c, 1), target, rate)
  {
    var s := Scale(target) - Scale(c);
    ScaledTwice(rate.coef as real, -10, s);
    assert Times(1, rate.Value()) == rate.Value();
    SmallScaled(rate.coef, s - 10);
  }

  lemma SmallScaled(k: int, e: int)
    requires 0 < k < NUMERIC_LIMIT && e <= -8
    ensures Scaled(k as real, e) < TWO63 as real - 0.5
  {
    ScaledOrder(k as real, NUMERIC_LIMIT as real, e);
    ScaledDown(NUMERIC_LIMIT as real, -e);
    EightPlaces(-e);
    DivideDown(Scaled(NUMERIC_LIMIT as real, e), Pow10(-e) as real);
  }

  /** So at a stored rate conversion is monotone up to an amount exactly when that amount fits int64. */
  lemma StoredRateMonotoneIff(limit: Money, target: Currency, rate: Decimal)
    requires limit.minor > 0 && rate.coef > 0 && Supported(target) && Canonical(rate)
    ensures ConversionsMonotone(limit, target, rate) <==> ConvertFits(limit, target, rate)
  {
    UnitFits(limit.currency, target, rate);
    ConvertMonotoneIff(limit, target, rate);
  }

  lemma {:induction false} EightPlaces(n: nat)
    requires n >= 8
    ensures Pow10(n) >= 100_000_000
  {
    if n == 8 {
      assert Pow10(3) == 1000;
      assert Pow10(6) == 1000 * Pow10(3);
    } else {
      EightPlaces(n - 1);
    }
  }

  lemma DivideDown(x: real, p: real)
    requires p >= 100_000_000.0 && x * p == NUMERIC_LIMIT as real
    ensures x <= 1_000_000_000_000.0
  {
    if x > 1_000_000_000_000.0 {
      LargerProduct(x, 1_000_000_000_000.0, p);
    }
  }

  lemma LargerProduct(x: real, t: real, p: real)
    requires x > t && p > 0.0
    ensures x * p > t * p
  {
    ProductSign(x - t, p);
    assert (x - t) * p == x * p - t * p;
  }

  /** A stored rate reads back under its key with its own provider, corridor and instants, its value
      rounded to the column. */
  lemma RateSurvivesStorage(before: map<RateKey, RateRow>, batch: seq<ExchangeRate>, at: int,
                            after: map<RateKey, RateRow>, i: nat)
    requires Refreshed(before, batch, at, after) && i < |batch|
    requires Supported(batch[i].base) && Supported(batch[i].quote)
    ensures var key := RateKey(batch[i].provider, batch[i].base, batch[i].quote);
            && key in after && after[key].ToDomain(key).Ok?
            && after[key].ToDomain(key).value == batch[i].(rate := after[key].rate)
            && NearestAway(after[key].rate.coef, Scaled(batch[i].rate.Value(), 10))
  {
  }
}
