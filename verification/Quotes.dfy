/** Reference rates and priced quotes. Instants are integers. */
module Quotes {
  import opened Core
  import opened Money

  /** A provider name; every name other than the known ones is `OtherProvider`. */
  datatype Provider = Frankfurter | Toss | Stripe | Plaid | Wise | Demo | OtherProvider(name: string)

  datatype ExchangeRate = ExchangeRate(
    base: Currency, quote: Currency, provider: Provider, rate: Decimal, observedAt: int, fetchedAt: int)
  {
    function Validate(): Result<()> {
      if base == Unknown("") || quote == Unknown("") then Err(Validation)
      else if provider == OtherProvider("") then Err(Validation)
      else if rate.coef <= 0 then Err(Validation)
      else Ok(())
    }
  }

  datatype Quote = Quote(
    id: string, key: string,
    baseAmount: Money, quoteAmount: Money, feeAmount: Money, totalDebit: Money,
    rate: Decimal, rateProvider: Provider,
    expiresAt: int, acceptedAt: Option<int>, createdAt: int)
  {
    /** An unaccepted quote may be accepted up to and including its expiry instant. */
    function CanAccept(at: int): Result<()> {
      if acceptedAt.Some? then Err(Conflict)
      else if at > expiresAt then Err(Conflict)
      else Ok(())
    }
  }

  function New(id: string, key: string, base: Money, target: Currency, rate: ExchangeRate,
               feeBPS: Int64, minimumFee: Money, now: int, ttl: int): Result<Quote>
  {
    if id == "" then Err(Validation)
    else if base.minor <= 0 then Err(Validation)
    else if target == Unknown("") then Err(Validation)
    else if ttl <= 0 then Err(Validation)
    else if rate.base != base.currency || rate.quote != target then Err(Validation)
    else
      var quoteAmount :- Convert(base, target, rate.rate);
      var fee :- FeeFromBPS(base, feeBPS, minimumFee);
      var total :- base.Add(fee);
      Ok(Quote(id, key, base, quoteAmount, fee, total, rate.rate, rate.provider, now + ttl, None, now))
  }
}
