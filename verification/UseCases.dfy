/** The use cases as they run against a store: statements in source order inside a transaction that
    is rolled back on any error. Each is proved to have the effect and reply of its protocol function. */
module UseCases {
  import opened Core
  import opened Quotes
  import opened Conversions
  import opened Tables
  import opened Stores
  import opened Rates
  import Protocol

  method CreateQuote(store: Store, req: Protocol.QuoteRequest, fetched: Result<seq<ExchangeRate>>)
    returns (r: Result<Quote>)
    modifies store`quotes, store`rates
    ensures if QuoteByKey(old(store.quotes), req.key) < |old(store.quotes)| then store.rates == old(store.rates)
            else Ensured(old(store.rates), fetched, req.base.currency, [req.target], req.now, store.rates)
    ensures QuoteByKey(old(store.quotes), req.key) == |old(store.quotes)|
            && !Covered(old(store.rates), req.base.currency, [req.target])
            && Readable(old(store.rates), req.base.currency, [req.target]) && fetched.Err? ==>
              r == Err(fetched.code)
    ensures var rated := old(store.View()).(rates := store.rates);
            if QuoteByKey(old(store.quotes), req.key) < |old(store.quotes)|
              || Protocol.CorridorRate(store.rates, req.base.currency, req.target).Ok?
            then Protocol.Outcome(store.View(), r) == Protocol.CreateQuote(old(store.View()), rated, rated, req)
            else r.Err? && store.View() == rated
  {
    var found, existing := store.GetQuoteByIdempotencyKey(req.key);
    if found {
      return existing;
    }
    var rates := EnsureReferenceRates(store, fetched, req.base.currency, [req.target], req.now);
    assert req.target in [req.target];
    if rates.Err? {
      return Err(rates.code);
    }
    assert rates.value[0].quote == req.target;
    r := PriceAndStore(store, req, rates.value[0]);
  }

  method PriceAndStore(store: Store, req: Protocol.QuoteRequest, rate: ExchangeRate) returns (r: Result<Quote>)
    requires Protocol.CorridorRate(store.rates, req.base.currency, req.target) == Ok(rate)
    modifies store`quotes
    ensures Protocol.Outcome(store.View(), r)
         == Protocol.Commit(old(store.View()), Protocol.PriceAndInsert(old(store.View()), old(store.View()), req))
  {
    var created :- New(req.id, req.key, req.base, req.target, rate, req.feeBPS, req.minimumFee, req.now, req.ttl);
    r := store.CreateQuote(created);
  }

  method AcceptQuote(store: Store, req: Protocol.AcceptRequest) returns (r: Result<Conversion>)
    modifies store
    ensures Protocol.Outcome(store.View(), r)
         == Protocol.AcceptQuote(old(store.View()), old(store.View()), old(store.View()), req)
  {
    var found, existing := store.GetConversionByIdempotencyKey(req.key);
    if found {
      return existing;
    }
    var saved := store.Begin();
    r := AcceptInTransaction(store, req);
    if r.Err? {
      store.Rollback(saved);
    }
  }

  method AcceptInTransaction(store: Store, req: Protocol.AcceptRequest) returns (r: Result<Conversion>)
    modifies store
    ensures match Protocol.AcceptBody(old(store.View()), old(store.View()), req)
            case Ok((after, c)) => store.View() == after && r == Ok(c)
            case Err(code) => r == Err(code)
  {
    var source :- store.GetQuoteByID(req.quoteId);
    var _ :- source.CanAccept(req.now);
    var created :- FromQuote(req.conversionId, req.key, source, req.paymentProvider, req.transferProvider, req.now);
    var _ :- store.CreateConversion(created);
    var _ :- store.MarkQuoteAccepted(req.quoteId, req.now);
    var _ :- store.EnqueueEvent(Protocol.CreatedEvent(created, req.eventId, req.now));
    r := Ok(created);
  }

  method HandlePaymentWebhook(store: Store, d: Protocol.Delivery) returns (r: Result<(Conversion, bool)>)
    requires d.handler == Protocol.PaymentHandler
    modifies store
    ensures Protocol.Outcome(store.View(), r) == Protocol.Webhook(old(store.View()), old(store.View()), d)
  {
    var saved := store.Begin();
    r := PaymentInTransaction(store, d);
    if r.Err? {
      store.Rollback(saved);
    }
  }

  method PaymentInTransaction(store: Store, d: Protocol.Delivery) returns (r: Result<(Conversion, bool)>)
    requires d.handler == Protocol.PaymentHandler
    modifies store
    ensures match Protocol.WebhookBody(old(store.View()), old(store.View()), d)
            case Ok((after, value)) => store.View() == after && r == Ok(value)
            case Err(code) => r == Err(code)
  {
    var stored :- store.StoreMessage(d.Message());
    var current :- store.GetConversionByID(d.conversionId);
    if !stored {
      return Ok((current, true));
    }
    var reference := if d.externalRef.Some? then d.externalRef.value else "";
    var updated;
    match d.topic {
      case PaymentSucceeded => updated :- current.AdvanceForPayment(reference, d.now);
      case PaymentFailed => updated := current.FailPayment(PAYMENT_FAILED, reference, d.now);
      case _ => return Err(Validation);
    }
    var _ :- SaveAndAnnounce(store, updated, d);
    r := Ok((updated, false));
  }

  /** The end of both webhook transactions: the row rewritten, the event enqueued. */
  method SaveAndAnnounce(store: Store, updated: Conversion, d: Protocol.Delivery) returns (r: Result<()>)
    modifies store
    ensures match UpdateConversion(old(store.View()), ConversionFromDomain(updated))
            case Err(code) => r == Err(code)
            case Ok(saved) =>
              match ConversionFromDomain(updated).ToDomain()
              case Err(code) => r == Err(code)
              case Ok(_) =>
                match Enqueue(saved, Protocol.MovedEvent(updated, d))
                case Err(code) => r == Err(code)
                case Ok(after) => r == Ok(()) && store.View() == after
  {
    var _ :- store.SaveConversion(updated);
    r := store.EnqueueEvent(Protocol.MovedEvent(updated, d));
  }

  method HandleTransferWebhook(store: Store, d: Protocol.Delivery) returns (r: Result<(Conversion, bool)>)
    requires d.handler == Protocol.TransferHandler
    modifies store
    ensures Protocol.Outcome(store.View(), r) == Protocol.Webhook(old(store.View()), old(store.View()), d)
  {
    var saved := store.Begin();
    r := TransferInTransaction(store, d);
    if r.Err? {
      store.Rollback(saved);
    }
  }

  method TransferInTransaction(store: Store, d: Protocol.Delivery) returns (r: Result<(Conversion, bool)>)
    requires d.handler == Protocol.TransferHandler
    modifies store
    ensures match Protocol.WebhookBody(old(store.View()), old(store.View()), d)
            case Ok((after, value)) => store.View() == after && r == Ok(value)
            case Err(code) => r == Err(code)
  {
    var stored :- store.StoreMessage(d.Message());
    var current :- store.GetConversionByID(d.conversionId);
    if !stored {
      return Ok((current, true));
    }
    var reference := if d.externalRef.Some? then d.externalRef.value else "";
    var updated;
    match d.topic {
      case TransferCompleted => updated :- current.CompleteTransfer(reference, d.now);
      case TransferFailed => updated := current.FailTransfer(TRANSFER_FAILED, reference, d.now);
      case _ => return Err(Validation);
    }
    var _ :- SaveAndAnnounce(store, updated, d);
    r := Ok((updated, false));
  }
}
