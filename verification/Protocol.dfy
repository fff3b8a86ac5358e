/** The use cases as transactions. Each takes the committed tables it *reads* apart from the
    committed tables its writes are *checked against*, so that a read may be stale; passing the
    same tables for both gives the serial behaviour. An abort yields the tables unchanged. */
module Protocol {
  import opened Core
  import opened Money
  import opened Quotes
  import opened Conversions
  import opened Tables

  datatype Outcome<+T> = Outcome(tables: Tables, reply: Result<T>)

  /** Commit all writes, or roll back to `before`. */
  function Commit<T>(before: Tables, body: Result<(Tables, T)>): Outcome<T> {
    match body
    case Ok((after, value)) => Outcome(after, Ok(value))
    case Err(code) => Outcome(before, Err(code))
  }

  // ---------- create quote ----------

  datatype QuoteRequest = QuoteRequest(
    key: string, base: Money, target: Currency, id: string, feeBPS: Int64, minimumFee: Money, now: int, ttl: int)

  /** The stored reference rate of one corridor. */
  function CorridorRate(rates: map<RateKey, RateRow>, base: Currency, target: Currency): Result<ExchangeRate> {
    var key := RateKey(Frankfurter, base, target);
    if key in rates then rates[key].ToDomain(key) else Err(Internal)
  }

  function PriceAndInsert(rated: Tables, cur: Tables, req: QuoteRequest): Result<(Tables, Quote)> {
    var rate :- CorridorRate(rated.rates, req.base.currency, req.target);
    var created :- New(req.id, req.key, req.base, req.target, rate, req.feeBPS, req.minimumFee, req.now, req.ttl);
    var after :- InsertQuote(cur, QuoteFromDomain(created));
    var saved :- QuoteFromDomain(created).ToDomain();
    Ok((after, saved))
  }

  /** CreateQuote once its rates are in place: looked up in `look`, rate read from `rated`, inserted into `cur`. */
  function CreateQuote(look: Tables, rated: Tables, cur: Tables, req: QuoteRequest): Outcome<Quote> {
    var i := QuoteByKey(look.quotes, req.key);
    if i < |look.quotes| then Outcome(cur, look.quotes[i].ToDomain())
    else Commit(cur, PriceAndInsert(rated, cur, req))
  }

  // ---------- accept quote ----------

  datatype AcceptRequest = AcceptRequest(
    key: string, quoteId: string, paymentProvider: Provider, transferProvider: Provider,
    conversionId: string, eventId: string, now: int)

  function CreatedEvent(c: Conversion, eventId: string, now: int): OutboxRow {
    OutboxRow(eventId, c.id, Created, CreatedPayload(c.id, c.quoteId, c.status), 0, None, now, None)
  }

  function AcceptBody(seen: Tables, cur: Tables, req: AcceptRequest): Result<(Tables, Conversion)> {
    var source :- GetQuote(seen, req.quoteId);
    var _ :- source.CanAccept(req.now);
    var created :- FromQuote(req.conversionId, req.key, source, req.paymentProvider, req.transferProvider, req.now);
    var inserted :- InsertConversion(cur, ConversionFromDomain(created));
    var _ :- ConversionFromDomain(created).ToDomain();
    var marked :- MarkAccepted(inserted, req.quoteId, req.now);
    var after :- Enqueue(marked, CreatedEvent(created, req.eventId, req.now));
    Ok((after, created))
  }

  function AcceptQuote(look: Tables, seen: Tables, cur: Tables, req: AcceptRequest): Outcome<Conversion> {
    var i := ConversionByKey(look.conversions, req.key);
    if i < |look.conversions| then Outcome(cur, look.conversions[i].ToDomain())
    else Commit(cur, AcceptBody(seen, cur, req))
  }

  // ---------- webhooks ----------

  datatype Handler = PaymentHandler | TransferHandler

  predicate Handles(h: Handler, topic: Topic) {
    match h
    case PaymentHandler => topic.PaymentSucceeded? || topic.PaymentFailed?
    case TransferHandler => topic.TransferCompleted? || topic.TransferFailed?
  }

  /** One webhook delivery: the provider's event, with the ids and the instant the server draws for it. */
  datatype Delivery = Delivery(
    handler: Handler, provider: Provider, topic: Topic, externalEventId: string, conversionId: string,
    externalRef: Option<string>, payload: string, inboxId: string, eventId: string, now: int)
  {
    function Message(): InboxRow {
      InboxRow(inboxId, provider, topic, externalEventId, conversionId, externalRef, payload, now, Some(now))
    }
  }

  function MovedEvent(c: Conversion, d: Delivery): OutboxRow {
    OutboxRow(d.eventId, c.id, Moved(c.status), MovedPayload(c.id, c.status, d.provider), 0, None, d.now, None)
  }

  function Transition(c: Conversion, d: Delivery): Result<Conversion> {
    if Handles(d.handler, d.topic) then c.Apply(d.topic, d.externalRef, d.now) else Err(Validation)
  }

  /** The reply carries the conversion and whether the delivery was a duplicate. */
  function WebhookBody(seen: Tables, cur: Tables, d: Delivery): Result<(Tables, (Conversion, bool))> {
    var (stored, isNew) :- StoreIfAbsent(cur, d.Message());
    if !isNew then
      var current :- GetConversion(seen, d.conversionId);
      Ok((stored, (current, true)))
    else
      var current :- GetConversion(seen, d.conversionId);
      var updated :- Transition(current, d);
      var saved :- UpdateConversion(stored, ConversionFromDomain(updated));
      var _ :- ConversionFromDomain(updated).ToDomain();
      var after :- Enqueue(saved, MovedEvent(updated, d));
      Ok((after, (updated, false)))
  }

  function Webhook(seen: Tables, cur: Tables, d: Delivery): Outcome<(Conversion, bool)> {
    Commit(cur, WebhookBody(seen, cur, d))
  }
}
