/** What the operations answer: retries under a stored idempotency key, duplicate webhooks, every refusal
    with its code, and the rows and events a success leaves for others to read. */
module Replies {
  import opened Core
  import opened Money
  import opened MoneyProofs
  import opened Quotes
  import opened Conversions
  import opened Tables
  import opened Stores
  import opened Protocol
  import opened Invariants
  import opened Interleaving
  import opened Commits

  // ---------- retries ----------

  /** A request whose key is stored is answered with that quote as it stands, and changes nothing. */
  lemma QuoteRetry(look: Tables, rated: Tables, cur: Tables, req: QuoteRequest)
    requires QuotesOk(look) && QuoteByKey(look.quotes, req.key) < |look.quotes|
    ensures var o, row := CreateQuote(look, rated, cur, req), look.quotes[QuoteByKey(look.quotes, req.key)];
            && o.tables == cur && o.reply.Ok?
            && o.reply.value.key == req.key && QuoteFromDomain(o.reply.value) == row
            && o.reply.value.feeAmount.currency == o.reply.value.totalDebit.currency == row.baseCurrency
  {
    assert Priced(look.quotes[QuoteByKey(look.quotes, req.key)]);
  }

  lemma ConversionRetry(look: Tables, seen: Tables, cur: Tables, req: AcceptRequest)
    requires QuotesOk(look) && ConversionsOk(look) && ConversionByKey(look.conversions, req.key) < |look.conversions|
    ensures var o := AcceptQuote(look, seen, cur, req);
            var row := look.conversions[ConversionByKey(look.conversions, req.key)];
            && o.tables == cur && o.reply.Ok?
            && o.reply.value.key == req.key && ConversionFromDomain(o.reply.value) == row
            && o.reply.value.feeAmount.currency == o.reply.value.totalDebit.currency == row.baseCurrency
  {
    var row := look.conversions[ConversionByKey(look.conversions, req.key)];
    assert Backed(look.quotes, row);
    assert Priced(look.quotes[QuoteAt(look.quotes, row.quoteId)]);
  }

  lemma KeyFound(t: Tables, i: nat, q: Quote)
    requires StoredQuote(t, i, q)
    ensures QuoteByKey(t.quotes, q.key) < |t.quotes|
  {
    assert t.quotes[i].key == q.key;
  }

  lemma ConversionKeyFound(t: Tables, i: nat, c: Conversion)
    requires StoredConversion(t, i, c)
    ensures ConversionByKey(t.conversions, c.key) < |t.conversions|
  {
    assert t.conversions[i].key == c.key;
  }

  /** Along a run, a quote request whose lookup sees an earlier success under its key succeeds with the same
      quote, and changes nothing. */
  lemma QuoteRetried(hist: seq<Tables>, steps: seq<Step>, replies: seq<Reply>, key: string, a: nat, q: Quote, b: nat)
    returns (r: Quote)
    requires Run(hist, steps, replies) && QuoteGiven(steps, replies, a, key, q)
    requires b < |steps| && steps[b].Quoting? && steps[b].quote.key == key && a < steps[b].look
    ensures QuoteGiven(steps, replies, b, key, r) && hist[b + 1] == hist[b]
    ensures r.id == q.id && SameQuote(QuoteFromDomain(q), QuoteFromDomain(r))
  {
    var look := steps[b].look;
    QuotingExecuted(hist, steps, replies, b);
    var i := QuoteReplyAt(hist, steps, replies, a, key, q);
    History(hist, steps, replies, a + 1, look);
    QuoteStaysStored(hist[a + 1], hist[look], i, q);
    KeyFound(hist[look], i, q);
    Reachable(hist, steps, replies, look);
    QuoteRetry(hist[look], hist[steps[b].rated], hist[b], steps[b].quote);
    r := CreateQuote(hist[look], hist[steps[b].rated], hist[b], steps[b].quote).reply.value;
    SameKeySameQuote(hist, steps, replies, key, a, q, b, r);
  }

  lemma QuotingExecuted(hist: seq<Tables>, steps: seq<Step>, replies: seq<Reply>, n: nat)
    requires Run(hist, steps, replies) && n < |steps| && steps[n].Quoting?
    ensures steps[n].look <= n && steps[n].rated <= n
    ensures var o := CreateQuote(hist[steps[n].look], hist[steps[n].rated], hist[n], steps[n].quote);
            hist[n + 1] == o.tables && replies[n] == QuoteReply(o.reply)
  {
    TakenStep(hist, steps, replies, n);
  }

  /** The same of acceptances. */
  lemma ConversionRetried(hist: seq<Tables>, steps: seq<Step>, replies: seq<Reply>, key: string, a: nat, c: Conversion,
                          b: nat)
    returns (d: Conversion)
    requires Run(hist, steps, replies) && ConversionGiven(steps, replies, a, key, c)
    requires b < |steps| && steps[b].Accepting? && steps[b].accept.key == key && a < steps[b].look
    ensures ConversionGiven(steps, replies, b, key, d) && hist[b + 1] == hist[b]
    ensures d.id == c.id && SameTerms(ConversionFromDomain(c), ConversionFromDomain(d))
  {
    var look := steps[b].look;
    AcceptingExecuted(hist, steps, replies, b);
    var i := ConversionReplyAt(hist, steps, replies, a, key, c);
    History(hist, steps, replies, a + 1, look);
    ConversionStaysStored(hist[a + 1], hist[look], i, c);
    ConversionKeyFound(hist[look], i, c);
    Reachable(hist, steps, replies, look);
    ConversionRetry(hist[look], hist[steps[b].seen], hist[b], steps[b].accept);
    d := AcceptQuote(hist[look], hist[steps[b].seen], hist[b], steps[b].accept).reply.value;
    SameKeySameConversion(hist, steps, replies, key, a, c, b, d);
  }

  lemma AcceptingExecuted(hist: seq<Tables>, steps: seq<Step>, replies: seq<Reply>, n: nat)
    requires Run(hist, steps, replies) && n < |steps| && steps[n].Accepting?
    ensures steps[n].look <= n && steps[n].seen <= n
    ensures var o := AcceptQuote(hist[steps[n].look], hist[steps[n].seen], hist[n], steps[n].accept);
            hist[n + 1] == o.tables && replies[n] == ConversionReply(o.reply)
  {
    TakenStep(hist, steps, replies, n);
  }

  // ---------- duplicates ----------

  /** A duplicate is answered with the conversion as read and the duplicate flag, or not found when the
      conversion it names is unknown. */
  lemma DuplicateReply(seen: Tables, cur: Tables, d: Delivery)
    requires QuotesOk(seen) && ConversionsOk(seen)
    requires !Incomplete(d.Message()) && InInbox(cur.inbox, d.provider, d.externalEventId)
    ensures var o := Webhook(seen, cur, d);
            && o.tables == cur
            && (o.reply.Ok? <==> Known(seen.conversions, d.conversionId))
            && (o.reply.Err? ==> o.reply.code == NotFound)
            && (o.reply.Ok? ==> o.reply.value.1
                                && ConversionFromDomain(o.reply.value.0)
                                == seen.conversions[ConversionAt(seen.conversions, d.conversionId)])
  {
    if Known(seen.conversions, d.conversionId) {
      ReadRow(seen, d.conversionId);
    }
  }

  // ---------- refusals ----------

  ghost predicate Priceable(c: Currency) {
    c in {KRW, USD, JPY, EUR}
  }

  /** Exactly which inputs New prices, and what it makes of them. */
  lemma PricingRefused(id: string, key: string, base: Money, target: Currency, rate: ExchangeRate, feeBPS: Int64,
                       minimumFee: Money, now: int, ttl: int)
    ensures var r := New(id, key, base, target, rate, feeBPS, minimumFee, now, ttl);
            && (r.Ok? <==> && id != "" && ttl > 0 && base.minor > 0 && rate.rate.Value() > 0.0 && feeBPS >= 0
                           && rate.base == base.currency == minimumFee.currency && rate.quote == target
                           && Priceable(base.currency) && Priceable(target))
            && (r.Err? ==> r.code == Validation)
            && (r.Ok? ==>
                  && r.value.id == id && r.value.key == key && r.value.baseAmount == base
                  && Ok(r.value.quoteAmount) == Convert(base, target, rate.rate)
                  && Ok(r.value.feeAmount) == FeeFromBPS(base, feeBPS, minimumFee)
                  && Ok(r.value.totalDebit) == base.Add(r.value.feeAmount)
                  && r.value.rate == rate.rate && r.value.rateProvider == rate.provider
                  && r.value.createdAt == now && r.value.expiresAt == now + ttl && r.value.acceptedAt.None?)
  {
    SignOfValue(rate.rate);
    ConvertRefused(base, target, rate.rate);
    FeeRefused(base, feeBPS, minimumFee);
  }

  /** Exactly from which quotes a conversion is made, and what it takes from them. */
  lemma FromQuoteRefused(id: string, key: string, source: Quote, payment: Provider, transfer: Provider, now: int)
    ensures var r := FromQuote(id, key, source, payment, transfer, now);
            var named := id != "" && payment in {Toss, Stripe, Demo} && transfer in {Wise, Plaid, Demo};
            && (r.Ok? <==> named && source.acceptedAt.None? && now <= source.expiresAt)
            && (r.Err? ==> r.code == if named then Conflict else Validation)
            && (r.Ok? ==>
                  && r.value.id == id && r.value.quoteId == source.id && r.value.key == key
                  && r.value.baseAmount == source.baseAmount && r.value.quoteAmount == source.quoteAmount
                  && r.value.feeAmount == source.feeAmount && r.value.totalDebit == source.totalDebit
                  && r.value.rate == source.rate && r.value.rateProvider == source.rateProvider
                  && r.value.paymentProvider == payment && r.value.transferProvider == transfer
                  && r.value.status == AwaitingPayment && r.value.createdAt == r.value.updatedAt == now
                  && r.value.externalPaymentId == r.value.externalTransferId == r.value.failureReason == None)
  {
  }

  /** Why a new quote is refused, if it is. */
  ghost function QuoteRefusal(rated: Tables, cur: Tables, req: QuoteRequest): Option<ErrorCode> {
    var key := RateKey(Frankfurter, req.base.currency, req.target);
    if key !in rated.rates then Some(Internal)
    else if !Priceable(req.base.currency) || !Priceable(req.target) then Some(Panic)
    else if req.id == "" || req.base.minor <= 0 || req.ttl <= 0 then Some(Validation)
    else if rated.rates[key].rate.coef <= 0 then Some(Validation)
    else if req.minimumFee.currency != req.base.currency || req.feeBPS < 0 then Some(Validation)
    else if QuoteClash(cur.quotes, req.id, req.key) then Some(Conflict)
    else None
  }

  lemma QuoteRefused(look: Tables, rated: Tables, cur: Tables, req: QuoteRequest)
    requires QuotesOk(rated) && QuoteByKey(look.quotes, req.key) == |look.quotes|
    ensures var refusal, reply := QuoteRefusal(rated, cur, req), CreateQuote(look, rated, cur, req).reply;
            (reply.Ok? <==> refusal.None?) && (reply.Err? ==> Some(reply.code) == refusal)
  {
    ClashFound(cur.quotes, req.id, req.key);
  }

  lemma ClashFound(rows: seq<QuoteRow>, id: string, key: string)
    ensures QuoteClash(rows, id, key) <==> QuoteAt(rows, id) < |rows| || QuoteByKey(rows, key) < |rows|
  {
    if QuoteAt(rows, id) < |rows| {
      assert rows[QuoteAt(rows, id)].id == id;
    }
    if QuoteByKey(rows, key) < |rows| {
      assert rows[QuoteByKey(rows, key)].key == key;
    }
  }

  ghost predicate AcceptClash(rows: seq<ConversionRow>, req: AcceptRequest) {
    exists i :: 0 <= i < |rows|
                && (rows[i].id == req.conversionId || rows[i].quoteId == req.quoteId || rows[i].key == req.key)
  }

  /** Why an acceptance is refused, if it is. */
  ghost function AcceptRefusal(seen: Tables, cur: Tables, req: AcceptRequest): Option<ErrorCode> {
    var i := QuoteAt(seen.quotes, req.quoteId);
    if i == |seen.quotes| then Some(NotFound)
    else if seen.quotes[i].acceptedAt.Some? || req.now > seen.quotes[i].expiresAt then Some(Conflict)
    else if req.conversionId == "" then Some(Validation)
    else if req.paymentProvider !in {Toss, Stripe, Demo} || req.transferProvider !in {Wise, Plaid, Demo}
    then Some(Validation)
    else if AcceptClash(cur.conversions, req) || req.now == seen.quotes[i].expiresAt then Some(Conflict)
    else if !Absent(cur, req.eventId) then Some(Internal)
    else None
  }

  lemma AcceptRefused(look: Tables, seen: Tables, cur: Tables, req: AcceptRequest)
    requires QuotesOk(seen) && QuotesOk(cur) && Grows(seen, cur)
    requires ConversionByKey(look.conversions, req.key) == |look.conversions|
    ensures var refusal, reply := AcceptRefusal(seen, cur, req), AcceptQuote(look, seen, cur, req).reply;
            (reply.Ok? <==> refusal.None?) && (reply.Err? ==> Some(reply.code) == refusal)
  {
    AcceptBodyRefused(seen, cur, req);
  }

  lemma AcceptBodyRefused(seen: Tables, cur: Tables, req: AcceptRequest)
    requires QuotesOk(seen) && QuotesOk(cur) && Grows(seen, cur)
    ensures var refusal, body := AcceptRefusal(seen, cur, req), AcceptBody(seen, cur, req);
            (body.Ok? <==> refusal.None?) && (body.Err? ==> Some(body.code) == refusal)
  {
    var s := QuoteAt(seen.quotes, req.quoteId);
    if s < |seen.quotes| {
      assert Priced(seen.quotes[s]);
      var source := seen.quotes[s].ToDomain().value;
      var made := FromQuote(req.conversionId, req.key, source, req.paymentProvider, req.transferProvider, req.now);
      if source.CanAccept(req.now).Ok? && made.Ok? {
        AcceptStatements(seen, cur, req, made.value);
      }
    }
  }

  /** The statements of an acceptance whose conversion has been made. */
  lemma AcceptStatements(seen: Tables, cur: Tables, req: AcceptRequest, c: Conversion)
    requires QuotesOk(seen) && QuotesOk(cur) && Grows(seen, cur) && QuoteAt(seen.quotes, req.quoteId) < |seen.quotes|
    requires var row := seen.quotes[QuoteAt(seen.quotes, req.quoteId)];
             && row.ToDomain().Ok? && row.ToDomain().value.CanAccept(req.now).Ok?
             && FromQuote(req.conversionId, req.key, row.ToDomain().value, req.paymentProvider, req.transferProvider,
                          req.now) == Ok(c)
    ensures var refusal, body := AcceptRefusal(seen, cur, req), AcceptBody(seen, cur, req);
            (body.Ok? <==> refusal.None?) && (body.Err? ==> Some(body.code) == refusal)
  {
    var s := QuoteAt(seen.quotes, req.quoteId);
    QuoteAtStable(seen, cur, req.quoteId);
    assert Priced(seen.quotes[s]);
    assert SameQuote(seen.quotes[s], cur.quotes[s]);
    var row := ConversionFromDomain(c);
    assert Canonical(row.rate);
    if !AcceptClash(cur.conversions, req) {
      OpenUnlessNamed(cur, s, req);
      assert !ConversionClash(cur.conversions, row, |cur.conversions|);
      assert InsertConversion(cur, row) == Ok(cur.(conversions := cur.conversions + [row]));
    } else {
      assert ConversionClash(cur.conversions, row, |cur.conversions|);
    }
  }

  /** A quote no conversion names is still open. */
  lemma OpenUnlessNamed(cur: Tables, s: nat, req: AcceptRequest)
    requires QuotesOk(cur) && s < |cur.quotes| && cur.quotes[s].id == req.quoteId && !AcceptClash(cur.conversions, req)
    ensures cur.quotes[s].acceptedAt.None?
  {
  }

  /** The topics each handler takes. */
  ghost predicate Expected(d: Delivery) {
    match d.handler
    case PaymentHandler => d.topic == PaymentSucceeded || d.topic == PaymentFailed
    case TransferHandler => d.topic == TransferCompleted || d.topic == TransferFailed
  }

  /** The statuses each success may start from. */
  ghost predicate MayStart(topic: Topic, s: Status) {
    && (topic == PaymentSucceeded ==> s == AwaitingPayment || s == Requested)
    && (topic == TransferCompleted ==> s == Processing)
  }

  /** Why a webhook is refused, if it is. */
  ghost function WebhookRefusal(seen: Tables, cur: Tables, d: Delivery): Option<ErrorCode> {
    if Incomplete(d.Message()) then Some(Validation)
    else if InInbox(cur.inbox, d.provider, d.externalEventId) then
      if Known(seen.conversions, d.conversionId) then None else Some(NotFound)
    else if TakenInboxId(cur, d.inboxId) then Some(Internal)
    else if !Known(cur.conversions, d.conversionId) then Some(Internal)
    else if !Known(seen.conversions, d.conversionId) then Some(NotFound)
    else if !Expected(d) then Some(Validation)
    else if !MayStart(d.topic, seen.conversions[ConversionAt(seen.conversions, d.conversionId)].status)
    then Some(Conflict)
    else if !Absent(cur, d.eventId) then Some(Internal)
    else None
  }

  /** Every topic the automaton does not know is invalid; a success out of turn is a conflict. */
  lemma ApplyRefused(c: Conversion, topic: Topic, externalRef: Option<string>, now: int)
    ensures c.Apply(topic, externalRef, now).Ok? <==> !topic.Other? && MayStart(topic, c.status)
    ensures c.Apply(topic, externalRef, now).Err? ==>
              c.Apply(topic, externalRef, now).code == if topic.Other? then Validation else Conflict
  {
  }

  lemma TransitionRefused(c: Conversion, d: Delivery)
    ensures Transition(c, d).Ok? <==> Expected(d) && MayStart(d.topic, c.status)
    ensures Transition(c, d).Err? ==> Transition(c, d).code == if Expected(d) then Conflict else Validation
  {
  }

  lemma WebhookRefused(seen: Tables, cur: Tables, d: Delivery)
    requires QuotesOk(seen) && ConversionsOk(seen) && ConversionsOk(cur) && Grows(seen, cur)
    ensures var refusal, reply := WebhookRefusal(seen, cur, d), Webhook(seen, cur, d).reply;
            (reply.Ok? <==> refusal.None?) && (reply.Err? ==> Some(reply.code) == refusal)
  {
    if Incomplete(d.Message()) {
      InvalidRefused(seen, cur, d);
    } else if InInbox(cur.inbox, d.provider, d.externalEventId) {
      DuplicateReply(seen, cur, d);
    } else if TakenInboxId(cur, d.inboxId) || !Known(cur.conversions, d.conversionId) {
      NotStored(seen, cur, d);
    } else if !Known(seen.conversions, d.conversionId) {
      NotRead(seen, cur, d);
    } else {
      ReadRow(seen, d.conversionId);
      var c := GetConversion(seen, d.conversionId).value;
      TransitionRefused(c, d);
      NewRefused(seen, cur, d, c);
    }
  }

  ghost predicate TakenInboxId(t: Tables, id: string) {
    exists k :: 0 <= k < |t.inbox| && t.inbox[k].id == id
  }

  lemma InvalidRefused(seen: Tables, cur: Tables, d: Delivery)
    requires Incomplete(d.Message())
    ensures WebhookBody(seen, cur, d) == Err(Validation)
  {
  }

  lemma NotStored(seen: Tables, cur: Tables, d: Delivery)
    requires !Incomplete(d.Message()) && !InInbox(cur.inbox, d.provider, d.externalEventId)
    requires TakenInboxId(cur, d.inboxId) || !Known(cur.conversions, d.conversionId)
    ensures WebhookBody(seen, cur, d) == Err(Internal)
  {
  }

  lemma NotRead(seen: Tables, cur: Tables, d: Delivery)
    requires !Incomplete(d.Message()) && !InInbox(cur.inbox, d.provider, d.externalEventId)
    requires !TakenInboxId(cur, d.inboxId) && Known(cur.conversions, d.conversionId)
    requires !Known(seen.conversions, d.conversionId)
    ensures WebhookBody(seen, cur, d) == Err(NotFound)
  {
  }

  /** A delivery that is stored and whose conversion is read. */
  ghost predicate Arrives(seen: Tables, cur: Tables, d: Delivery) {
    && !Incomplete(d.Message()) && !InInbox(cur.inbox, d.provider, d.externalEventId)
    && !TakenInboxId(cur, d.inboxId) && Known(seen.conversions, d.conversionId)
  }

  lemma NewRefused(seen: Tables, cur: Tables, d: Delivery, c: Conversion)
    requires QuotesOk(seen) && ConversionsOk(seen) && ConversionsOk(cur) && Grows(seen, cur) && Arrives(seen, cur, d)
    requires GetConversion(seen, d.conversionId) == Ok(c)
    ensures Transition(c, d).Err? ==> WebhookBody(seen, cur, d) == Err(Transition(c, d).code)
    ensures Transition(c, d).Ok? && !Absent(cur, d.eventId) ==> WebhookBody(seen, cur, d) == Err(Internal)
    ensures Transition(c, d).Ok? && Absent(cur, d.eventId) ==> WebhookBody(seen, cur, d).Ok?
  {
    ConversionAtStable(seen, cur, d.conversionId);
    if Transition(c, d).Err? {
      NotMoved(seen, cur, d, c);
    } else if Absent(cur, d.eventId) {
      var _, _ := Committed(seen, cur, d);
    } else {
      NotAnnounced(seen, cur, d, Transition(c, d).value);
    }
  }

  lemma NotMoved(seen: Tables, cur: Tables, d: Delivery, c: Conversion)
    requires Arrives(seen, cur, d) && Known(cur.conversions, d.conversionId)
    requires GetConversion(seen, d.conversionId) == Ok(c) && Transition(c, d).Err?
    ensures WebhookBody(seen, cur, d) == Err(Transition(c, d).code)
  {
  }

  /** Everything before the enqueue succeeds, and the enqueue does not. */
  lemma NotAnnounced(seen: Tables, cur: Tables, d: Delivery, c: Conversion)
    requires QuotesOk(seen) && ConversionsOk(seen) && ConversionsOk(cur) && Grows(seen, cur) && Arrives(seen, cur, d)
    requires GetConversion(seen, d.conversionId).Ok?
    requires Transition(GetConversion(seen, d.conversionId).value, d) == Ok(c)
    requires !Absent(cur, d.eventId)
    ensures WebhookBody(seen, cur, d) == Err(Internal)
  {
    ReadRow(seen, d.conversionId);
    ConversionAtStable(seen, cur, d.conversionId);
    var s := ConversionAt(seen.conversions, d.conversionId);
    TransitionRow(seen.conversions[s], d);
    TermsChain(seen.conversions[s], cur.conversions[s], ConversionFromDomain(c));
    RewriteAllowed(cur, s, ConversionFromDomain(c), d.Message());
    EnqueueFails(seen, cur, d, c, cur.(inbox := cur.inbox + [d.Message()],
                                       conversions := cur.conversions[s := ConversionFromDomain(c)]));
  }

  lemma EnqueueFails(seen: Tables, cur: Tables, d: Delivery, c: Conversion, saved: Tables)
    requires Arrives(seen, cur, d) && Known(cur.conversions, d.conversionId)
    requires GetConversion(seen, d.conversionId).Ok?
    requires Transition(GetConversion(seen, d.conversionId).value, d) == Ok(c)
    requires UpdateConversion(cur.(inbox := cur.inbox + [d.Message()]), ConversionFromDomain(c)) == Ok(saved)
    requires ConversionFromDomain(c).ToDomain().Ok? && saved.outbox == cur.outbox && !Absent(cur, d.eventId)
    ensures WebhookBody(seen, cur, d) == Err(Internal)
  {
    assert StoreIfAbsent(cur, d.Message()) == Ok((cur.(inbox := cur.inbox + [d.Message()]), true));
  }

  // ---------- what a success leaves ----------

  lemma AcceptReply(seen: Tables, cur: Tables, req: AcceptRequest)
    requires AcceptBody(seen, cur, req).Ok?
    ensures var c := AcceptBody(seen, cur, req).value.1;
            && c.id == req.conversionId && c.quoteId == req.quoteId && c.key == req.key
            && c.status == AwaitingPayment && c.createdAt == c.updatedAt == req.now
            && c.paymentProvider == req.paymentProvider && c.transferProvider == req.transferProvider
            && c.externalPaymentId == c.externalTransferId == c.failureReason == None
  {
  }

  /** The event of an acceptance tells which conversion was created, from which quote, in which status. */
  lemma AcceptAnnounces(seen: Tables, cur: Tables, req: AcceptRequest)
    requires QuotesOk(seen) && Grows(seen, cur) && AcceptBody(seen, cur, req).Ok?
    ensures AcceptBody(seen, cur, req).value.0.outbox
         == cur.outbox
            + [OutboxRow(req.eventId, req.conversionId, Created,
                         CreatedPayload(req.conversionId, req.quoteId, AwaitingPayment), 0, None, req.now, None)]
  {
    AcceptReply(seen, cur, req);
    AcceptShape(seen, cur, req);
  }

  /** A committed webhook stores its message as delivered, and its event tells the conversion, the status it
      reached and the provider that moved it. */
  lemma WebhookAnnounces(seen: Tables, cur: Tables, d: Delivery)
    requires QuotesOk(seen) && ConversionsOk(seen) && Grows(seen, cur)
    requires WebhookBody(seen, cur, d).Ok? && !WebhookBody(seen, cur, d).value.1.1
    ensures var (after, (c, _)) := WebhookBody(seen, cur, d).value;
            && after.inbox
            == cur.inbox + [InboxRow(d.inboxId, d.provider, d.topic, d.externalEventId, d.conversionId, d.externalRef,
                                     d.payload, d.now, Some(d.now))]
            && after.outbox
            == cur.outbox + [OutboxRow(d.eventId, d.conversionId, Moved(c.status),
                                       MovedPayload(d.conversionId, c.status, d.provider), 0, None, d.now, None)]
  {
    WebhookShape(seen, cur, d);
    ReadRow(seen, d.conversionId);
  }
}
