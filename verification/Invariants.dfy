/** What every committed state satisfies and what never changes once committed, proved for each
    transaction even when the rows it read were stale. */
module Invariants {
  import opened Core
  import opened Money
  import opened Quotes
  import opened Conversions
  import opened Tables
  import opened Protocol

  // ---------- immutable columns ----------

  ghost predicate SameQuote(a: QuoteRow, b: QuoteRow) {
    a.(acceptedAt := b.acceptedAt) == b
  }

  ghost predicate SameTerms(a: ConversionRow, b: ConversionRow) {
    a.(status := b.status, externalPaymentId := b.externalPaymentId, externalTransferId := b.externalTransferId,
       failureReason := b.failureReason, updatedAt := b.updatedAt) == b
  }

  ghost predicate SameEvent(a: OutboxRow, b: OutboxRow) {
    a.(attempts := b.attempts, lastError := b.lastError, publishedAt := b.publishedAt) == b
  }

  /** Rows are never deleted; identities, amounts and rates never change; an acceptance is final. */
  ghost predicate Grows(a: Tables, b: Tables) {
    && |a.quotes| <= |b.quotes|
    && (forall i :: 0 <= i < |a.quotes| ==>
          SameQuote(a.quotes[i], b.quotes[i])
          && (a.quotes[i].acceptedAt.Some? ==> b.quotes[i].acceptedAt == a.quotes[i].acceptedAt))
    && |a.conversions| <= |b.conversions|
    && (forall i :: 0 <= i < |a.conversions| ==> SameTerms(a.conversions[i], b.conversions[i]))
    && a.inbox <= b.inbox
    && |a.outbox| <= |b.outbox|
    && (forall i :: 0 <= i < |a.outbox| ==>
          SameEvent(a.outbox[i], b.outbox[i])
          && a.outbox[i].attempts <= b.outbox[i].attempts
          && (a.outbox[i].publishedAt.Some? ==> b.outbox[i].publishedAt.Some?))
  }

  lemma GrowsTransitive(a: Tables, b: Tables, c: Tables)
    requires Grows(a, b) && Grows(b, c)
    ensures Grows(a, c)
  {
  }

  // ---------- the invariant ----------

  /** A stored quote is priced from its own stored rate, and its total is base plus fee (in int64). */
  ghost predicate Priced(q: QuoteRow) {
    && Supported(q.baseCurrency) && Supported(q.quoteCurrency)
    && Canonical(q.rate)
    && q.baseMinor > 0
    && Convert(Money(q.baseCurrency, q.baseMinor), q.quoteCurrency, q.rate) == Ok(Money(q.quoteCurrency, q.quoteMinor))
    && q.totalMinor == Wrap64(q.baseMinor + q.feeMinor)
    && q.createdAt < q.expiresAt
  }

  ghost predicate SameMoney(q: QuoteRow, c: ConversionRow) {
    && q.baseCurrency == c.baseCurrency && q.baseMinor == c.baseMinor
    && q.quoteCurrency == c.quoteCurrency && q.quoteMinor == c.quoteMinor
    && q.feeMinor == c.feeMinor && q.totalMinor == c.totalMinor
    && q.rate == c.rate && q.rateProvider == c.rateProvider
  }

  /** A conversion carries its quote's money, and that quote was accepted strictly before expiry,
      at the conversion's creation. */
  ghost predicate Backed(quotes: seq<QuoteRow>, c: ConversionRow) {
    var i := QuoteAt(quotes, c.quoteId);
    i < |quotes| && SameMoney(quotes[i], c) && quotes[i].acceptedAt == Some(c.createdAt)
      && c.createdAt < quotes[i].expiresAt
  }

  ghost predicate Named(conversions: seq<ConversionRow>, quoteId: string) {
    exists j :: 0 <= j < |conversions| && conversions[j].quoteId == quoteId
  }

  ghost predicate Known(conversions: seq<ConversionRow>, id: string) {
    ConversionAt(conversions, id) < |conversions|
  }

  ghost predicate QuotesOk(t: Tables) {
    && (forall i, j :: 0 <= i < j < |t.quotes| ==>
        t.quotes[i].id != t.quotes[j].id && t.quotes[i].key != t.quotes[j].key)
    && (forall i :: 0 <= i < |t.quotes| ==> Priced(t.quotes[i]))
    && (forall i :: 0 <= i < |t.quotes| && t.quotes[i].acceptedAt.Some? ==> Named(t.conversions, t.quotes[i].id))
    && (forall k :: k in t.rates ==> Canonical(t.rates[k].rate))
  }

  ghost predicate ConversionsOk(t: Tables) {
    && (forall i, j :: 0 <= i < j < |t.conversions| ==>
          && t.conversions[i].id != t.conversions[j].id
          && t.conversions[i].quoteId != t.conversions[j].quoteId
          && t.conversions[i].key != t.conversions[j].key)
    && (forall i :: 0 <= i < |t.conversions| ==> Backed(t.quotes, t.conversions[i]))
  }

  ghost predicate InboxOk(t: Tables) {
    && (forall i, j :: 0 <= i < j < |t.inbox| ==>
          t.inbox[i].id != t.inbox[j].id
          && (t.inbox[i].provider != t.inbox[j].provider || t.inbox[i].externalEventId != t.inbox[j].externalEventId))
    && (forall i :: 0 <= i < |t.inbox| ==> Known(t.conversions, t.inbox[i].conversionId))
  }

  ghost predicate OutboxOk(t: Tables) {
    && (forall i, j :: 0 <= i < j < |t.outbox| ==> t.outbox[i].id != t.outbox[j].id)
    && (forall i :: 0 <= i < |t.outbox| ==> Known(t.conversions, t.outbox[i].aggregateId))
    && |t.outbox| == |t.conversions| + |t.inbox|
  }

  ghost predicate Consistent(t: Tables) {
    QuotesOk(t) && ConversionsOk(t) && InboxOk(t) && OutboxOk(t)
  }

  // ---------- lookups across growth ----------

  lemma QuoteAtStable(a: Tables, b: Tables, id: string)
    requires Grows(a, b) && QuoteAt(a.quotes, id) < |a.quotes|
    ensures QuoteAt(b.quotes, id) == QuoteAt(a.quotes, id)
  {
    var i, j := QuoteAt(a.quotes, id), QuoteAt(b.quotes, id);
    assert SameQuote(a.quotes[i], b.quotes[i]);
  }

  lemma ConversionAtStable(a: Tables, b: Tables, id: string)
    requires Grows(a, b) && ConversionAt(a.conversions, id) < |a.conversions|
    ensures ConversionAt(b.conversions, id) == ConversionAt(a.conversions, id)
  {
    var i, j := ConversionAt(a.conversions, id), ConversionAt(b.conversions, id);
    assert SameTerms(a.conversions[i], b.conversions[i]);
  }

  lemma BackedStable(a: Tables, b: Tables, c: ConversionRow, d: ConversionRow)
    requires Grows(a, b) && Backed(a.quotes, c) && SameTerms(c, d)
    ensures Backed(b.quotes, d)
  {
    QuoteAtStable(a, b, c.quoteId);
  }

  // ---------- create quote ----------

  /** New prices the quote from the rate it is given. */
  lemma NewIsPriced(id: string, key: string, base: Money, target: Currency, rate: ExchangeRate,
                    feeBPS: Int64, minimumFee: Money, now: int, ttl: int)
    requires New(id, key, base, target, rate, feeBPS, minimumFee, now, ttl).Ok?
    requires Canonical(rate.rate)
    ensures var q := New(id, key, base, target, rate, feeBPS, minimumFee, now, ttl).value;
            Priced(QuoteFromDomain(q)) && QuoteFromDomain(q).ToDomain() == Ok(q)
  {
  }

  /** Exactly when a quote can be priced and inserted. */
  ghost predicate Quotable(rated: Tables, cur: Tables, req: QuoteRequest) {
    var key := RateKey(Frankfurter, req.base.currency, req.target);
    && key in rated.rates && Supported(req.base.currency) && Supported(req.target) && rated.rates[key].rate.coef > 0
    && req.id != "" && req.base.minor > 0 && req.ttl > 0
    && req.minimumFee.currency == req.base.currency && req.feeBPS >= 0
    && QuoteAt(cur.quotes, req.id) == |cur.quotes| && QuoteByKey(cur.quotes, req.key) == |cur.quotes|
  }

  lemma QuotedIff(rated: Tables, cur: Tables, req: QuoteRequest)
    requires QuotesOk(rated)
    ensures PriceAndInsert(rated, cur, req).Ok? <==> Quotable(rated, cur, req)
  {
  }

  ghost predicate Insertable(cur: Tables, q: QuoteRow) {
    && Priced(q) && q.acceptedAt.None?
    && QuoteAt(cur.quotes, q.id) == |cur.quotes| && QuoteByKey(cur.quotes, q.key) == |cur.quotes|
  }

  /** A committed quote: the rate came from the stored table, so pricing meets neither a corridor
      mismatch nor a rounded rate. */
  lemma CreateQuoteShape(rated: Tables, cur: Tables, req: QuoteRequest)
    requires QuotesOk(rated) && PriceAndInsert(rated, cur, req).Ok?
    ensures var (after, q) := PriceAndInsert(rated, cur, req).value;
            var row := QuoteFromDomain(q);
            && q.key == req.key && q.id == req.id && q.expiresAt == req.now + req.ttl
            && row.ToDomain() == Ok(q)
            && Insertable(cur, row)
            && after == cur.(quotes := cur.quotes + [row])
            && FeeFromBPS(req.base, req.feeBPS, req.minimumFee) == Ok(q.feeAmount)
  {
    var rate := CorridorRate(rated.rates, req.base.currency, req.target).value;
    NewIsPriced(req.id, req.key, req.base, req.target, rate, req.feeBPS, req.minimumFee, req.now, req.ttl);
  }

  /** A committed quote answers its request: for its base and target, at the corridor's stored rate. */
  lemma QuoteAnswersRequest(rated: Tables, cur: Tables, req: QuoteRequest)
    requires PriceAndInsert(rated, cur, req).Ok?
    ensures var q := PriceAndInsert(rated, cur, req).value.1;
            var stored := RateKey(Frankfurter, req.base.currency, req.target);
            && q.baseAmount == req.base && q.quoteAmount.currency == req.target && q.createdAt == req.now
            && stored in rated.rates && q.rate == rated.rates[stored].rate && q.rateProvider == Frankfurter
            && Ok(q.quoteAmount) == Convert(req.base, req.target, rated.rates[stored].rate)
            && Ok(q.totalDebit) == q.baseAmount.Add(q.feeAmount)
  {
    var created := New(req.id, req.key, req.base, req.target,
                       CorridorRate(rated.rates, req.base.currency, req.target).value,
                       req.feeBPS, req.minimumFee, req.now, req.ttl);
    assert created.Ok?;
  }

  function Inserted(cur: Tables, q: QuoteRow): Tables {
    cur.(quotes := cur.quotes + [q])
  }

  lemma InsertedGrows(cur: Tables, q: QuoteRow)
    ensures Grows(cur, Inserted(cur, q))
  {
  }

  lemma InsertedQuotesOk(cur: Tables, q: QuoteRow)
    requires QuotesOk(cur) && Insertable(cur, q)
    ensures QuotesOk(Inserted(cur, q))
  {
  }

  lemma InsertedConversionsOk(cur: Tables, q: QuoteRow)
    requires ConversionsOk(cur)
    ensures ConversionsOk(Inserted(cur, q))
  {
    var after := Inserted(cur, q);
    InsertedGrows(cur, q);
    forall i | 0 <= i < |after.conversions| ensures Backed(after.quotes, after.conversions[i]) {
      BackedStable(cur, after, cur.conversions[i], after.conversions[i]);
    }
  }

  lemma InsertedSafe(cur: Tables, q: QuoteRow)
    requires Consistent(cur) && Insertable(cur, q)
    ensures Consistent(Inserted(cur, q)) && Grows(cur, Inserted(cur, q))
  {
    InsertedGrows(cur, q);
    InsertedQuotesOk(cur, q);
    InsertedConversionsOk(cur, q);
  }

  lemma GrowsReflexive(t: Tables)
    ensures Grows(t, t)
  {
  }

  /** Either nothing changed, or the quote was priced and inserted. */
  lemma CreateQuoteOutcome(look: Tables, rated: Tables, cur: Tables, req: QuoteRequest)
    ensures var after := CreateQuote(look, rated, cur, req).tables;
            after == cur || (PriceAndInsert(rated, cur, req).Ok? && after == PriceAndInsert(rated, cur, req).value.0)
  {
  }

  lemma CreateQuoteSafe(look: Tables, rated: Tables, cur: Tables, req: QuoteRequest)
    requires QuotesOk(rated) && Consistent(cur)
    ensures var after := CreateQuote(look, rated, cur, req).tables;
            Consistent(after) && Grows(cur, after)
  {
    CreateQuoteOutcome(look, rated, cur, req);
    if CreateQuote(look, rated, cur, req).tables == cur {
      GrowsReflexive(cur);
    } else {
      CreateQuoteInserts(rated, cur, req);
    }
  }

  lemma CreateQuoteInserts(rated: Tables, cur: Tables, req: QuoteRequest)
    requires QuotesOk(rated) && Consistent(cur) && PriceAndInsert(rated, cur, req).Ok?
    ensures var after := PriceAndInsert(rated, cur, req).value.0;
            Consistent(after) && Grows(cur, after)
  {
    CreateQuoteShape(rated, cur, req);
    InsertedSafe(cur, QuoteFromDomain(PriceAndInsert(rated, cur, req).value.1));
  }

  // ---------- accept quote ----------

  function Accepted(cur: Tables, i: nat, row: ConversionRow, e: OutboxRow): Tables
    requires i < |cur.quotes|
  {
    Tables(cur.rates, cur.quotes[i := cur.quotes[i].(acceptedAt := Some(row.createdAt))],
           cur.conversions + [row], cur.inbox, cur.outbox + [e])
  }

  ghost predicate Acceptable(cur: Tables, i: nat, row: ConversionRow, e: OutboxRow) {
    && i == QuoteAt(cur.quotes, row.quoteId) < |cur.quotes|
    && cur.quotes[i].acceptedAt.None? && row.createdAt < cur.quotes[i].expiresAt
    && SameMoney(cur.quotes[i], row)
    && !ConversionClash(cur.conversions, row, |cur.conversions|)
    && e.aggregateId == row.id && OutboxAt(cur.outbox, e.id) == |cur.outbox|
  }

  /** What a committed acceptance changes: one quote is marked, one conversion and one event appear. */
  lemma AcceptShape(seen: Tables, cur: Tables, req: AcceptRequest)
    requires QuotesOk(seen) && Grows(seen, cur)
    requires AcceptBody(seen, cur, req).Ok?
    ensures var (after, c) := AcceptBody(seen, cur, req).value;
            var i, row, e := QuoteAt(cur.quotes, req.quoteId), ConversionFromDomain(c),
              CreatedEvent(c, req.eventId, req.now);
            && row.quoteId == req.quoteId && row.id == req.conversionId && row.key == req.key
              && row.createdAt == req.now
            && row.paymentProvider == req.paymentProvider && row.transferProvider == req.transferProvider
            && row.ToDomain() == Ok(c)
            && Acceptable(cur, i, row, e)
            && after == Accepted(cur, i, row, e)
  {
    var s := QuoteAt(seen.quotes, req.quoteId);
    QuoteAtStable(seen, cur, req.quoteId);
    assert Priced(seen.quotes[s]);
    assert SameQuote(seen.quotes[s], cur.quotes[s]);
  }

  lemma AcceptedGrows(cur: Tables, i: nat, row: ConversionRow, e: OutboxRow)
    requires Acceptable(cur, i, row, e)
    ensures Grows(cur, Accepted(cur, i, row, e))
  {
  }

  lemma AcceptedQuotesOk(cur: Tables, i: nat, row: ConversionRow, e: OutboxRow)
    requires QuotesOk(cur) && Acceptable(cur, i, row, e)
    ensures QuotesOk(Accepted(cur, i, row, e))
  {
    AcceptedNamed(cur, i, row, e);
    QuotesCarried(cur, Accepted(cur, i, row, e));
  }

  /** Quotes stay in order when only acceptances changed and each is named. */
  lemma QuotesCarried(cur: Tables, after: Tables)
    requires QuotesOk(cur) && after.rates == cur.rates && |after.quotes| == |cur.quotes|
    requires forall j :: 0 <= j < |cur.quotes| ==> SameQuote(cur.quotes[j], after.quotes[j])
    requires forall j :: 0 <= j < |after.quotes| && after.quotes[j].acceptedAt.Some? ==>
                  Named(after.conversions, after.quotes[j].id)
    ensures QuotesOk(after)
  {
    forall j | 0 <= j < |after.quotes| ensures Priced(after.quotes[j]) {
      assert Priced(cur.quotes[j]) && SameQuote(cur.quotes[j], after.quotes[j]);
    }
    forall i, j | 0 <= i < j < |after.quotes|
      ensures after.quotes[i].id != after.quotes[j].id && after.quotes[i].key != after.quotes[j].key
    {
      assert SameQuote(cur.quotes[i], after.quotes[i]) && SameQuote(cur.quotes[j], after.quotes[j]);
    }
  }

  lemma AcceptedNamed(cur: Tables, i: nat, row: ConversionRow, e: OutboxRow)
    requires QuotesOk(cur) && Acceptable(cur, i, row, e)
    ensures var after := Accepted(cur, i, row, e);
            forall j :: 0 <= j < |after.quotes| && after.quotes[j].acceptedAt.Some? ==>
                Named(after.conversions, after.quotes[j].id)
  {
    var after := Accepted(cur, i, row, e);
    forall j | 0 <= j < |after.quotes| && after.quotes[j].acceptedAt.Some?
      ensures Named(after.conversions, after.quotes[j].id)
    {
      if j == i {
        assert after.conversions[|cur.conversions|].quoteId == after.quotes[j].id;
      } else {
        NamedStable(cur.conversions, after.conversions, cur.quotes[j].id);
      }
    }
  }

  lemma NamedStable(a: seq<ConversionRow>, b: seq<ConversionRow>, quoteId: string)
    requires |a| <= |b| && forall i :: 0 <= i < |a| ==> a[i].quoteId == b[i].quoteId
    requires Named(a, quoteId)
    ensures Named(b, quoteId)
  {
    var k :| 0 <= k < |a| && a[k].quoteId == quoteId;
    assert b[k].quoteId == quoteId;
  }

  lemma AcceptedConversionsOk(cur: Tables, i: nat, row: ConversionRow, e: OutboxRow)
    requires ConversionsOk(cur) && Acceptable(cur, i, row, e)
    ensures ConversionsOk(Accepted(cur, i, row, e))
  {
    var after := Accepted(cur, i, row, e);
    AcceptedGrows(cur, i, row, e);
    forall j | 0 <= j < |after.conversions| ensures Backed(after.quotes, after.conversions[j]) {
      if j < |cur.conversions| {
        BackedStable(cur, after, cur.conversions[j], after.conversions[j]);
      } else {
        QuoteAtStable(cur, after, row.quoteId);
      }
    }
    assert forall j :: 0 <= j < |cur.conversions| ==> after.conversions[j] == cur.conversions[j];
  }

  lemma AcceptedEventsOk(cur: Tables, i: nat, row: ConversionRow, e: OutboxRow)
    requires InboxOk(cur) && OutboxOk(cur) && Acceptable(cur, i, row, e)
    ensures InboxOk(Accepted(cur, i, row, e)) && OutboxOk(Accepted(cur, i, row, e))
  {
    var after := Accepted(cur, i, row, e);
    AcceptedGrows(cur, i, row, e);
    KnownStable(cur, after);
    assert after.conversions[|cur.conversions|].id == row.id;
    assert Known(after.conversions, row.id);
    OutboxAppended(cur, after, e);
  }

  lemma AcceptedSafe(cur: Tables, i: nat, row: ConversionRow, e: OutboxRow)
    requires Consistent(cur) && Acceptable(cur, i, row, e)
    ensures Consistent(Accepted(cur, i, row, e)) && Grows(cur, Accepted(cur, i, row, e))
  {
    AcceptedGrows(cur, i, row, e);
    AcceptedQuotesOk(cur, i, row, e);
    AcceptedConversionsOk(cur, i, row, e);
    AcceptedEventsOk(cur, i, row, e);
  }

  lemma AcceptInserts(seen: Tables, cur: Tables, req: AcceptRequest)
    requires QuotesOk(seen) && Consistent(cur) && Grows(seen, cur) && AcceptBody(seen, cur, req).Ok?
    ensures var after := AcceptBody(seen, cur, req).value.0;
            Consistent(after) && Grows(cur, after)
  {
    AcceptShape(seen, cur, req);
    var c := AcceptBody(seen, cur, req).value.1;
    AcceptedSafe(cur, QuoteAt(cur.quotes, req.quoteId), ConversionFromDomain(c), CreatedEvent(c, req.eventId, req.now));
  }

  /** Either nothing changed, or the acceptance committed. */
  lemma AcceptOutcome(look: Tables, seen: Tables, cur: Tables, req: AcceptRequest)
    ensures var after := AcceptQuote(look, seen, cur, req).tables;
            after == cur || (AcceptBody(seen, cur, req).Ok? && after == AcceptBody(seen, cur, req).value.0)
  {
  }

  /** Even when the quote it read was stale, an acceptance keeps the invariant and changes nothing committed. */
  lemma AcceptSafe(look: Tables, seen: Tables, cur: Tables, req: AcceptRequest)
    requires QuotesOk(seen) && Consistent(cur) && Grows(seen, cur)
    ensures var after := AcceptQuote(look, seen, cur, req).tables;
            Consistent(after) && Grows(cur, after)
  {
    AcceptOutcome(look, seen, cur, req);
    if AcceptQuote(look, seen, cur, req).tables == cur {
      GrowsReflexive(cur);
    } else {
      AcceptInserts(seen, cur, req);
    }
  }

  lemma KnownStable(a: Tables, b: Tables)
    requires Grows(a, b)
    ensures forall id :: Known(a.conversions, id) ==> Known(b.conversions, id)
  {
    forall id | Known(a.conversions, id) ensures Known(b.conversions, id) {
      ConversionAtStable(a, b, id);
    }
  }

  // ---------- webhooks ----------

  lemma TransitionKeepsTerms(c: Conversion, d: Delivery)
    requires Transition(c, d).Ok?
    ensures SameTerms(ConversionFromDomain(c), ConversionFromDomain(Transition(c, d).value))
  {
  }

  function Moving(cur: Tables, i: nat, row: ConversionRow, m: InboxRow, e: OutboxRow): Tables
    requires i < |cur.conversions|
  {
    Tables(cur.rates, cur.quotes, cur.conversions[i := row], cur.inbox + [m], cur.outbox + [e])
  }

  ghost predicate Movable(cur: Tables, i: nat, row: ConversionRow, m: InboxRow, e: OutboxRow) {
    && i == ConversionAt(cur.conversions, m.conversionId) < |cur.conversions|
    && SameTerms(cur.conversions[i], row)
    && !InInbox(cur.inbox, m.provider, m.externalEventId)
    && (forall k :: 0 <= k < |cur.inbox| ==> cur.inbox[k].id != m.id)
    && e.aggregateId == row.id && OutboxAt(cur.outbox, e.id) == |cur.outbox|
  }

  /** The row a handler read converts to a domain value and back without loss. */
  lemma ReadRow(t: Tables, id: string)
    requires QuotesOk(t) && ConversionsOk(t) && Known(t.conversions, id)
    ensures var row := t.conversions[ConversionAt(t.conversions, id)];
            && row.id == id && Canonical(row.rate)
            && row.ToDomain().Ok? && GetConversion(t, id) == row.ToDomain()
            && ConversionFromDomain(row.ToDomain().value) == row
  {
    var row := t.conversions[ConversionAt(t.conversions, id)];
    assert Backed(t.quotes, row);
    assert Priced(t.quotes[QuoteAt(t.quotes, row.quoteId)]);
  }

  /** The statements a committed, non-duplicate webhook ran, one by one. */
  lemma WebhookStatements(seen: Tables, cur: Tables, d: Delivery)
    requires WebhookBody(seen, cur, d).Ok? && !WebhookBody(seen, cur, d).value.1.1
    ensures var (after, (c, _)) := WebhookBody(seen, cur, d).value;
            var i, row := ConversionAt(cur.conversions, d.conversionId), ConversionFromDomain(c);
            && Known(seen.conversions, d.conversionId) && GetConversion(seen, d.conversionId).Ok?
            && Transition(GetConversion(seen, d.conversionId).value, d) == Ok(c)
            && !InInbox(cur.inbox, d.provider, d.externalEventId)
            && (forall k :: 0 <= k < |cur.inbox| ==> cur.inbox[k].id != d.inboxId)
            && i < |cur.conversions|
            && OutboxAt(cur.outbox, d.eventId) == |cur.outbox|
            && row.ToDomain() == Ok(c)
            && (Canonical(row.rate) && row.id == d.conversionId ==>
                  after == Moving(cur, i, row, d.Message(), MovedEvent(c, d)))
  {
    var stored := cur.(inbox := cur.inbox + [d.Message()]);
    assert StoreIfAbsent(cur, d.Message()) == Ok((stored, true));
    var c := Transition(GetConversion(seen, d.conversionId).value, d).value;
    var saved := UpdateConversion(stored, ConversionFromDomain(c)).value;
    assert Enqueue(saved, MovedEvent(c, d)).Ok?;
  }

  /** What a committed, non-duplicate webhook changes: its inbox row, the state columns of its
      conversion (computed from the row it read) and one event. */
  lemma WebhookShape(seen: Tables, cur: Tables, d: Delivery)
    requires QuotesOk(seen) && ConversionsOk(seen) && Grows(seen, cur)
    requires WebhookBody(seen, cur, d).Ok? && !WebhookBody(seen, cur, d).value.1.1
    ensures var (after, (c, _)) := WebhookBody(seen, cur, d).value;
            var i, row := ConversionAt(cur.conversions, d.conversionId), ConversionFromDomain(c);
            && Movable(cur, i, row, d.Message(), MovedEvent(c, d))
            && after == Moving(cur, i, row, d.Message(), MovedEvent(c, d))
            && row.ToDomain() == Ok(c)
            && GetConversion(seen, d.conversionId).Ok?
            && Transition(GetConversion(seen, d.conversionId).value, d) == Ok(c)
  {
    WebhookStatements(seen, cur, d);
    ReadRow(seen, d.conversionId);
    ConversionAtStable(seen, cur, d.conversionId);
    TransitionKeepsTerms(GetConversion(seen, d.conversionId).value, d);
    var s := ConversionAt(seen.conversions, d.conversionId);
    assert SameTerms(seen.conversions[s], cur.conversions[s]);
  }

  /** A delivery that is a duplicate, or fails, leaves every table as it was. */
  lemma WebhookUnchanged(seen: Tables, cur: Tables, d: Delivery)
    requires WebhookBody(seen, cur, d).Err? || WebhookBody(seen, cur, d).value.1.1
    ensures Webhook(seen, cur, d).tables == cur
  {
  }

  lemma MovingGrows(cur: Tables, i: nat, row: ConversionRow, m: InboxRow, e: OutboxRow)
    requires Movable(cur, i, row, m, e)
    ensures Grows(cur, Moving(cur, i, row, m, e))
  {
  }

  lemma MovingQuotesOk(cur: Tables, i: nat, row: ConversionRow, m: InboxRow, e: OutboxRow)
    requires QuotesOk(cur) && Movable(cur, i, row, m, e)
    ensures QuotesOk(Moving(cur, i, row, m, e))
  {
    var after := Moving(cur, i, row, m, e);
    forall j | 0 <= j < |after.quotes| && after.quotes[j].acceptedAt.Some?
      ensures Named(after.conversions, after.quotes[j].id)
    {
      NamedStable(cur.conversions, after.conversions, cur.quotes[j].id);
    }
  }

  lemma MovingConversionsOk(cur: Tables, i: nat, row: ConversionRow, m: InboxRow, e: OutboxRow)
    requires ConversionsOk(cur) && Movable(cur, i, row, m, e)
    ensures ConversionsOk(Moving(cur, i, row, m, e))
  {
    var after := Moving(cur, i, row, m, e);
    MovingGrows(cur, i, row, m, e);
    forall j | 0 <= j < |after.conversions|
      ensures SameTerms(cur.conversions[j], after.conversions[j]) && Backed(after.quotes, after.conversions[j])
    {
      BackedStable(cur, after, cur.conversions[j], after.conversions[j]);
    }
  }

  lemma MovingEventsOk(cur: Tables, i: nat, row: ConversionRow, m: InboxRow, e: OutboxRow)
    requires InboxOk(cur) && OutboxOk(cur) && Movable(cur, i, row, m, e)
    ensures InboxOk(Moving(cur, i, row, m, e)) && OutboxOk(Moving(cur, i, row, m, e))
  {
    MovingGrows(cur, i, row, m, e);
    KnownStable(cur, Moving(cur, i, row, m, e));
    assert Known(cur.conversions, m.conversionId) && row.id == m.conversionId;
    InboxAppended(cur, Moving(cur, i, row, m, e), m);
    OutboxAppended(cur, Moving(cur, i, row, m, e), e);
  }

  lemma InboxAppended(cur: Tables, after: Tables, m: InboxRow)
    requires InboxOk(cur) && after.inbox == cur.inbox + [m] && Known(after.conversions, m.conversionId)
    requires forall id :: Known(cur.conversions, id) ==> Known(after.conversions, id)
    requires !InInbox(cur.inbox, m.provider, m.externalEventId)
    requires forall k :: 0 <= k < |cur.inbox| ==> cur.inbox[k].id != m.id
    ensures InboxOk(after)
  {
  }

  lemma OutboxAppended(cur: Tables, after: Tables, e: OutboxRow)
    requires OutboxOk(cur) && after.outbox == cur.outbox + [e] && Known(after.conversions, e.aggregateId)
    requires forall id :: Known(cur.conversions, id) ==> Known(after.conversions, id)
    requires OutboxAt(cur.outbox, e.id) == |cur.outbox|
    requires |after.conversions| + |after.inbox| == |cur.conversions| + |cur.inbox| + 1
    ensures OutboxOk(after)
  {
  }

  /** Even when the conversion it read was stale, a webhook keeps the invariant and every amount. */
  lemma WebhookSafe(seen: Tables, cur: Tables, d: Delivery)
    requires Consistent(seen) && Consistent(cur) && Grows(seen, cur)
    ensures var after := Webhook(seen, cur, d).tables;
            Consistent(after) && Grows(cur, after)
  {
    if WebhookBody(seen, cur, d).Ok? && !WebhookBody(seen, cur, d).value.1.1 {
      WebhookMoves(seen, cur, d);
    } else {
      WebhookUnchanged(seen, cur, d);
    }
  }

  lemma WebhookMoves(seen: Tables, cur: Tables, d: Delivery)
    requires QuotesOk(seen) && ConversionsOk(seen) && Grows(seen, cur) && Consistent(cur)
    requires WebhookBody(seen, cur, d).Ok? && !WebhookBody(seen, cur, d).value.1.1
    ensures Consistent(WebhookBody(seen, cur, d).value.0) && Grows(cur, WebhookBody(seen, cur, d).value.0)
  {
    WebhookShape(seen, cur, d);
    var c := WebhookBody(seen, cur, d).value.1.0;
    MovingSafe(cur, ConversionAt(cur.conversions, d.conversionId), ConversionFromDomain(c), d.Message(),
               MovedEvent(c, d));
  }

  lemma MovingSafe(cur: Tables, i: nat, row: ConversionRow, m: InboxRow, e: OutboxRow)
    requires Consistent(cur) && Movable(cur, i, row, m, e)
    ensures Consistent(Moving(cur, i, row, m, e)) && Grows(cur, Moving(cur, i, row, m, e))
  {
    MovingGrows(cur, i, row, m, e);
    MovingQuotesOk(cur, i, row, m, e);
    MovingConversionsOk(cur, i, row, m, e);
    MovingEventsOk(cur, i, row, m, e);
  }

  // ---------- rates and publication ----------

  lemma UpsertSafe(cur: Tables, batch: seq<ExchangeRate>, at: int)
    requires Consistent(cur) && UpsertRates(cur.rates, batch, at).Ok?
    ensures var after := cur.(rates := UpsertRates(cur.rates, batch, at).value);
            Consistent(after) && Grows(cur, after)
  {
    var after := cur.(rates := UpsertRates(cur.rates, batch, at).value);
    assert QuotesOk(after);
  }

  lemma MarkShape(rows: seq<OutboxRow>, id: string, error: Option<string>, at: int)
    requires Mark(rows, id, error, at).Ok?
    ensures var after, i := Mark(rows, id, error, at).value, OutboxAt(rows, id);
            && |after| == |rows|
            && (forall j :: 0 <= j < |rows| ==> SameEvent(rows[j], after[j]))
            && (forall j :: 0 <= j < |rows| && j != i ==> after[j] == rows[j])
            && after[i].attempts == rows[i].attempts + 1
            && after[i].publishedAt == (if error.None? then Some(at) else rows[i].publishedAt)
  {
  }

  lemma MarkSafe(cur: Tables, id: string, error: Option<string>, at: int)
    requires Consistent(cur) && Mark(cur.outbox, id, error, at).Ok?
    ensures var after := cur.(outbox := Mark(cur.outbox, id, error, at).value);
            Consistent(after) && Grows(cur, after)
  {
    MarkShape(cur.outbox, id, error, at);
    MarkGrows(cur, id, error, at);
    OutboxReplaced(cur, Mark(cur.outbox, id, error, at).value);
  }

  lemma MarkGrows(cur: Tables, id: string, error: Option<string>, at: int)
    requires Mark(cur.outbox, id, error, at).Ok?
    ensures Grows(cur, cur.(outbox := Mark(cur.outbox, id, error, at).value))
  {
    MarkShape(cur.outbox, id, error, at);
  }

  lemma OutboxReplaced(cur: Tables, rows: seq<OutboxRow>)
    requires Consistent(cur) && |rows| == |cur.outbox|
    requires forall j :: 0 <= j < |rows| ==> SameEvent(cur.outbox[j], rows[j])
    ensures Consistent(cur.(outbox := rows))
  {
    OutboxRowsReplaced(cur, rows);
  }

  lemma OutboxRowsReplaced(cur: Tables, rows: seq<OutboxRow>)
    requires OutboxOk(cur) && |rows| == |cur.outbox|
    requires forall j :: 0 <= j < |rows| ==> SameEvent(cur.outbox[j], rows[j])
    ensures OutboxOk(cur.(outbox := rows))
  {
    assert forall j :: 0 <= j < |rows| ==>
        rows[j].id == cur.outbox[j].id && rows[j].aggregateId == cur.outbox[j].aggregateId;
  }
}
