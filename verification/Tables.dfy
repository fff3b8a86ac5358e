/** The five tables, the row mappings of the Postgres store, and each SQL statement as a function
    from the committed tables to new tables or an error. Rows stand in insertion order. */
module Tables {
  import opened Core
  import opened Money
  import opened Quotes
  import opened Conversions

  // ---------- NUMERIC(20,10) ----------

  const NUMERIC_LIMIT: int := 100_000_000_000_000_000_000

  /** A decimal exactly as a NUMERIC(20,10) column holds it. */
  predicate Canonical(d: Decimal) {
    d.exp == -10 && -NUMERIC_LIMIT < d.coef < NUMERIC_LIMIT
  }

  /** The integer nearest to n/d, ties away from zero. */
  function HalfAway(n: int, d: int): int
    requires d > 0
  {
    if n >= 0 then (2 * n + d) / (2 * d) else -((2 * -n + d) / (2 * d))
  }

  /** The decimal in units of its tenth decimal place, rounded. */
  function TenPlaces(d: Decimal): int {
    if d.exp >= -10 then d.coef * Pow10(d.exp + 10) else HalfAway(d.coef, Pow10(-10 - d.exp))
  }

  /** Storing a decimal in a NUMERIC(20,10) column: ten places are kept, too large a value is refused. */
  function CastNumeric(d: Decimal): (r: Option<Decimal>)
    ensures r.Some? ==> Canonical(r.value)
    ensures Canonical(d) ==> r == Some(d)
  {
    var scaled := TenPlaces(d);
    if -NUMERIC_LIMIT < scaled < NUMERIC_LIMIT then Some(Decimal(scaled, -10)) else None
  }

  // ---------- rows ----------

  function MustCurrency(raw: Currency): Result<Currency> {
    if Supported(raw) then Ok(raw) else Err(Panic)
  }

  datatype RateKey = RateKey(provider: Provider, base: Currency, quote: Currency)

  datatype RateRow = RateRow(rate: Decimal, observedAt: int, fetchedAt: int, updatedAt: int) {
    function ToDomain(key: RateKey): Result<ExchangeRate> {
      var base :- MustCurrency(key.base);
      var quote :- MustCurrency(key.quote);
      Ok(ExchangeRate(base, quote, key.provider, rate, observedAt, fetchedAt))
    }
  }

  datatype QuoteRow = QuoteRow(
    id: string, key: string,
    baseCurrency: Currency, baseMinor: Int64, quoteCurrency: Currency, quoteMinor: Int64,
    feeMinor: Int64, totalMinor: Int64,
    rate: Decimal, rateProvider: Provider,
    expiresAt: int, acceptedAt: Option<int>, createdAt: int)
  {
    function ToDomain(): Result<Quote> {
      var base :- MustCurrency(baseCurrency);
      var target :- MustCurrency(quoteCurrency);
      Ok(Quote(id, key, Money(base, baseMinor), Money(target, quoteMinor), Money(base, feeMinor),
               Money(base, totalMinor), rate, rateProvider, expiresAt, acceptedAt, createdAt))
    }
  }

  function QuoteFromDomain(q: Quote): QuoteRow {
    QuoteRow(q.id, q.key, q.baseAmount.currency, q.baseAmount.minor, q.quoteAmount.currency, q.quoteAmount.minor,
             q.feeAmount.minor, q.totalDebit.minor, q.rate, q.rateProvider, q.expiresAt, q.acceptedAt, q.createdAt)
  }

  datatype ConversionRow = ConversionRow(
    id: string, quoteId: string, key: string,
    baseCurrency: Currency, baseMinor: Int64, quoteCurrency: Currency, quoteMinor: Int64,
    feeMinor: Int64, totalMinor: Int64,
    rate: Decimal, rateProvider: Provider, paymentProvider: Provider, transferProvider: Provider,
    status: Status,
    externalPaymentId: Option<string>, externalTransferId: Option<string>, failureReason: Option<string>,
    createdAt: int, updatedAt: int)
  {
    function ToDomain(): Result<Conversion> {
      var base :- MustCurrency(baseCurrency);
      var target :- MustCurrency(quoteCurrency);
      Ok(Conversion(id, quoteId, key, Money(base, baseMinor), Money(target, quoteMinor), Money(base, feeMinor),
                    Money(base, totalMinor), rate, rateProvider, paymentProvider, transferProvider, status,
                    externalPaymentId, externalTransferId, failureReason, createdAt, updatedAt))
    }
  }

  function ConversionFromDomain(c: Conversion): ConversionRow {
    ConversionRow(c.id, c.quoteId, c.key, c.baseAmount.currency, c.baseAmount.minor,
                  c.quoteAmount.currency, c.quoteAmount.minor, c.feeAmount.minor, c.totalDebit.minor,
                  c.rate, c.rateProvider, c.paymentProvider, c.transferProvider, c.status,
                  c.externalPaymentId, c.externalTransferId, c.failureReason, c.createdAt, c.updatedAt)
  }

  datatype InboxRow = InboxRow(
    id: string, provider: Provider, topic: Topic, externalEventId: string, conversionId: string,
    externalRef: Option<string>, payload: string, receivedAt: int, processedAt: Option<int>)
  {
    function Validate(): Result<()> {
      if id == "" || provider == OtherProvider("") || topic == Other("") || externalEventId == "" || conversionId == ""
      then Err(Validation) else Ok(())
    }
  }

  /** conversion.created, or "conversion." followed by the status. */
  datatype EventType = Created | Moved(status: Status)

  datatype Payload =
    | CreatedPayload(conversionId: string, quoteId: string, status: Status)
    | MovedPayload(conversionId: string, status: Status, provider: Provider)

  datatype OutboxRow = OutboxRow(
    id: string, aggregateId: string, eventType: EventType, payload: Payload,
    attempts: nat, lastError: Option<string>, createdAt: int, publishedAt: Option<int>)

  datatype Tables = Tables(
    rates: map<RateKey, RateRow>,
    quotes: seq<QuoteRow>,
    conversions: seq<ConversionRow>,
    inbox: seq<InboxRow>,
    outbox: seq<OutboxRow>)

  const EMPTY := Tables(map[], [], [], [], [])

  // ---------- lookups: the index of the matching row, or the table's length ----------

  function QuoteAt(rows: seq<QuoteRow>, id: string): (i: nat)
    ensures i <= |rows|
    ensures i < |rows| ==> rows[i].id == id
    ensures forall j :: 0 <= j < i ==> rows[j].id != id
  {
    Find(rows, (r: QuoteRow) => r.id == id)
  }

  function QuoteByKey(rows: seq<QuoteRow>, key: string): (i: nat)
    ensures i <= |rows|
    ensures i < |rows| ==> rows[i].key == key
    ensures forall j :: 0 <= j < i ==> rows[j].key != key
  {
    Find(rows, (r: QuoteRow) => r.key == key)
  }

  function ConversionAt(rows: seq<ConversionRow>, id: string): (i: nat)
    ensures i <= |rows|
    ensures i < |rows| ==> rows[i].id == id
    ensures forall j :: 0 <= j < i ==> rows[j].id != id
  {
    Find(rows, (r: ConversionRow) => r.id == id)
  }

  function ConversionByKey(rows: seq<ConversionRow>, key: string): (i: nat)
    ensures i <= |rows|
    ensures i < |rows| ==> rows[i].key == key
    ensures forall j :: 0 <= j < i ==> rows[j].key != key
  {
    Find(rows, (r: ConversionRow) => r.key == key)
  }

  predicate InInbox(rows: seq<InboxRow>, provider: Provider, externalEventId: string) {
    exists i :: 0 <= i < |rows| && rows[i].provider == provider && rows[i].externalEventId == externalEventId
  }

  function OutboxAt(rows: seq<OutboxRow>, id: string): (i: nat)
    ensures i <= |rows|
    ensures i < |rows| ==> rows[i].id == id
    ensures forall j :: 0 <= j < i ==> rows[j].id != id
  {
    Find(rows, (r: OutboxRow) => r.id == id)
  }

  // ---------- statements ----------

  function GetQuote(t: Tables, id: string): Result<Quote> {
    var i := QuoteAt(t.quotes, id);
    if i == |t.quotes| then Err(NotFound) else t.quotes[i].ToDomain()
  }

  function GetConversion(t: Tables, id: string): Result<Conversion> {
    var i := ConversionAt(t.conversions, id);
    if i == |t.conversions| then Err(NotFound) else t.conversions[i].ToDomain()
  }

  /** INSERT INTO quotes, with PRIMARY KEY (id) and UNIQUE (idempotency_key). */
  function InsertQuote(t: Tables, q: QuoteRow): Result<Tables> {
    var stored := CastNumeric(q.rate);
    if stored.None? then Err(Internal)
    else if QuoteAt(t.quotes, q.id) < |t.quotes| || QuoteByKey(t.quotes, q.key) < |t.quotes| then Err(Conflict)
    else Ok(t.(quotes := t.quotes + [q.(rate := stored.value)]))
  }

  /** The guarded UPDATE: only an unaccepted quote that expires strictly later is marked. */
  function MarkAccepted(t: Tables, id: string, at: int): Result<Tables> {
    var i := QuoteAt(t.quotes, id);
    if i < |t.quotes| && t.quotes[i].acceptedAt.None? && t.quotes[i].expiresAt > at
    then Ok(t.(quotes := t.quotes[i := t.quotes[i].(acceptedAt := Some(at))]))
    else Err(Conflict)
  }

  predicate ConversionClash(rows: seq<ConversionRow>, c: ConversionRow, except: nat) {
    exists i :: 0 <= i < |rows| && i != except
                && (rows[i].id == c.id || rows[i].quoteId == c.quoteId || rows[i].key == c.key)
  }

  /** INSERT INTO conversions, with its primary key, both UNIQUE columns and the quote foreign key. */
  function InsertConversion(t: Tables, c: ConversionRow): Result<Tables> {
    var stored := CastNumeric(c.rate);
    if stored.None? then Err(Internal)
    else if ConversionClash(t.conversions, c, |t.conversions|) then Err(Conflict)
    else if QuoteAt(t.quotes, c.quoteId) == |t.quotes| then Err(Internal)
    else Ok(t.(conversions := t.conversions + [c.(rate := stored.value)]))
  }

  /** UPDATE of every column of the row with this id. */
  function UpdateConversion(t: Tables, c: ConversionRow): Result<Tables> {
    var stored, i := CastNumeric(c.rate), ConversionAt(t.conversions, c.id);
    if stored.None? then Err(Internal)
    else if i == |t.conversions| then Err(NotFound)
    else if ConversionClash(t.conversions, c, i) then Err(Internal)
    else if QuoteAt(t.quotes, c.quoteId) == |t.quotes| then Err(Internal)
    else Ok(t.(conversions := t.conversions[i := c.(rate := stored.value)]))
  }

  /** INSERT ... ON CONFLICT (provider, external_event_id) DO NOTHING; false when nothing was stored. */
  function StoreIfAbsent(t: Tables, m: InboxRow): Result<(Tables, bool)> {
    var _ :- m.Validate();
    if InInbox(t.inbox, m.provider, m.externalEventId) then Ok((t, false))
    else if exists i :: 0 <= i < |t.inbox| && t.inbox[i].id == m.id then Err(Internal)
    else if ConversionAt(t.conversions, m.conversionId) == |t.conversions| then Err(Internal)
    else Ok((t.(inbox := t.inbox + [m]), true))
  }

  function Enqueue(t: Tables, e: OutboxRow): Result<Tables> {
    if OutboxAt(t.outbox, e.id) < |t.outbox| then Err(Internal)
    else Ok(t.(outbox := t.outbox + [e]))
  }

  /** MarkPublished when the publisher accepted the event (`None`), MarkPublishFailed otherwise. */
  function Mark(rows: seq<OutboxRow>, id: string, error: Option<string>, at: int): Result<seq<OutboxRow>> {
    var i := OutboxAt(rows, id);
    if i == |rows| then Err(NotFound)
    else
      var marked := rows[i].(attempts := rows[i].attempts + 1, lastError := error);
      Ok(rows[i := if error.None? then marked.(publishedAt := Some(at)) else marked])
  }

  function KeyOf(r: ExchangeRate): RateKey {
    RateKey(r.provider, r.base, r.quote)
  }

  predicate ValidBatch(batch: seq<ExchangeRate>) {
    forall i :: 0 <= i < |batch| ==> batch[i].Validate().Ok?
  }

  /** A batch one INSERT ... ON CONFLICT DO UPDATE accepts: no key twice, every rate storable. */
  predicate StorableBatch(batch: seq<ExchangeRate>) {
    && (forall i, j :: 0 <= i < j < |batch| ==> KeyOf(batch[i]) != KeyOf(batch[j]))
    && (forall i :: 0 <= i < |batch| ==> CastNumeric(batch[i].rate).Some?)
  }

  function StoredRate(r: ExchangeRate, at: int): RateRow
    requires CastNumeric(r.rate).Some?
  {
    RateRow(CastNumeric(r.rate).value, r.observedAt, r.fetchedAt, at)
  }

  function WithRates(rates: map<RateKey, RateRow>, batch: seq<ExchangeRate>, at: int): (r: map<RateKey, RateRow>)
    requires forall i :: 0 <= i < |batch| ==> CastNumeric(batch[i].rate).Some?
    ensures forall k :: k in rates ==> k in r
    ensures forall k :: k in r && k !in rates ==> exists i :: 0 <= i < |batch| && KeyOf(batch[i]) == k
    ensures forall k :: k in r ==> (k in rates && r[k] == rates[k]) || Canonical(r[k].rate)
  {
    if batch == [] then rates
    else
      var last := batch[|batch| - 1];
      WithRates(rates, batch[..|batch| - 1], at)
        [KeyOf(last) := StoredRate(last, at)]
  }

  lemma {:induction false} BatchRateStored(rates: map<RateKey, RateRow>, batch: seq<ExchangeRate>, at: int, i: nat)
    requires StorableBatch(batch) && i < |batch|
    ensures KeyOf(batch[i]) in WithRates(rates, batch, at)
    ensures WithRates(rates, batch, at)[KeyOf(batch[i])] == StoredRate(batch[i], at)
  {
    var n := |batch| - 1;
    if i < n {
      assert StorableBatch(batch[..n]);
      BatchRateStored(rates, batch[..n], at, i);
      assert KeyOf(batch[i]) != KeyOf(batch[n]);
    }
  }

  lemma {:induction false} OtherRateKept(rates: map<RateKey, RateRow>, batch: seq<ExchangeRate>, at: int, key: RateKey)
    requires StorableBatch(batch) && key in rates && forall i :: 0 <= i < |batch| ==> KeyOf(batch[i]) != key
    ensures key in WithRates(rates, batch, at) && WithRates(rates, batch, at)[key] == rates[key]
  {
    if batch != [] {
      assert StorableBatch(batch[..|batch| - 1]);
      OtherRateKept(rates, batch[..|batch| - 1], at, key);
    }
  }

  function UpsertRates(rates: map<RateKey, RateRow>, batch: seq<ExchangeRate>, at: int): Result<map<RateKey, RateRow>> {
    if !ValidBatch(batch) then Err(Validation)
    else if !StorableBatch(batch) then Err(Internal)
    else Ok(WithRates(rates, batch, at))
  }
}
