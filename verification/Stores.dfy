/** The Postgres store as an object: each method runs its statement on the current tables, and a
    transaction restores them when it fails. */
module Stores {
  import opened Core
  import opened Money
  import opened MoneyProofs
  import opened Quotes
  import opened Conversions
  import opened Tables
  import opened Numeric

  /** The rows still to be published, in insertion order. */
  function Pendings(rows: seq<OutboxRow>): seq<OutboxRow> {
    if rows == [] then []
    else Pendings(rows[..|rows| - 1]) + if rows[|rows| - 1].publishedAt.None? then [rows[|rows| - 1]] else []
  }

  function Cap(limit: int): nat {
    if limit <= 0 then 100 else limit
  }

  /** A page ListPending may return: the earliest pending rows, at most `Cap(limit)` of them, sorted by
      creation time, ties in any order. */
  ghost predicate PendingPage(rows: seq<OutboxRow>, limit: int, page: seq<OutboxRow>) {
    && |page| == (if |Pendings(rows)| <= Cap(limit) then |Pendings(rows)| else Cap(limit))
    && multiset(page) <= multiset(Pendings(rows))
    && (forall i, j :: 0 <= i < j < |page| ==> page[i].createdAt <= page[j].createdAt)
    && (forall r, i :: 0 <= i < |page| && r in multiset(Pendings(rows)) - multiset(page) ==>
        page[i].createdAt <= r.createdAt)
  }

  /** The rows of one base currency for the requested quote currencies, each once, in any order. */
  ghost predicate Listing(rates: map<RateKey, RateRow>, base: Currency, quotes: seq<Currency>,
                          list: seq<ExchangeRate>) {
    && (forall i :: 0 <= i < |list| ==>
          var key := RateKey(Frankfurter, base, list[i].quote);
          list[i].quote in quotes && key in rates && rates[key].ToDomain(key) == Ok(list[i]))
    && (forall i, j :: 0 <= i < j < |list| ==> list[i].quote != list[j].quote)
    && (forall q :: q in quotes && RateKey(Frankfurter, base, q) in rates ==>
        exists i :: 0 <= i < |list| && list[i].quote == q)
  }

  ghost predicate UniqueQuotes(rows: seq<QuoteRow>) {
    forall i, j :: 0 <= i < j < |rows| ==> rows[i].id != rows[j].id
  }

  /** Some row has this id or this idempotency key. */
  ghost predicate QuoteClash(rows: seq<QuoteRow>, id: string, key: string) {
    exists i :: 0 <= i < |rows| && (rows[i].id == id || rows[i].key == key)
  }

  /** Row i is the named quote, not accepted, and expires strictly later. */
  ghost predicate OpenQuote(rows: seq<QuoteRow>, i: nat, id: string, at: int) {
    i < |rows| && rows[i].id == id && rows[i].acceptedAt.None? && at < rows[i].expiresAt
  }

  /** Some row has this conversion's id, quote or idempotency key. */
  ghost predicate Duplicates(rows: seq<ConversionRow>, c: Conversion) {
    exists i :: 0 <= i < |rows| && (rows[i].id == c.id || rows[i].quoteId == c.quoteId || rows[i].key == c.key)
  }

  /** Some row other than this conversion's own has its id, quote or idempotency key. */
  ghost predicate ClashesElsewhere(rows: seq<ConversionRow>, c: Conversion) {
    exists i :: 0 <= i < |rows| && i != ConversionAt(rows, c.id)
                && (rows[i].id == c.id || rows[i].quoteId == c.quoteId || rows[i].key == c.key)
  }

  /** The row of this conversion, and no other, now holds it, with its rate as the column keeps it. */
  ghost predicate Rewritten(before: seq<ConversionRow>, after: seq<ConversionRow>, c: Conversion) {
    && CastNumeric(c.rate).Some?
    && exists i :: 0 <= i < |before| && before[i].id == c.id
                   && after == before[i := ConversionFromDomain(c).(rate := CastNumeric(c.rate).value)]
  }

  /** A stored rate that does not map back, its currency code being unknown. */
  ghost predicate Unreadable(rates: map<RateKey, RateRow>, key: RateKey) {
    key in rates && rates[key].ToDomain(key).Err?
  }

  ghost predicate SameCorridor(a: ExchangeRate, b: ExchangeRate) {
    a.provider == b.provider && a.base == b.base && a.quote == b.quote
  }

  /** A rate with an empty currency or provider, or not positive. */
  ghost predicate Malformed(rate: ExchangeRate) {
    || rate.base == Unknown("") || rate.quote == Unknown("") || rate.provider == OtherProvider("")
    || rate.rate.Value() <= 0.0
  }

  /** The part of a page picked so far, against what is left to pick from. */
  ghost predicate Picked(all: seq<OutboxRow>, page: seq<OutboxRow>, pool: seq<OutboxRow>) {
    && multiset(page) + multiset(pool) == multiset(all)
    && |page| + |pool| == |all|
    && (forall i, j :: 0 <= i < j < |page| ==> page[i].createdAt <= page[j].createdAt)
    && (forall i, k :: 0 <= i < |page| && 0 <= k < |pool| ==> page[i].createdAt <= pool[k].createdAt)
  }

  lemma PickEarliest(all: seq<OutboxRow>, page: seq<OutboxRow>, pool: seq<OutboxRow>, k: nat)
    requires Picked(all, page, pool) && k < |pool|
    requires forall i :: 0 <= i < |pool| ==> pool[k].createdAt <= pool[i].createdAt
    ensures Picked(all, page + [pool[k]], pool[..k] + pool[k + 1..])
  {
    Removal(pool, k);
    var rest := pool[..k] + pool[k + 1..];
    assert multiset(page + [pool[k]]) == multiset(page) + multiset{pool[k]};
    assert forall i :: 0 <= i < |rest| ==> rest[i] == if i < k then pool[i] else pool[i + 1];
  }

  lemma Removal(pool: seq<OutboxRow>, k: nat)
    requires k < |pool|
    ensures multiset(pool) == multiset{pool[k]} + multiset(pool[..k] + pool[k + 1..])
  {
    assert pool == pool[..k] + [pool[k]] + pool[k + 1..];
  }

  lemma PickedPage(rows: seq<OutboxRow>, limit: int, page: seq<OutboxRow>, pool: seq<OutboxRow>)
    requires Picked(Pendings(rows), page, pool)
    requires |page| <= Cap(limit) && (pool == [] || |page| == Cap(limit))
    ensures PendingPage(rows, limit, page)
  {
    assert multiset(Pendings(rows)) - multiset(page) == multiset(pool);
    forall r, i | 0 <= i < |page| && r in multiset(Pendings(rows)) - multiset(page)
      ensures page[i].createdAt <= r.createdAt
    {
      assert r in pool;
    }
  }

  lemma MalformedIff(batch: seq<ExchangeRate>)
    ensures ValidBatch(batch) <==> forall i :: 0 <= i < |batch| ==> !Malformed(batch[i])
  {
    forall i | 0 <= i < |batch| ensures batch[i].Validate().Ok? <==> !Malformed(batch[i]) {
      SignOfValue(batch[i].rate);
    }
    if forall i :: 0 <= i < |batch| ==> !Malformed(batch[i]) {
      assert forall i :: 0 <= i < |batch| ==> batch[i].Validate().Ok?;
    }
  }

  /** A webhook message that lacks its id, provider, topic, event id or conversion. */
  ghost predicate Incomplete(m: InboxRow) {
    m.id == "" || m.provider == OtherProvider("") || m.topic == Other("") || m.externalEventId == ""
      || m.conversionId == ""
  }

  class Store {
    var rates: map<RateKey, RateRow>
    var quotes: seq<QuoteRow>
    var conversions: seq<ConversionRow>
    var inbox: seq<InboxRow>
    var outbox: seq<OutboxRow>

    ghost function View(): Tables
      reads this
    {
      Tables(rates, quotes, conversions, inbox, outbox)
    }

    constructor ()
      ensures View() == EMPTY
    {
      rates, quotes, conversions, inbox, outbox := map[], [], [], [], [];
    }

    // ---------- transactions ----------

    method Begin() returns (saved: Tables)
      ensures saved == View()
    {
      saved := Tables(rates, quotes, conversions, inbox, outbox);
    }

    method Rollback(saved: Tables)
      modifies this
      ensures View() == saved
    {
      rates, quotes, conversions, inbox, outbox :=
        saved.rates, saved.quotes, saved.conversions, saved.inbox, saved.outbox;
    }

    // ---------- quotes ----------

    method GetQuoteByID(id: string) returns (r: Result<Quote>)
      ensures r == GetQuote(View(), id)
      ensures r == Err(NotFound) <==> forall i :: 0 <= i < |quotes| ==> quotes[i].id != id
      ensures r.Ok? ==> r.value.id == id && exists i :: 0 <= i < |quotes| && quotes[i].ToDomain() == r
    {
      var i := QuoteAt(quotes, id);
      if i == |quotes| {
        return Err(NotFound);
      }
      r := quotes[i].ToDomain();
    }

    method GetQuoteByIdempotencyKey(key: string) returns (found: bool, r: Result<Quote>)
      ensures found <==> QuoteByKey(quotes, key) < |quotes|
      ensures found <==> exists i :: 0 <= i < |quotes| && quotes[i].key == key
      ensures found ==> r == quotes[QuoteByKey(quotes, key)].ToDomain()
    {
      var i := QuoteByKey(quotes, key);
      if i == |quotes| {
        return false, Err(NotFound);
      }
      return true, quotes[i].ToDomain();
    }

    method CreateQuote(value: Quote) returns (r: Result<Quote>)
      modifies this`quotes
      ensures match InsertQuote(old(View()), QuoteFromDomain(value))
              case Ok(after) => View() == after && r == QuoteFromDomain(value).ToDomain()
              case Err(code) => View() == old(View()) && r == Err(code)
      ensures r == Err(Internal) <==> CastNumeric(value.rate).None?
      ensures r == Err(Conflict) <==> CastNumeric(value.rate).Some? && QuoteClash(old(quotes), value.id, value.key)
      ensures r != Err(Internal) && r != Err(Conflict) ==>
                quotes == old(quotes) + [QuoteFromDomain(value).(rate := CastNumeric(value.rate).value)]
    {
      var row := QuoteFromDomain(value);
      var numeric := CastNumeric(row.rate);
      if numeric.None? {
        return Err(Internal);
      }
      if QuoteAt(quotes, row.id) < |quotes| || QuoteByKey(quotes, row.key) < |quotes| {
        return Err(Conflict);
      }
      quotes := quotes + [row.(rate := numeric.value)];
      r := row.ToDomain();
    }

    method MarkQuoteAccepted(id: string, at: int) returns (r: Result<()>)
      modifies this`quotes
      ensures match MarkAccepted(old(View()), id, at)
              case Ok(after) => View() == after && r == Ok(())
              case Err(code) => View() == old(View()) && r == Err(code)
      ensures UniqueQuotes(old(quotes)) ==> (r.Ok? <==> exists i: nat :: OpenQuote(old(quotes), i, id, at))
      ensures r.Ok? ==>
                exists i: nat :: OpenQuote(old(quotes), i, id, at)
                  && quotes == old(quotes)[i := old(quotes)[i].(acceptedAt := Some(at))]
    {
      var i := QuoteAt(quotes, id);
      if i == |quotes| || quotes[i].acceptedAt.Some? || quotes[i].expiresAt <= at {
        return Err(Conflict);
      }
      assert OpenQuote(quotes, i, id, at);
      quotes := quotes[i := quotes[i].(acceptedAt := Some(at))];
      r := Ok(());
    }

    // ---------- conversions ----------

    method GetConversionByID(id: string) returns (r: Result<Conversion>)
      ensures r == GetConversion(View(), id)
      ensures r == Err(NotFound) <==> forall i :: 0 <= i < |conversions| ==> conversions[i].id != id
      ensures r.Ok? ==> r.value.id == id && exists i :: 0 <= i < |conversions| && conversions[i].ToDomain() == r
    {
      var i := ConversionAt(conversions, id);
      if i == |conversions| {
        return Err(NotFound);
      }
      r := conversions[i].ToDomain();
    }

    method GetConversionByIdempotencyKey(key: string) returns (found: bool, r: Result<Conversion>)
      ensures found <==> ConversionByKey(conversions, key) < |conversions|
      ensures found <==> exists i :: 0 <= i < |conversions| && conversions[i].key == key
      ensures found ==> r == conversions[ConversionByKey(conversions, key)].ToDomain()
    {
      var i := ConversionByKey(conversions, key);
      if i == |conversions| {
        return false, Err(NotFound);
      }
      return true, conversions[i].ToDomain();
    }

    method CreateConversion(value: Conversion) returns (r: Result<Conversion>)
      modifies this`conversions
      ensures match InsertConversion(old(View()), ConversionFromDomain(value))
              case Ok(after) => View() == after && r == ConversionFromDomain(value).ToDomain()
              case Err(code) => View() == old(View()) && r == Err(code)
      ensures r == Err(Conflict) <==> CastNumeric(value.rate).Some? && Duplicates(old(conversions), value)
      ensures r == Err(Internal) <==>
                || CastNumeric(value.rate).None?
                || (!Duplicates(old(conversions), value)
                    && forall i :: 0 <= i < |quotes| ==> quotes[i].id != value.quoteId)
    {
      var row := ConversionFromDomain(value);
      var numeric := CastNumeric(row.rate);
      if numeric.None? {
        return Err(Internal);
      }
      if ConversionClash(conversions, row, |conversions|) {
        return Err(Conflict);
      }
      if QuoteAt(quotes, row.quoteId) == |quotes| {
        return Err(Internal);
      }
      conversions := conversions + [row.(rate := numeric.value)];
      r := row.ToDomain();
    }

    method SaveConversion(value: Conversion) returns (r: Result<Conversion>)
      modifies this`conversions
      ensures match UpdateConversion(old(View()), ConversionFromDomain(value))
              case Ok(after) => View() == after && r == ConversionFromDomain(value).ToDomain()
              case Err(code) => View() == old(View()) && r == Err(code)
      ensures r == Err(NotFound) <==>
                && CastNumeric(value.rate).Some?
                && forall i :: 0 <= i < |old(conversions)| ==> old(conversions)[i].id != value.id
      ensures conversions == old(conversions) || Rewritten(old(conversions), conversions, value)
      ensures r.Ok? ==> Rewritten(old(conversions), conversions, value)
      ensures r == Err(Internal) <==>
                || CastNumeric(value.rate).None?
                || (ConversionAt(old(conversions), value.id) < |old(conversions)|
                    && (ClashesElsewhere(old(conversions), value)
                        || forall i :: 0 <= i < |quotes| ==> quotes[i].id != value.quoteId))
    {
      var row := ConversionFromDomain(value);
      var numeric, i := CastNumeric(row.rate), ConversionAt(conversions, row.id);
      if numeric.None? {
        return Err(Internal);
      }
      if i == |conversions| {
        return Err(NotFound);
      }
      if ConversionClash(conversions, row, i) || QuoteAt(quotes, row.quoteId) == |quotes| {
        return Err(Internal);
      }
      conversions := conversions[i := row.(rate := numeric.value)];
      r := row.ToDomain();
    }

    // ---------- inbox and outbox ----------

    method StoreMessage(m: InboxRow) returns (r: Result<bool>)
      modifies this`inbox
      ensures match StoreIfAbsent(old(View()), m)
              case Ok((after, stored)) => View() == after && r == Ok(stored)
              case Err(code) => View() == old(View()) && r == Err(code)
      ensures r == Err(Validation) <==> Incomplete(m)
      ensures !Incomplete(m) ==> (r == Ok(false) <==> InInbox(old(inbox), m.provider, m.externalEventId))
      ensures r == Ok(true) <==>
                && !Incomplete(m) && !InInbox(old(inbox), m.provider, m.externalEventId)
                && (forall i :: 0 <= i < |old(inbox)| ==> old(inbox)[i].id != m.id)
                && exists i :: 0 <= i < |conversions| && conversions[i].id == m.conversionId
      ensures inbox == if r == Ok(true) then old(inbox) + [m] else old(inbox)
    {
      var _ :- m.Validate();
      if InInbox(inbox, m.provider, m.externalEventId) {
        return Ok(false);
      }
      if exists i :: 0 <= i < |inbox| && inbox[i].id == m.id {
        return Err(Internal);
      }
      if ConversionAt(conversions, m.conversionId) == |conversions| {
        return Err(Internal);
      }
      inbox := inbox + [m];
      r := Ok(true);
    }

    method EnqueueEvent(e: OutboxRow) returns (r: Result<()>)
      modifies this`outbox
      ensures match Enqueue(old(View()), e)
              case Ok(after) => View() == after && r == Ok(())
              case Err(code) => View() == old(View()) && r == Err(code)
      ensures r.Ok? <==> forall i :: 0 <= i < |old(outbox)| ==> old(outbox)[i].id != e.id
      ensures outbox == if r.Ok? then old(outbox) + [e] else old(outbox)
    {
      if OutboxAt(outbox, e.id) < |outbox| {
        return Err(Internal);
      }
      outbox := outbox + [e];
      r := Ok(());
    }

    method ListPending(limit: int) returns (page: seq<OutboxRow>)
      ensures PendingPage(outbox, limit, page)
      ensures |page| <= if limit <= 0 then 100 else limit
      ensures |page| < (if limit <= 0 then 100 else limit) ==> multiset(page) == multiset(Pendings(outbox))
    {
      var pool := Pendings(outbox);
      page := [];
      while pool != [] && |page| < Cap(limit)
        invariant Picked(Pendings(outbox), page, pool) && |page| <= Cap(limit)
        decreases |pool|
      {
        var k := Earliest(pool);
        PickEarliest(Pendings(outbox), page, pool, k);
        page, pool := page + [pool[k]], pool[..k] + pool[k + 1..];
      }
      PickedPage(outbox, limit, page, pool);
    }

    method MarkEvent(id: string, error: Option<string>, at: int) returns (r: Result<()>)
      modifies this`outbox
      ensures match Mark(old(outbox), id, error, at)
              case Ok(after) => outbox == after && r == Ok(())
              case Err(code) => outbox == old(outbox) && r == Err(code)
      ensures r == Err(NotFound) <==> forall i :: 0 <= i < |old(outbox)| ==> old(outbox)[i].id != id
    {
      var i := OutboxAt(outbox, id);
      if i == |outbox| {
        return Err(NotFound);
      }
      var marked := outbox[i].(attempts := outbox[i].attempts + 1, lastError := error);
      outbox := outbox[i := if error.None? then marked.(publishedAt := Some(at)) else marked];
      r := Ok(());
    }

    // ---------- rates ----------

    method SyncRates(batch: seq<ExchangeRate>, at: int) returns (r: Result<()>)
      modifies this`rates
      ensures match UpsertRates(old(rates), batch, at)
              case Ok(after) => rates == after && r == Ok(())
              case Err(code) => rates == old(rates) && r == Err(code)
      ensures r == Err(Validation) <==> exists i :: 0 <= i < |batch| && Malformed(batch[i])
      ensures r.Ok? <==>
                && (forall i :: 0 <= i < |batch| ==> !Malformed(batch[i]) && CastNumeric(batch[i].rate).Some?)
                && forall i, j :: 0 <= i < j < |batch| ==> !SameCorridor(batch[i], batch[j])
      ensures r.Ok? ==> Refreshed(old(rates), batch, at, rates)
    {
      MalformedIff(batch);
      if !ValidBatch(batch) {
        return Err(Validation);
      }
      if !StorableBatch(batch) {
        return Err(Internal);
      }
      var i := 0;
      while i < |batch|
        invariant i <= |batch|
        invariant rates == WithRates(old(rates), batch[..i], at)
      {
        var rate := batch[i];
        assert batch[..i + 1][..i] == batch[..i];
        rates := rates[KeyOf(rate) := StoredRate(rate, at)];
        i := i + 1;
      }
      assert batch[..|batch|] == batch;
      UpsertStores(old(rates), batch, at);
      r := Ok(());
    }

    /** A row whose currency code is unknown makes the mapping panic. */
    method ListLatestRates(base: Currency, wanted: seq<Currency>) returns (r: Result<seq<ExchangeRate>>)
      ensures r.Ok? ==> Listing(rates, base, wanted, r.value)
      ensures r.Err? ==> r.code == Panic && exists q :: q in wanted && Unreadable(rates, RateKey(Frankfurter, base, q))
    {
      var list := [];
      var i := 0;
      while i < |wanted|
        invariant i <= |wanted|
        invariant Listing(rates, base, wanted[..i], list)
      {
        var key := RateKey(Frankfurter, base, wanted[i]);
        ghost var before := list;
        if wanted[i] !in wanted[..i] && key in rates {
          var rate := rates[key].ToDomain(key);
          if rate.Err? {
            return Err(rate.code);
          }
          list := list + [rate.value];
          assert list[|before|].quote == wanted[i];
        }
        assert forall k :: 0 <= k < |before| ==> list[k] == before[k];
        assert wanted[..i + 1] == wanted[..i] + [wanted[i]];
        i := i + 1;
      }
      assert wanted[..|wanted|] == wanted;
      r := Ok(list);
    }
  }

  /** The index of an earliest-created row. */
  method Earliest(rows: seq<OutboxRow>) returns (k: nat)
    requires rows != []
    ensures k < |rows| && forall i :: 0 <= i < |rows| ==> rows[k].createdAt <= rows[i].createdAt
  {
    k := 0;
    var i := 1;
    while i < |rows|
      invariant 1 <= i <= |rows| && k < i
      invariant forall j :: 0 <= j < i ==> rows[k].createdAt <= rows[j].createdAt
    {
      if rows[i].createdAt < rows[k].createdAt {
        k := i;
      }
      i := i + 1;
    }
  }
}
