/** Every interleaving of clients, webhook deliveries and publishers. A run is the sequence of
    committed states; each step names the earlier states its reads saw, and its writes are checked
    against the latest one by the tables' constraints and guards. */
module Interleaving {
  import opened Core
  import opened Money
  import opened MoneyProofs
  import opened Quotes
  import opened Conversions
  import opened Tables
  import opened Protocol
  import opened Invariants

  datatype Step =
    | Sync(batch: seq<ExchangeRate>, at: int)
    | Quoting(quote: QuoteRequest, look: nat, rated: nat)
    | Accepting(accept: AcceptRequest, look: nat, seen: nat)
    | Delivering(delivery: Delivery, seen: nat)
    | Marking(event: string, error: Option<string>, at: int, listed: nat)
    | Failing

  datatype Reply =
    | QuoteReply(quote: Result<Quote>)
    | ConversionReply(conversion: Result<Conversion>)
    | WebhookReply(webhook: Result<(Conversion, bool)>)
    | Done

  predicate Pending(rows: seq<OutboxRow>, id: string) {
    var i := OutboxAt(rows, id);
    i < |rows| && rows[i].publishedAt.None?
  }

  /** The states read are committed by now; a publisher only handles an event it saw pending. */
  ghost predicate Reads(hist: seq<Tables>, n: nat, s: Step)
    requires n < |hist|
  {
    match s
    case Sync(_, _) => true
    case Quoting(_, look, rated) => look <= n && rated <= n
    case Accepting(_, look, seen) => look <= n && seen <= n
    case Delivering(_, seen) => seen <= n
    case Marking(event, _, _, listed) => listed <= n && Pending(hist[listed].outbox, event)
    case Failing => true
  }

  /** The next committed state and the reply; a failed statement or connection commits nothing. */
  function Execute(hist: seq<Tables>, n: nat, s: Step): (Tables, Reply)
    requires n < |hist| && Reads(hist, n, s)
  {
    var cur := hist[n];
    match s
    case Sync(batch, at) =>
      var r := UpsertRates(cur.rates, batch, at);
      (if r.Ok? then cur.(rates := r.value) else cur, Done)
    case Quoting(req, look, rated) =>
      var o := CreateQuote(hist[look], hist[rated], cur, req);
      (o.tables, QuoteReply(o.reply))
    case Accepting(req, look, seen) =>
      var o := AcceptQuote(hist[look], hist[seen], cur, req);
      (o.tables, ConversionReply(o.reply))
    case Delivering(d, seen) =>
      var o := Webhook(hist[seen], cur, d);
      (o.tables, WebhookReply(o.reply))
    case Marking(event, error, at, _) =>
      var r := Mark(cur.outbox, event, error, at);
      (if r.Ok? then cur.(outbox := r.value) else cur, Done)
    case Failing => (cur, Done)
  }

  ghost predicate Taken(hist: seq<Tables>, n: nat, s: Step, next: Tables, reply: Reply) {
    n < |hist| && Reads(hist, n, s) && (next, reply) == Execute(hist, n, s)
  }

  ghost predicate Run(hist: seq<Tables>, steps: seq<Step>, replies: seq<Reply>) {
    && |hist| == |steps| + 1 && |replies| == |steps|
    && hist[0] == EMPTY
    && forall n :: 0 <= n < |steps| ==> TakenAt(hist, steps, replies, n)
  }

  ghost predicate TakenAt(hist: seq<Tables>, steps: seq<Step>, replies: seq<Reply>, n: nat) {
    n + 1 < |hist| && n < |steps| && n < |replies| && Taken(hist, n, steps[n], hist[n + 1], replies[n])
  }

  /** Any step whose reads lie in the past extends any run. */
  lemma RunExtends(hist: seq<Tables>, steps: seq<Step>, replies: seq<Reply>, s: Step)
    requires Run(hist, steps, replies) && Reads(hist, |steps|, s)
    ensures var (next, reply) := Execute(hist, |steps|, s);
            Run(hist + [next], steps + [s], replies + [reply])
  {
    var (next, reply) := Execute(hist, |steps|, s);
    var hist', steps', replies' := hist + [next], steps + [s], replies + [reply];
    forall n | 0 <= n < |steps'| ensures TakenAt(hist', steps', replies', n) {
      if n < |steps| {
        assert TakenAt(hist, steps, replies, n);
        SameExecution(hist, hist', n, steps[n]);
      } else {
        SameExecution(hist, hist', n, s);
      }
    }
  }

  lemma SameExecution(hist: seq<Tables>, longer: seq<Tables>, n: nat, s: Step)
    requires n < |hist| && hist <= longer && Reads(hist, n, s)
    ensures Reads(longer, n, s) && Execute(longer, n, s) == Execute(hist, n, s)
  {
  }

  // ---------- safety of every reachable state ----------

  lemma StepSafe(hist: seq<Tables>, n: nat, s: Step, next: Tables, reply: Reply)
    requires Taken(hist, n, s, next, reply)
    requires Safe(hist, n)
    ensures Consistent(next) && Grows(hist[n], next)
  {
    var cur := hist[n];
    FromSafe(hist, n, n);
    match s
    case Sync(batch, at) =>
      if UpsertRates(cur.rates, batch, at).Ok? {
        UpsertSafe(cur, batch, at);
      }
    case Quoting(req, look, rated) =>
      FromSafe(hist, n, rated);
      CreateQuoteSafe(hist[look], hist[rated], cur, req);
    case Accepting(req, look, seen) =>
      FromSafe(hist, n, seen);
      AcceptSafe(hist[look], hist[seen], cur, req);
    case Delivering(d, seen) =>
      FromSafe(hist, n, seen);
      WebhookSafe(hist[seen], cur, d);
    case Marking(event, error, at, _) =>
      if Mark(cur.outbox, event, error, at).Ok? {
        MarkSafe(cur, event, error, at);
      }
    case Failing => GrowsReflexive(cur);
  }

  /** An earlier state is consistent, and nothing committed by then has been taken back. */
  ghost predicate SafeAt(hist: seq<Tables>, n: nat, i: nat)
    requires i <= n < |hist|
  {
    Consistent(hist[i]) && Grows(hist[i], hist[n])
  }

  ghost predicate Safe(hist: seq<Tables>, n: nat)
    requires n < |hist|
  {
    forall i :: 0 <= i <= n ==> SafeAt(hist, n, i)
  }

  lemma FromSafe(hist: seq<Tables>, n: nat, i: nat)
    requires i <= n < |hist| && Safe(hist, n)
    ensures Consistent(hist[i]) && Grows(hist[i], hist[n])
  {
    assert SafeAt(hist, n, i);
  }

  lemma SafeExtends(hist: seq<Tables>, n: nat)
    requires n + 1 < |hist| && Safe(hist, n)
    requires Consistent(hist[n + 1]) && Grows(hist[n], hist[n + 1])
    ensures Safe(hist, n + 1)
  {
    var m := n + 1;
    forall i | 0 <= i <= m ensures SafeAt(hist, m, i) {
      if i <= n {
        FromSafe(hist, n, i);
        GrowsTransitive(hist[i], hist[n], hist[m]);
      } else {
        GrowsReflexive(hist[m]);
      }
    }
  }

  lemma TakenStep(hist: seq<Tables>, steps: seq<Step>, replies: seq<Reply>, n: nat)
    requires Run(hist, steps, replies) && n < |steps|
    ensures Taken(hist, n, steps[n], hist[n + 1], replies[n])
  {
    assert TakenAt(hist, steps, replies, n);
  }

  /** Under any interleaving and any stale reads, every reachable state is consistent and no step
      takes back what an earlier one committed. */
  lemma {:induction false} RunSafe(hist: seq<Tables>, steps: seq<Step>, replies: seq<Reply>, n: nat)
    requires Run(hist, steps, replies) && n <= |steps|
    ensures Safe(hist, n)
  {
    if n == 0 {
      EmptySafe(hist);
    } else {
      RunSafe(hist, steps, replies, n - 1);
      NextSafe(hist, steps, replies, n - 1);
    }
  }

  lemma NextSafe(hist: seq<Tables>, steps: seq<Step>, replies: seq<Reply>, n: nat)
    requires Run(hist, steps, replies) && n < |steps| && Safe(hist, n)
    ensures Safe(hist, n + 1)
  {
    TakenStep(hist, steps, replies, n);
    StepSafe(hist, n, steps[n], hist[n + 1], replies[n]);
    SafeExtends(hist, n);
  }

  lemma EmptySafe(hist: seq<Tables>)
    requires hist != [] && hist[0] == EMPTY
    ensures Safe(hist, 0)
  {
  }

  lemma Reachable(hist: seq<Tables>, steps: seq<Step>, replies: seq<Reply>, n: nat)
    requires Run(hist, steps, replies) && n <= |steps|
    ensures Consistent(hist[n])
  {
    RunSafe(hist, steps, replies, n);
    FromSafe(hist, n, n);
  }

  lemma History(hist: seq<Tables>, steps: seq<Step>, replies: seq<Reply>, m: nat, n: nat)
    requires Run(hist, steps, replies) && m <= n <= |steps|
    ensures Grows(hist[m], hist[n])
  {
    RunSafe(hist, steps, replies, n);
    FromSafe(hist, n, m);
  }

  // ---------- idempotency keys ----------

  ghost predicate StoredQuote(t: Tables, i: nat, q: Quote) {
    i < |t.quotes| && SameQuote(t.quotes[i], QuoteFromDomain(q))
  }

  ghost predicate StoredConversion(t: Tables, i: nat, c: Conversion) {
    i < |t.conversions| && SameTerms(t.conversions[i], ConversionFromDomain(c))
  }

  lemma StoredQuoteUnique(t: Tables, i: nat, q: Quote, j: nat, r: Quote)
    requires QuotesOk(t) && StoredQuote(t, i, q) && StoredQuote(t, j, r) && q.key == r.key
    ensures SameQuote(QuoteFromDomain(q), QuoteFromDomain(r))
  {
    assert i == j;
  }

  lemma StoredConversionUnique(t: Tables, i: nat, c: Conversion, j: nat, d: Conversion)
    requires ConversionsOk(t) && StoredConversion(t, i, c) && StoredConversion(t, j, d) && c.key == d.key
    ensures SameTerms(ConversionFromDomain(c), ConversionFromDomain(d))
  {
    assert i == j;
  }

  lemma QuoteStaysStored(a: Tables, b: Tables, i: nat, q: Quote)
    requires Grows(a, b) && StoredQuote(a, i, q)
    ensures StoredQuote(b, i, q)
  {
    assert SameQuote(a.quotes[i], b.quotes[i]);
  }

  lemma ConversionStaysStored(a: Tables, b: Tables, i: nat, c: Conversion)
    requires Grows(a, b) && StoredConversion(a, i, c)
    ensures StoredConversion(b, i, c)
  {
    assert SameTerms(a.conversions[i], b.conversions[i]);
  }

  lemma QuoteReplyIndex(look: Tables, rated: Tables, cur: Tables, req: QuoteRequest) returns (i: nat)
    requires QuotesOk(rated) && Grows(look, CreateQuote(look, rated, cur, req).tables)
    requires CreateQuote(look, rated, cur, req).reply.Ok?
    ensures StoredQuote(CreateQuote(look, rated, cur, req).tables, i, CreateQuote(look, rated, cur, req).reply.value)
    ensures CreateQuote(look, rated, cur, req).reply.value.key == req.key
  {
    i := QuoteByKey(look.quotes, req.key);
    if i == |look.quotes| {
      CreateQuoteShape(rated, cur, req);
      i := |cur.quotes|;
    }
  }

  /** Step n was a CreateQuote for this key and succeeded with this quote. */
  ghost predicate QuoteGiven(steps: seq<Step>, replies: seq<Reply>, n: nat, key: string, q: Quote) {
    && n < |steps| == |replies|
    && steps[n].Quoting? && steps[n].quote.key == key && replies[n] == QuoteReply(Ok(q))
  }

  /** Step n was an AcceptQuote for this key and succeeded with this conversion. */
  ghost predicate ConversionGiven(steps: seq<Step>, replies: seq<Reply>, n: nat, key: string, c: Conversion) {
    && n < |steps| == |replies|
    && steps[n].Accepting? && steps[n].accept.key == key && replies[n] == ConversionReply(Ok(c))
  }

  lemma QuoteGivenBy(hist: seq<Tables>, steps: seq<Step>, replies: seq<Reply>, n: nat, key: string, q: Quote)
    requires Run(hist, steps, replies) && QuoteGiven(steps, replies, n, key, q)
    ensures steps[n].look <= n && steps[n].rated <= n
    ensures CreateQuote(hist[steps[n].look], hist[steps[n].rated], hist[n], steps[n].quote)
             == Outcome(hist[n + 1], Ok(q))
  {
    assert TakenAt(hist, steps, replies, n);
  }

  lemma ConversionGivenBy(hist: seq<Tables>, steps: seq<Step>, replies: seq<Reply>, n: nat, key: string, c: Conversion)
    requires Run(hist, steps, replies) && ConversionGiven(steps, replies, n, key, c)
    ensures steps[n].look <= n && steps[n].seen <= n
    ensures AcceptQuote(hist[steps[n].look], hist[steps[n].seen], hist[n], steps[n].accept)
             == Outcome(hist[n + 1], Ok(c))
  {
    TakenStep(hist, steps, replies, n);
  }

  /** From a successful reply on, the quote it describes is in the table, under the request's key. */
  lemma QuoteReplyStored(hist: seq<Tables>, steps: seq<Step>, replies: seq<Reply>, n: nat, key: string, q: Quote)
    returns (i: nat)
    requires Run(hist, steps, replies) && QuoteGiven(steps, replies, n, key, q)
    ensures StoredQuote(hist[|steps|], i, q) && q.key == key
  {
    i := QuoteReplyAt(hist, steps, replies, n, key, q);
    History(hist, steps, replies, n + 1, |steps|);
    QuoteStaysStored(hist[n + 1], hist[|steps|], i, q);
  }

  lemma QuoteReplyAt(hist: seq<Tables>, steps: seq<Step>, replies: seq<Reply>, n: nat, key: string, q: Quote)
    returns (i: nat)
    requires Run(hist, steps, replies) && QuoteGiven(steps, replies, n, key, q)
    ensures StoredQuote(hist[n + 1], i, q) && q.key == key
  {
    QuoteGivenBy(hist, steps, replies, n, key, q);
    History(hist, steps, replies, steps[n].look, n + 1);
    Reachable(hist, steps, replies, steps[n].rated);
    i := QuoteReplyIndex(hist[steps[n].look], hist[steps[n].rated], hist[n], steps[n].quote);
  }

  lemma AcceptReplyIndex(look: Tables, seen: Tables, cur: Tables, req: AcceptRequest) returns (i: nat)
    requires QuotesOk(seen) && Grows(seen, cur)
    requires Grows(look, AcceptQuote(look, seen, cur, req).tables)
    requires AcceptQuote(look, seen, cur, req).reply.Ok?
    ensures StoredConversion(AcceptQuote(look, seen, cur, req).tables, i, AcceptQuote(look, seen, cur, req).reply.value)
    ensures AcceptQuote(look, seen, cur, req).reply.value.key == req.key
  {
    i := ConversionByKey(look.conversions, req.key);
    if i == |look.conversions| {
      AcceptShape(seen, cur, req);
      i := |cur.conversions|;
    } else {
      assert AcceptQuote(look, seen, cur, req).tables == cur;
      assert SameTerms(look.conversions[i], cur.conversions[i]);
    }
  }

  lemma ConversionReplyStored(hist: seq<Tables>, steps: seq<Step>, replies: seq<Reply>, n: nat, key: string,
                              c: Conversion)
    returns (i: nat)
    requires Run(hist, steps, replies) && ConversionGiven(steps, replies, n, key, c)
    ensures StoredConversion(hist[|steps|], i, c) && c.key == key
  {
    i := ConversionReplyAt(hist, steps, replies, n, key, c);
    History(hist, steps, replies, n + 1, |steps|);
    ConversionStaysStored(hist[n + 1], hist[|steps|], i, c);
  }

  lemma ConversionReplyAt(hist: seq<Tables>, steps: seq<Step>, replies: seq<Reply>, n: nat, key: string, c: Conversion)
    returns (i: nat)
    requires Run(hist, steps, replies) && ConversionGiven(steps, replies, n, key, c)
    ensures StoredConversion(hist[n + 1], i, c) && c.key == key
  {
    ConversionGivenBy(hist, steps, replies, n, key, c);
    History(hist, steps, replies, steps[n].look, n + 1);
    History(hist, steps, replies, steps[n].seen, n);
    Reachable(hist, steps, replies, steps[n].seen);
    i := AcceptReplyIndex(hist[steps[n].look], hist[steps[n].seen], hist[n], steps[n].accept);
  }

  /** All successful CreateQuote replies for one key describe one and the same quote. */
  lemma SameKeySameQuote(hist: seq<Tables>, steps: seq<Step>, replies: seq<Reply>, key: string, a: nat, q: Quote,
                         b: nat, r: Quote)
    requires Run(hist, steps, replies)
    requires QuoteGiven(steps, replies, a, key, q) && QuoteGiven(steps, replies, b, key, r)
    ensures q.id == r.id && SameQuote(QuoteFromDomain(q), QuoteFromDomain(r))
  {
    var i := QuoteReplyStored(hist, steps, replies, a, key, q);
    var j := QuoteReplyStored(hist, steps, replies, b, key, r);
    Reachable(hist, steps, replies, |steps|);
    StoredQuoteUnique(hist[|steps|], i, q, j, r);
  }

  /** All successful AcceptQuote replies for one key describe one and the same conversion. */
  lemma SameKeySameConversion(hist: seq<Tables>, steps: seq<Step>, replies: seq<Reply>, key: string,
                              a: nat, c: Conversion, b: nat, d: Conversion)
    requires Run(hist, steps, replies)
    requires ConversionGiven(steps, replies, a, key, c) && ConversionGiven(steps, replies, b, key, d)
    ensures c.id == d.id && SameTerms(ConversionFromDomain(c), ConversionFromDomain(d))
  {
    var i := ConversionReplyStored(hist, steps, replies, a, key, c);
    var j := ConversionReplyStored(hist, steps, replies, b, key, d);
    Reachable(hist, steps, replies, |steps|);
    StoredConversionUnique(hist[|steps|], i, c, j, d);
  }

  // ---------- acceptance ----------

  /** A quote is accepted exactly when one conversion, and no other, names it; that conversion was
      created at the acceptance, strictly before expiry, with the quote's money. */
  lemma AcceptanceBijection(hist: seq<Tables>, steps: seq<Step>, replies: seq<Reply>, n: nat, i: nat)
    requires Run(hist, steps, replies) && n <= |steps| && i < |hist[n].quotes|
    ensures hist[n].quotes[i].acceptedAt.Some? <==>
            exists j :: 0 <= j < |hist[n].conversions| && hist[n].conversions[j].quoteId == hist[n].quotes[i].id
    ensures forall j, k :: (0 <= j < |hist[n].conversions| && 0 <= k < |hist[n].conversions|
                            && hist[n].conversions[j].quoteId == hist[n].quotes[i].id
                            && hist[n].conversions[k].quoteId == hist[n].quotes[i].id) ==> j == k
    ensures forall j :: 0 <= j < |hist[n].conversions| && hist[n].conversions[j].quoteId == hist[n].quotes[i].id ==>
              && hist[n].quotes[i].acceptedAt == Some(hist[n].conversions[j].createdAt)
              && hist[n].conversions[j].createdAt < hist[n].quotes[i].expiresAt
              && SameMoney(hist[n].quotes[i], hist[n].conversions[j])
  {
    Reachable(hist, steps, replies, n);
    var t := hist[n];
    forall j | 0 <= j < |t.conversions| && t.conversions[j].quoteId == t.quotes[i].id
      ensures t.quotes[i].acceptedAt == Some(t.conversions[j].createdAt)
      ensures t.conversions[j].createdAt < t.quotes[i].expiresAt && SameMoney(t.quotes[i], t.conversions[j])
    {
      assert Backed(t.quotes, t.conversions[j]);
      assert QuoteAt(t.quotes, t.quotes[i].id) == i;
    }
    if t.quotes[i].acceptedAt.Some? {
      assert Named(t.conversions, t.quotes[i].id);
    }
  }

  /** Nothing but the quote's own state stands in the way of this acceptance. */
  ghost predicate Unobstructed(t: Tables, req: AcceptRequest) {
    && req.conversionId != ""
    && SupportedPaymentProvider(req.paymentProvider) && SupportedTransferProvider(req.transferProvider)
    && (forall j :: 0 <= j < |t.conversions| ==>
        t.conversions[j].id != req.conversionId && t.conversions[j].key != req.key)
    && OutboxAt(t.outbox, req.eventId) == |t.outbox|
  }

  /** CanAccept passes up to and including the expiry instant, the transaction only before it: at the
      instant itself the guarded UPDATE matches nothing and everything rolls back. */
  lemma AcceptedBeforeExpiry(t: Tables, req: AcceptRequest)
    requires Consistent(t) && Unobstructed(t, req)
    requires QuoteAt(t.quotes, req.quoteId) < |t.quotes|
    requires t.quotes[QuoteAt(t.quotes, req.quoteId)].acceptedAt.None?
    ensures var expiresAt, o := t.quotes[QuoteAt(t.quotes, req.quoteId)].expiresAt, AcceptQuote(t, t, t, req);
            && GetQuote(t, req.quoteId).Ok?
            && (GetQuote(t, req.quoteId).value.CanAccept(req.now).Ok? <==> req.now <= expiresAt)
            && (o.reply.Ok? <==> req.now < expiresAt)
            && (o.reply.Err? ==> o.reply.code == Conflict && o.tables == t)
  {
    var i := QuoteAt(t.quotes, req.quoteId);
    assert Priced(t.quotes[i]);
    assert ConversionByKey(t.conversions, req.key) == |t.conversions|;
    var source := GetQuote(t, req.quoteId).value;
    if req.now <= source.expiresAt {
      var c := FromQuote(req.conversionId, req.key, source, req.paymentProvider, req.transferProvider, req.now).value;
      forall j | 0 <= j < |t.conversions| ensures t.conversions[j].quoteId != req.quoteId {
        assert Backed(t.quotes, t.conversions[j]);
      }
      assert InsertConversion(t, ConversionFromDomain(c))
        == Ok(t.(conversions := t.conversions + [ConversionFromDomain(c)]));
    }
  }

  // ---------- money ----------

  /** Sums in one base currency; `wrapped` counts the rows whose base + fee left int64. */
  datatype Ledger = Ledger(debits: int, bases: int, fees: int, wrapped: nat)

  ghost function Books(rows: seq<ConversionRow>, c: Currency): Ledger {
    if rows == [] then Ledger(0, 0, 0, 0)
    else
      var r, l := rows[|rows| - 1], Books(rows[..|rows| - 1], c);
      if r.baseCurrency != c then l
      else Ledger(l.debits + r.totalMinor, l.bases + r.baseMinor, l.fees + r.feeMinor,
                  l.wrapped + if FitsInt64(r.baseMinor + r.feeMinor) then 0 else 1)
  }

  lemma PricedTotal(q: QuoteRow)
    requires Priced(q)
    ensures q.totalMinor == q.baseMinor + q.feeMinor - if FitsInt64(q.baseMinor + q.feeMinor) then 0 else TWO64
  {
    WrapSum(q.baseMinor, q.feeMinor);
  }

  lemma BackedTotal(quotes: seq<QuoteRow>, r: ConversionRow)
    requires forall i :: 0 <= i < |quotes| ==> Priced(quotes[i])
    requires Backed(quotes, r)
    ensures r.totalMinor == r.baseMinor + r.feeMinor - if FitsInt64(r.baseMinor + r.feeMinor) then 0 else TWO64
  {
    var q := quotes[QuoteAt(quotes, r.quoteId)];
    PricedTotal(q);
    assert SameMoney(q, r);
  }

  lemma {:induction false} BooksBalance(quotes: seq<QuoteRow>, rows: seq<ConversionRow>, c: Currency)
    requires forall i :: 0 <= i < |quotes| ==> Priced(quotes[i])
    requires forall i :: 0 <= i < |rows| ==> Backed(quotes, rows[i])
    ensures var l := Books(rows, c); l.debits == l.bases + l.fees - TWO64 * l.wrapped
  {
    if rows != [] {
      BooksBalance(quotes, rows[..|rows| - 1], c);
      BackedTotal(quotes, rows[|rows| - 1]);
    }
  }

  /** In every reachable state, stale webhook reads included, the debits of each currency are its
      bases plus its fees, less 2^64 for each row whose total wrapped: so they balance exactly when
      none did. */
  lemma MoneyConserved(hist: seq<Tables>, steps: seq<Step>, replies: seq<Reply>, n: nat, c: Currency)
    requires Run(hist, steps, replies) && n <= |steps|
    ensures var l := Books(hist[n].conversions, c);
            && l.debits == l.bases + l.fees - TWO64 * l.wrapped
            && (l.debits == l.bases + l.fees <==> l.wrapped == 0)
  {
    Reachable(hist, steps, replies, n);
    BooksBalance(hist[n].quotes, hist[n].conversions, c);
  }

  /** Once created, a conversion keeps its terms for the rest of the run. */
  lemma TermsNeverChange(hist: seq<Tables>, steps: seq<Step>, replies: seq<Reply>, m: nat, n: nat, i: nat)
    requires Run(hist, steps, replies) && m <= n <= |steps| && i < |hist[m].conversions|
    ensures i < |hist[n].conversions| && SameTerms(hist[m].conversions[i], hist[n].conversions[i])
    ensures Supported(hist[n].conversions[i].baseCurrency)
    ensures Convert(Money(hist[n].conversions[i].baseCurrency, hist[n].conversions[i].baseMinor),
                    hist[n].conversions[i].quoteCurrency, hist[n].conversions[i].rate)
         == Ok(Money(hist[n].conversions[i].quoteCurrency, hist[n].conversions[i].quoteMinor))
  {
    Reachable(hist, steps, replies, n);
    History(hist, steps, replies, m, n);
    assert Backed(hist[n].quotes, hist[n].conversions[i]);
    assert Priced(hist[n].quotes[QuoteAt(hist[n].quotes, hist[n].conversions[i].quoteId)]);
  }

  /** One outbox event per conversion and one per stored webhook, in every reachable state. */
  lemma OutboxCounts(hist: seq<Tables>, steps: seq<Step>, replies: seq<Reply>, n: nat)
    requires Run(hist, steps, replies) && n <= |steps|
    ensures |hist[n].outbox| == |hist[n].conversions| + |hist[n].inbox|
  {
    Reachable(hist, steps, replies, n);
  }

  // ---------- publication ----------

  /** How often publishers have reported an outcome for this event before state n. */
  ghost function Reports(steps: seq<Step>, n: nat, id: string): nat
    requires n <= |steps|
  {
    if n == 0 then 0
    else Reports(steps, n - 1, id) + if steps[n - 1].Marking? && steps[n - 1].event == id then 1 else 0
  }

  /** Events already there are untouched; new ones start unpublished and unattempted. */
  ghost predicate Appended(before: seq<OutboxRow>, after: seq<OutboxRow>) {
    && before <= after
    && (forall i :: |before| <= i < |after| ==>
          after[i].attempts == 0 && after[i].publishedAt.None? && OutboxAt(before, after[i].id) == |before|)
  }

  lemma AcceptAppends(look: Tables, seen: Tables, cur: Tables, req: AcceptRequest)
    requires QuotesOk(seen) && Grows(seen, cur)
    ensures Appended(cur.outbox, AcceptQuote(look, seen, cur, req).tables.outbox)
  {
    AcceptOutcome(look, seen, cur, req);
    if AcceptQuote(look, seen, cur, req).tables != cur {
      AcceptShape(seen, cur, req);
    }
  }

  lemma WebhookAppends(seen: Tables, cur: Tables, d: Delivery)
    requires QuotesOk(seen) && ConversionsOk(seen) && Grows(seen, cur)
    ensures Appended(cur.outbox, Webhook(seen, cur, d).tables.outbox)
  {
    if WebhookBody(seen, cur, d).Ok? && !WebhookBody(seen, cur, d).value.1.1 {
      WebhookShape(seen, cur, d);
      var c := WebhookBody(seen, cur, d).value.1.0;
      EventAppended(cur.outbox, MovedEvent(c, d));
    } else {
      WebhookUnchanged(seen, cur, d);
    }
  }

  lemma EventAppended(rows: seq<OutboxRow>, e: OutboxRow)
    requires OutboxAt(rows, e.id) == |rows| && e.attempts == 0 && e.publishedAt.None?
    ensures Appended(rows, rows + [e])
  {
  }

  lemma CreateQuoteAppends(look: Tables, rated: Tables, cur: Tables, req: QuoteRequest)
    requires QuotesOk(rated)
    ensures CreateQuote(look, rated, cur, req).tables.outbox == cur.outbox
  {
    if CreateQuote(look, rated, cur, req).tables != cur {
      CreateQuoteShape(rated, cur, req);
    }
  }

  /** Only a publisher's report touches an event. */
  lemma OutboxStep(hist: seq<Tables>, n: nat, s: Step, next: Tables, reply: Reply)
    requires Taken(hist, n, s, next, reply)
    requires Safe(hist, n) && !s.Marking?
    ensures Appended(hist[n].outbox, next.outbox)
  {
    var cur := hist[n];
    match s
    case Sync(_, _) =>
    case Quoting(req, look, rated) =>
      FromSafe(hist, n, rated);
      CreateQuoteAppends(hist[look], hist[rated], cur, req);
    case Accepting(req, look, seen) =>
      FromSafe(hist, n, seen);
      AcceptAppends(hist[look], hist[seen], cur, req);
    case Delivering(d, seen) =>
      FromSafe(hist, n, seen);
      WebhookAppends(hist[seen], cur, d);
    case Marking(_, _, _, _) =>
    case Failing =>
  }

  /** A report changes the row of its own event and no other. */
  ghost predicate Reported(before: seq<OutboxRow>, after: seq<OutboxRow>, id: string, error: Option<string>, at: int) {
    var j := OutboxAt(before, id);
    && j < |before| == |after|
    && (forall i :: 0 <= i < |before| && i != j ==> after[i] == before[i])
    && SameEvent(before[j], after[j])
    && after[j].attempts == before[j].attempts + 1
    && after[j].publishedAt == (if error.None? then Some(at) else before[j].publishedAt)
  }

  lemma ReportStep(hist: seq<Tables>, n: nat, s: Step, next: Tables, reply: Reply)
    requires Taken(hist, n, s, next, reply)
    requires s.Marking? && Grows(hist[s.listed], hist[n])
    ensures Reported(hist[n].outbox, next.outbox, s.event, s.error, s.at)
  {
    OutboxAtStable(hist[s.listed], hist[n], s.event);
    MarkShape(hist[n].outbox, s.event, s.error, s.at);
  }

  lemma OutboxAtStable(a: Tables, b: Tables, id: string)
    requires Grows(a, b) && OutboxAt(a.outbox, id) < |a.outbox|
    ensures OutboxAt(b.outbox, id) == OutboxAt(a.outbox, id)
  {
    assert SameEvent(a.outbox[OutboxAt(a.outbox, id)], b.outbox[OutboxAt(a.outbox, id)]);
  }

  lemma {:induction false} NoReportsBefore(hist: seq<Tables>, steps: seq<Step>, replies: seq<Reply>, n: nat, id: string)
    requires Run(hist, steps, replies) && n <= |steps|
    requires Absent(hist[n], id)
    ensures Reports(steps, n, id) == 0
  {
    if n > 0 {
      AbsentBefore(hist, steps, replies, n - 1, id);
      NoReportsBefore(hist, steps, replies, n - 1, id);
    }
  }

  ghost predicate Absent(t: Tables, id: string) {
    OutboxAt(t.outbox, id) == |t.outbox|
  }

  lemma AbsentBefore(hist: seq<Tables>, steps: seq<Step>, replies: seq<Reply>, n: nat, id: string)
    requires Run(hist, steps, replies) && n < |steps| && Absent(hist[n + 1], id)
    ensures Absent(hist[n], id) && !(steps[n].Marking? && steps[n].event == id)
  {
    History(hist, steps, replies, n, n + 1);
    RunSafe(hist, steps, replies, n);
    TakenStep(hist, steps, replies, n);
    NotReported(hist, n, steps[n], hist[n + 1], replies[n], id);
  }

  lemma NotReported(hist: seq<Tables>, n: nat, s: Step, next: Tables, reply: Reply, id: string)
    requires Taken(hist, n, s, next, reply) && Safe(hist, n) && Grows(hist[n], next)
    requires Absent(next, id)
    ensures Absent(hist[n], id) && !(s.Marking? && s.event == id)
  {
    AbsentEarlier(hist[n], next, id);
    if s.Marking? {
      MarkedExists(hist, n, s, next, reply);
      FromSafe(hist, n, s.listed);
      AbsentEarlier(hist[s.listed], hist[n], id);
    }
  }

  lemma AbsentEarlier(a: Tables, b: Tables, id: string)
    requires Grows(a, b) && Absent(b, id)
    ensures Absent(a, id)
  {
    if OutboxAt(a.outbox, id) < |a.outbox| {
      OutboxAtStable(a, b, id);
    }
  }

  lemma MarkedExists(hist: seq<Tables>, n: nat, s: Step, next: Tables, reply: Reply)
    requires Taken(hist, n, s, next, reply) && s.Marking?
    ensures s.listed <= n && OutboxAt(hist[s.listed].outbox, s.event) < |hist[s.listed].outbox|
  {
  }

  /** The event's attempts count the outcomes reported before state n, and its publication time is
      one at which a publisher reported acceptance. */
  ghost predicate Accounted(steps: seq<Step>, n: nat, e: OutboxRow)
    requires n <= |steps|
  {
    && e.attempts == Reports(steps, n, e.id)
    && (e.publishedAt.Some? ==>
          exists k :: 0 <= k < n && steps[k].Marking? && steps[k].event == e.id
                      && steps[k].error.None? && steps[k].at == e.publishedAt.value)
  }

  lemma AccountedNext(steps: seq<Step>, n: nat, before: OutboxRow, after: OutboxRow)
    requires n < |steps| && Accounted(steps, n, before)
    requires if steps[n].Marking? && steps[n].event == before.id then
               && SameEvent(before, after) && after.attempts == before.attempts + 1
               && after.publishedAt == (if steps[n].error.None? then Some(steps[n].at) else before.publishedAt)
             else after == before
    ensures Accounted(steps, n + 1, after)
  {
  }

  /** Even with several publishers at work, an event's attempts count exactly the outcomes reported
      for it, and it bears a publication time only because a publisher reported acceptance then. */
  lemma {:induction false} PublicationIsReported(hist: seq<Tables>, steps: seq<Step>, replies: seq<Reply>, n: nat,
                                                 i: nat)
    requires Run(hist, steps, replies) && n <= |steps| && i < |hist[n].outbox|
    ensures Accounted(steps, n, hist[n].outbox[i])
  {
    if n > 0 {
      if i < |hist[n - 1].outbox| {
        PublicationIsReported(hist, steps, replies, n - 1, i);
        AccountedBefore(hist, steps, replies, n - 1, i);
      } else {
        AccountedFresh(hist, steps, replies, n - 1, i);
      }
    }
  }

  lemma AccountedBefore(hist: seq<Tables>, steps: seq<Step>, replies: seq<Reply>, n: nat, i: nat)
    requires Run(hist, steps, replies) && n < |steps|
    requires i < |hist[n].outbox| && Accounted(steps, n, hist[n].outbox[i])
    ensures i < |hist[n + 1].outbox| && Accounted(steps, n + 1, hist[n + 1].outbox[i])
  {
    RunSafe(hist, steps, replies, n);
    TakenStep(hist, steps, replies, n);
    OldEvent(hist, n, steps, hist[n + 1], replies[n], i);
  }

  lemma AccountedFresh(hist: seq<Tables>, steps: seq<Step>, replies: seq<Reply>, n: nat, i: nat)
    requires Run(hist, steps, replies) && n < |steps| && |hist[n].outbox| <= i < |hist[n + 1].outbox|
    ensures Accounted(steps, n + 1, hist[n + 1].outbox[i])
  {
    CreatedAt(hist, steps, replies, n, i);
    NoReportsBefore(hist, steps, replies, n, hist[n + 1].outbox[i].id);
  }

  lemma CreatedAt(hist: seq<Tables>, steps: seq<Step>, replies: seq<Reply>, n: nat, i: nat)
    requires Run(hist, steps, replies) && n < |steps| && |hist[n].outbox| <= i < |hist[n + 1].outbox|
    ensures !steps[n].Marking? && hist[n + 1].outbox[i].attempts == 0 && hist[n + 1].outbox[i].publishedAt.None?
    ensures Absent(hist[n], hist[n + 1].outbox[i].id)
  {
    RunSafe(hist, steps, replies, n);
    TakenStep(hist, steps, replies, n);
    NewEvent(hist, n, steps[n], hist[n + 1], replies[n], i);
  }

  lemma OldEvent(hist: seq<Tables>, n: nat, steps: seq<Step>, next: Tables, reply: Reply, i: nat)
    requires n < |steps| && Taken(hist, n, steps[n], next, reply) && Safe(hist, n)
    requires i < |hist[n].outbox| && Accounted(steps, n, hist[n].outbox[i])
    ensures i < |next.outbox| && Accounted(steps, n + 1, next.outbox[i])
  {
    var s := steps[n];
    FromSafe(hist, n, n);
    OwnIndex(hist[n], i);
    if s.Marking? {
      MarkedExists(hist, n, s, next, reply);
      FromSafe(hist, n, s.listed);
      ReportStep(hist, n, s, next, reply);
    } else {
      OutboxStep(hist, n, s, next, reply);
    }
    AccountedNext(steps, n, hist[n].outbox[i], next.outbox[i]);
  }

  lemma NewEvent(hist: seq<Tables>, n: nat, s: Step, next: Tables, reply: Reply, i: nat)
    requires Taken(hist, n, s, next, reply) && Safe(hist, n)
    requires |hist[n].outbox| <= i < |next.outbox|
    ensures !s.Marking? && next.outbox[i].attempts == 0 && next.outbox[i].publishedAt.None?
    ensures Absent(hist[n], next.outbox[i].id)
  {
    if s.Marking? {
      MarkedExists(hist, n, s, next, reply);
      FromSafe(hist, n, s.listed);
      ReportStep(hist, n, s, next, reply);
    } else {
      OutboxStep(hist, n, s, next, reply);
    }
  }

  lemma OwnIndex(t: Tables, i: nat)
    requires OutboxOk(t) && i < |t.outbox|
    ensures OutboxAt(t.outbox, t.outbox[i].id) == i
  {
  }
}
