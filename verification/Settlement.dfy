/** Event sourcing: what it means that a stored row is the replay of its inbox messages with the outbox as
    the matching trail, and which transactions keep it so. */
module Settlement {
  import opened Core
  import opened Conversions
  import opened Tables
  import opened Protocol
  import opened Invariants
  import opened Interleaving
  import opened Replay

  /** The stored messages of one conversion, in commit order. */
  function InboxOf(inbox: seq<InboxRow>, id: string): seq<InboxRow> {
    if inbox == [] then []
    else
      var m := inbox[|inbox| - 1];
      InboxOf(inbox[..|inbox| - 1], id) + if m.conversionId == id then [m] else []
  }

  /** The event types enqueued for one conversion, in commit order. */
  function EventsOf(outbox: seq<OutboxRow>, id: string): seq<EventType> {
    if outbox == [] then []
    else
      var e := outbox[|outbox| - 1];
      EventsOf(outbox[..|outbox| - 1], id) + if e.aggregateId == id then [e.eventType] else []
  }

  /** What FromQuote made of the row's quote at the row's creation. */
  function Origin(quotes: seq<QuoteRow>, row: ConversionRow): Result<Conversion> {
    var i := QuoteAt(quotes, row.quoteId);
    if i == |quotes| then Err(NotFound)
    else
      var source :- quotes[i].(acceptedAt := None).ToDomain();
      FromQuote(row.id, row.key, source, row.paymentProvider, row.transferProvider, row.createdAt)
  }

  /** The row is the replay of its messages on what FromQuote made, and its events are their trail. */
  ghost predicate Explained(t: Tables, row: ConversionRow) {
    var origin, msgs := Origin(t.quotes, row), InboxOf(t.inbox, row.id);
    && origin.Ok?
    && Replayed(origin.value, msgs).Ok? && Replayed(origin.value, msgs) == row.ToDomain()
    && EventsOf(t.outbox, row.id) == Trail(origin.value, msgs)
  }

  ghost predicate AllExplained(t: Tables) {
    forall i :: 0 <= i < |t.conversions| ==> Explained(t, t.conversions[i])
  }

  // ---------- appending ----------

  lemma InboxOfSnoc(inbox: seq<InboxRow>, m: InboxRow, id: string)
    ensures InboxOf(inbox + [m], id) == InboxOf(inbox, id) + if m.conversionId == id then [m] else []
  {
    assert (inbox + [m])[..|inbox|] == inbox;
  }

  lemma EventsOfSnoc(outbox: seq<OutboxRow>, e: OutboxRow, id: string)
    ensures EventsOf(outbox + [e], id) == EventsOf(outbox, id) + if e.aggregateId == id then [e.eventType] else []
  {
    assert (outbox + [e])[..|outbox|] == outbox;
  }

  lemma {:induction false} EventsOfSame(a: seq<OutboxRow>, b: seq<OutboxRow>, id: string)
    requires |a| == |b| && forall i :: 0 <= i < |a| ==> SameEvent(a[i], b[i])
    ensures EventsOf(a, id) == EventsOf(b, id)
  {
    if a != [] {
      EventsOfSame(a[..|a| - 1], b[..|b| - 1], id);
      assert SameEvent(a[|a| - 1], b[|b| - 1]);
    }
  }

  lemma {:induction false} NothingFor(inbox: seq<InboxRow>, outbox: seq<OutboxRow>, id: string)
    requires forall i :: 0 <= i < |inbox| ==> inbox[i].conversionId != id
    requires forall i :: 0 <= i < |outbox| ==> outbox[i].aggregateId != id
    ensures InboxOf(inbox, id) == [] && EventsOf(outbox, id) == []
  {
    if inbox != [] {
      NothingFor(inbox[..|inbox| - 1], outbox, id);
    } else if outbox != [] {
      NothingFor(inbox, outbox[..|outbox| - 1], id);
    }
  }

  lemma {:induction false} InboxOfPrefix(a: seq<InboxRow>, b: seq<InboxRow>, id: string)
    requires a <= b
    ensures InboxOf(a, id) <= InboxOf(b, id)
  {
    if |a| < |b| {
      InboxOfPrefix(a, b[..|b| - 1], id);
    } else {
      assert a == b;
    }
  }

  lemma OriginStable(a: Tables, b: Tables, row: ConversionRow, later: ConversionRow)
    requires Grows(a, b) && Origin(a.quotes, row).Ok? && SameTerms(row, later)
    ensures Origin(b.quotes, later) == Origin(a.quotes, row)
  {
    var i := QuoteAt(a.quotes, row.quoteId);
    QuoteAtStable(a, b, row.quoteId);
    assert SameQuote(a.quotes[i], b.quotes[i]);
    assert a.quotes[i].(acceptedAt := None) == b.quotes[i].(acceptedAt := None);
  }

  // ---------- each transaction keeps every row explained ----------

  /** A row none of whose own messages, events or columns changed stays explained. */
  lemma UntouchedExplained(a: Tables, b: Tables, row: ConversionRow)
    requires Grows(a, b) && Explained(a, row)
    requires InboxOf(b.inbox, row.id) == InboxOf(a.inbox, row.id)
    requires EventsOf(b.outbox, row.id) == EventsOf(a.outbox, row.id)
    ensures Explained(b, row)
  {
    OriginStable(a, b, row, row);
  }

  lemma AcceptExplained(seen: Tables, cur: Tables, req: AcceptRequest)
    requires QuotesOk(seen) && Grows(seen, cur) && InboxOk(cur) && OutboxOk(cur) && AllExplained(cur)
    requires AcceptBody(seen, cur, req).Ok?
    ensures AllExplained(AcceptBody(seen, cur, req).value.0)
  {
    AcceptShape(seen, cur, req);
    AcceptOrigin(seen, cur, req);
    var (after, c) := AcceptBody(seen, cur, req).value;
    var i, row, e := QuoteAt(cur.quotes, req.quoteId), ConversionFromDomain(c), CreatedEvent(c, req.eventId, req.now);
    AcceptedExplained(cur, i, row, e);
  }

  lemma AcceptOrigin(seen: Tables, cur: Tables, req: AcceptRequest)
    requires QuotesOk(seen) && Grows(seen, cur)
    requires AcceptBody(seen, cur, req).Ok?
    ensures var c := AcceptBody(seen, cur, req).value.1;
            Origin(cur.quotes, ConversionFromDomain(c)) == Ok(c) && Newborn(c) && c.createdAt == req.now
  {
    AcceptReads(seen, cur, req);
    OriginFrom(seen, cur, req, AcceptBody(seen, cur, req).value.1);
  }

  /** The conversion an acceptance creates comes from the open quote it read. */
  lemma AcceptReads(seen: Tables, cur: Tables, req: AcceptRequest)
    requires AcceptBody(seen, cur, req).Ok?
    ensures CreatedFrom(seen, req, AcceptBody(seen, cur, req).value.1)
  {
  }

  ghost predicate CreatedFrom(seen: Tables, req: AcceptRequest, c: Conversion) {
    var s := QuoteAt(seen.quotes, req.quoteId);
    && s < |seen.quotes| && seen.quotes[s].acceptedAt.None? && seen.quotes[s].ToDomain().Ok?
    && FromQuote(req.conversionId, req.key, seen.quotes[s].ToDomain().value, req.paymentProvider, req.transferProvider,
                 req.now)
    == Ok(c)
  }

  lemma OriginFrom(seen: Tables, cur: Tables, req: AcceptRequest, c: Conversion)
    requires Grows(seen, cur) && CreatedFrom(seen, req, c)
    ensures Origin(cur.quotes, ConversionFromDomain(c)) == Ok(c) && Newborn(c) && c.createdAt == req.now
  {
    var s := QuoteAt(seen.quotes, req.quoteId);
    QuoteAtStable(seen, cur, req.quoteId);
    assert SameQuote(seen.quotes[s], cur.quotes[s]);
    assert cur.quotes[s].(acceptedAt := None) == seen.quotes[s];
  }

  lemma AcceptedExplained(cur: Tables, i: nat, row: ConversionRow, e: OutboxRow)
    requires InboxOk(cur) && OutboxOk(cur) && AllExplained(cur) && Acceptable(cur, i, row, e)
    requires row.ToDomain().Ok? && Origin(cur.quotes, row) == row.ToDomain()
    requires e.eventType == Created
    ensures AllExplained(Accepted(cur, i, row, e))
  {
    var after := Accepted(cur, i, row, e);
    AcceptedGrows(cur, i, row, e);
    NewbornExplained(cur, i, row, e);
    forall r | r in cur.conversions ensures Explained(after, r) {
      OlderExplained(cur, i, row, e, r);
    }
    EachExplained(after, cur.conversions, row);
  }

  lemma EachExplained(t: Tables, older: seq<ConversionRow>, row: ConversionRow)
    requires t.conversions == older + [row] && Explained(t, row)
    requires forall r :: r in older ==> Explained(t, r)
    ensures AllExplained(t)
  {
  }

  lemma OlderExplained(cur: Tables, i: nat, row: ConversionRow, e: OutboxRow, r: ConversionRow)
    requires Acceptable(cur, i, row, e) && Grows(cur, Accepted(cur, i, row, e))
    requires r in cur.conversions && Explained(cur, r)
    ensures Explained(Accepted(cur, i, row, e), r)
  {
    EventsOfSnoc(cur.outbox, e, r.id);
    UntouchedExplained(cur, Accepted(cur, i, row, e), r);
  }

  lemma NewbornExplained(cur: Tables, i: nat, row: ConversionRow, e: OutboxRow)
    requires InboxOk(cur) && OutboxOk(cur) && Acceptable(cur, i, row, e)
    requires Grows(cur, Accepted(cur, i, row, e))
    requires row.ToDomain().Ok? && Origin(cur.quotes, row) == row.ToDomain()
    requires e.eventType == Created
    ensures Explained(Accepted(cur, i, row, e), row)
  {
    OriginStable(cur, Accepted(cur, i, row, e), row, row);
    NewIdUnused(cur, row);
    EventsOfSnoc(cur.outbox, e, row.id);
  }

  lemma NewIdUnused(cur: Tables, row: ConversionRow)
    requires InboxOk(cur) && OutboxOk(cur) && !ConversionClash(cur.conversions, row, |cur.conversions|)
    ensures InboxOf(cur.inbox, row.id) == [] && EventsOf(cur.outbox, row.id) == []
  {
    assert !Known(cur.conversions, row.id);
    NothingFor(cur.inbox, cur.outbox, row.id);
  }

  /** A webhook commit leaves its own row explained exactly when what it wrote is its message applied to
      the row it replaced. */
  lemma MovedExplainedIff(cur: Tables, i: nat, row: ConversionRow, m: InboxRow, e: OutboxRow)
    requires Movable(cur, i, row, m, e) && Explained(cur, cur.conversions[i])
    requires row.ToDomain().Ok? && e.eventType == Moved(row.status)
    ensures Explained(Moving(cur, i, row, m, e), row) <==>
            cur.conversions[i].ToDomain().value.Apply(m.topic, m.externalRef, m.receivedAt) == row.ToDomain()
  {
    var msgs, origin := InboxOf(cur.inbox, row.id), Origin(cur.quotes, cur.conversions[i]).value;
    MovingGrows(cur, i, row, m, e);
    OriginStable(cur, Moving(cur, i, row, m, e), cur.conversions[i], row);
    InboxOfSnoc(cur.inbox, m, row.id);
    EventsOfSnoc(cur.outbox, e, row.id);
    assert (msgs + [m])[..|msgs|] == msgs;
    assert Replayed(origin, msgs + [m])
        == cur.conversions[i].ToDomain().value.Apply(m.topic, m.externalRef, m.receivedAt);
  }

  lemma OthersExplained(cur: Tables, i: nat, row: ConversionRow, m: InboxRow, e: OutboxRow, j: nat)
    requires ConversionsOk(cur) && Movable(cur, i, row, m, e)
    requires j < |cur.conversions| && j != i && Explained(cur, cur.conversions[j])
    ensures Explained(Moving(cur, i, row, m, e), cur.conversions[j])
  {
    var r := cur.conversions[j];
    MovingGrows(cur, i, row, m, e);
    InboxOfSnoc(cur.inbox, m, r.id);
    EventsOfSnoc(cur.outbox, e, r.id);
    UntouchedExplained(cur, Moving(cur, i, row, m, e), r);
  }

  lemma MovingExplainedIff(cur: Tables, i: nat, row: ConversionRow, m: InboxRow, e: OutboxRow)
    requires ConversionsOk(cur) && AllExplained(cur) && Movable(cur, i, row, m, e)
    ensures AllExplained(Moving(cur, i, row, m, e)) <==> Explained(Moving(cur, i, row, m, e), row)
  {
    var after := Moving(cur, i, row, m, e);
    if Explained(after, row) {
      forall j | 0 <= j < |after.conversions| ensures Explained(after, after.conversions[j]) {
        if j != i {
          OthersExplained(cur, i, row, m, e, j);
        }
      }
    } else {
      assert after.conversions[i] == row;
    }
  }

  /** Changes to the rates, to unaccepted quotes or to publication columns explain rows as before. */
  lemma BystanderExplained(cur: Tables, after: Tables)
    requires Grows(cur, after) && AllExplained(cur)
    requires after.conversions == cur.conversions && after.inbox == cur.inbox && |after.outbox| == |cur.outbox|
    ensures AllExplained(after)
  {
    forall j | 0 <= j < |after.conversions| ensures Explained(after, after.conversions[j]) {
      EventsOfSame(cur.outbox, after.outbox, cur.conversions[j].id);
      UntouchedExplained(cur, after, cur.conversions[j]);
    }
  }

  lemma QuoteBystander(look: Tables, rated: Tables, cur: Tables, req: QuoteRequest)
    requires QuotesOk(rated)
    ensures var after := CreateQuote(look, rated, cur, req).tables;
            after.conversions == cur.conversions && after.inbox == cur.inbox && after.outbox == cur.outbox
  {
    if PriceAndInsert(rated, cur, req).Ok? {
      CreateQuoteShape(rated, cur, req);
    }
  }

  /** Every step but a webhook keeps every row explained, whatever it read. */
  lemma StepExplained(hist: seq<Tables>, n: nat, s: Step, next: Tables, reply: Reply)
    requires Taken(hist, n, s, next, reply) && Safe(hist, n) && Grows(hist[n], next) && AllExplained(hist[n])
    requires !s.Delivering?
    ensures AllExplained(next)
  {
    var cur := hist[n];
    FromSafe(hist, n, n);
    match s
    case Sync(_, _) => BystanderExplained(cur, next);
    case Quoting(req, look, rated) =>
      FromSafe(hist, n, rated);
      QuoteBystander(hist[look], hist[rated], cur, req);
      BystanderExplained(cur, next);
    case Accepting(req, look, seen) =>
      if ConversionByKey(hist[look].conversions, req.key) == |hist[look].conversions|
        && AcceptBody(hist[seen], cur, req).Ok? {
        FromSafe(hist, n, seen);
        AcceptExplained(hist[seen], cur, req);
      }
    case Marking(event, error, at, _) =>
      if Mark(cur.outbox, event, error, at).Ok? {
        MarkShape(cur.outbox, event, error, at);
        BystanderExplained(cur, next);
      }
    case Failing =>
  }

  // ---------- what an explained row looks like ----------

  lemma ExplainedState(t: Tables, row: ConversionRow)
    requires Explained(t, row)
    ensures var msgs := InboxOf(t.inbox, row.id);
            && Newborn(Origin(t.quotes, row).value)
            && Admissible(msgs)
            && row.status == StatusAfter(msgs)
            && row.externalPaymentId == FirstReference(msgs, true)
            && row.externalTransferId == FirstReference(msgs, false)
            && row.failureReason == LastFailure(msgs)
            && row.updatedAt == LastMoved(row.createdAt, msgs)
  {
    ReplayedState(Origin(t.quotes, row).value, InboxOf(t.inbox, row.id));
  }

  lemma ExplainedMonotone(a: Tables, b: Tables, early: ConversionRow, late: ConversionRow)
    requires Grows(a, b) && Explained(a, early) && Explained(b, late) && SameTerms(early, late)
    ensures Rank(early.status) <= Rank(late.status)
    ensures early.status == Failed ==> late.status == Failed
    ensures early.externalPaymentId.Some? ==> late.externalPaymentId == early.externalPaymentId
    ensures early.externalTransferId.Some? ==> late.externalTransferId == early.externalTransferId
  {
    OriginStable(a, b, early, late);
    ExplainedState(a, early);
    InboxOfPrefix(a.inbox, b.inbox, early.id);
    ReplayMonotone(Origin(a.quotes, early).value, InboxOf(a.inbox, early.id), InboxOf(b.inbox, early.id));
  }
}
