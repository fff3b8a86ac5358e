/** When a webhook delivery commits, and what its commit leaves behind. */
module Commits {
  import opened Core
  import opened Quotes
  import opened Conversions
  import opened Tables
  import opened Protocol
  import opened Invariants
  import opened Interleaving
  import opened Replay

  /** A delivery that is not a duplicate commits exactly in these circumstances. */
  ghost predicate Admits(seen: Tables, cur: Tables, d: Delivery) {
    && d.Message().Validate().Ok?
    && !InInbox(cur.inbox, d.provider, d.externalEventId)
    && (forall k :: 0 <= k < |cur.inbox| ==> cur.inbox[k].id != d.inboxId)
    && Absent(cur, d.eventId)
    && GetConversion(seen, d.conversionId).Ok?
    && Transition(GetConversion(seen, d.conversionId).value, d).Ok?
  }

  /** Running the statements of a delivery whose checks all pass. */
  lemma BodyRuns(seen: Tables, cur: Tables, d: Delivery, c: Conversion)
    requires Admits(seen, cur, d) && Known(cur.conversions, d.conversionId)
    requires Transition(GetConversion(seen, d.conversionId).value, d) == Ok(c)
    requires ConversionFromDomain(c).ToDomain() == Ok(c)
    requires UpdateConversion(cur.(inbox := cur.inbox + [d.Message()]), ConversionFromDomain(c))
          == Ok(cur.(inbox := cur.inbox + [d.Message()],
                     conversions := cur.conversions[ConversionAt(cur.conversions, d.conversionId) :=
                       ConversionFromDomain(c)]))
    ensures WebhookBody(seen, cur, d)
             == Ok((Moving(cur, ConversionAt(cur.conversions, d.conversionId), ConversionFromDomain(c),
                                                    d.Message(), MovedEvent(c, d)), (c, false)))
  {
    assert StoreIfAbsent(cur, d.Message()) == Ok((cur.(inbox := cur.inbox + [d.Message()]), true));
  }

  lemma TransitionRow(row: ConversionRow, d: Delivery)
    requires row.ToDomain().Ok? && Transition(row.ToDomain().value, d).Ok?
    ensures var next := ConversionFromDomain(Transition(row.ToDomain().value, d).value);
            SameTerms(row, next) && next.ToDomain() == Transition(row.ToDomain().value, d)
  {
  }

  lemma TermsChain(a: ConversionRow, b: ConversionRow, c: ConversionRow)
    requires SameTerms(a, b) && SameTerms(a, c)
    ensures SameTerms(b, c)
  {
  }

  lemma MovedTerms(seen: Tables, cur: Tables, d: Delivery)
    requires QuotesOk(seen) && ConversionsOk(seen) && Grows(seen, cur) && Admits(seen, cur, d)
    ensures var i, row := ConversionAt(cur.conversions, d.conversionId),
                          ConversionFromDomain(Transition(GetConversion(seen, d.conversionId).value, d).value);
            && i < |cur.conversions| && SameTerms(cur.conversions[i], row) && Canonical(row.rate)
            && row.ToDomain() == Transition(GetConversion(seen, d.conversionId).value, d)
  {
    ReadRow(seen, d.conversionId);
    ConversionAtStable(seen, cur, d.conversionId);
    var s := ConversionAt(seen.conversions, d.conversionId);
    TransitionRow(seen.conversions[s], d);
    TermsChain(seen.conversions[s], cur.conversions[s],
               ConversionFromDomain(Transition(GetConversion(seen, d.conversionId).value, d).value));
  }

  lemma MovedRow(cur: Tables, i: nat, row: ConversionRow, m: InboxRow, e: OutboxRow)
    requires Movable(cur, i, row, m, e)
    ensures var after := Moving(cur, i, row, m, e).conversions;
            ConversionAt(after, m.conversionId) == i < |after| && after[i] == row
  {
    MovingGrows(cur, i, row, m, e);
    ConversionAtStable(cur, Moving(cur, i, row, m, e), m.conversionId);
  }

  /** A delivery that passes its checks commits: one inbox row, one moved conversion row, one event. */
  lemma Committed(seen: Tables, cur: Tables, d: Delivery) returns (i: nat, c: Conversion)
    requires QuotesOk(seen) && ConversionsOk(seen) && ConversionsOk(cur) && Grows(seen, cur) && Admits(seen, cur, d)
    ensures i == ConversionAt(cur.conversions, d.conversionId) < |cur.conversions|
    ensures Transition(GetConversion(seen, d.conversionId).value, d) == Ok(c)
    ensures ConversionFromDomain(c).ToDomain() == Ok(c)
    ensures Movable(cur, i, ConversionFromDomain(c), d.Message(), MovedEvent(c, d))
    ensures WebhookBody(seen, cur, d)
         == Ok((Moving(cur, i, ConversionFromDomain(c), d.Message(), MovedEvent(c, d)), (c, false)))
  {
    MovedTerms(seen, cur, d);
    i, c := ConversionAt(cur.conversions, d.conversionId),
      Transition(GetConversion(seen, d.conversionId).value, d).value;
    RewriteAllowed(cur, i, ConversionFromDomain(c), d.Message());
    BodyRuns(seen, cur, d, c);
  }

  lemma CommitsIff(seen: Tables, cur: Tables, d: Delivery)
    requires QuotesOk(seen) && ConversionsOk(seen) && ConversionsOk(cur) && Grows(seen, cur)
    ensures Admits(seen, cur, d) <==> WebhookBody(seen, cur, d).Ok? && !WebhookBody(seen, cur, d).value.1.1
  {
    if Admits(seen, cur, d) {
      var _, _ := Committed(seen, cur, d);
    } else if WebhookBody(seen, cur, d).Ok? && !WebhookBody(seen, cur, d).value.1.1 {
      WebhookStatements(seen, cur, d);
    }
  }

  /** Rewriting a row with its own terms violates no constraint. */
  lemma RewriteAllowed(cur: Tables, i: nat, row: ConversionRow, m: InboxRow)
    requires ConversionsOk(cur) && i < |cur.conversions| && SameTerms(cur.conversions[i], row) && Canonical(row.rate)
    ensures UpdateConversion(cur.(inbox := cur.inbox + [m]), row)
         == Ok(cur.(inbox := cur.inbox + [m], conversions := cur.conversions[i := row]))
  {
    assert Backed(cur.quotes, cur.conversions[i]);
    assert ConversionAt(cur.conversions, row.id) == i;
  }

  /** Redelivering an event the inbox already holds changes nothing, whatever conversion it names. */
  lemma DuplicateIgnored(seen: Tables, cur: Tables, d: Delivery)
    requires InInbox(cur.inbox, d.provider, d.externalEventId)
    ensures Webhook(seen, cur, d).tables == cur
  {
  }

  lemma TopicStatus(c: Conversion, d: Delivery)
    ensures Handles(d.handler, d.topic) && FailureTopic(d.topic) ==>
              Transition(c, d).Ok? && Transition(c, d).value.status == Failed
    ensures d.topic.PaymentSucceeded? && Transition(c, d).Ok? ==> Transition(c, d).value.status == Processing
    ensures d.topic.PaymentFailed? && Transition(c, d).Ok? ==> Transition(c, d).value.status == Failed
  {
  }

  ghost predicate HasStatus(t: Tables, id: string, s: Status) {
    Known(t.conversions, id) && t.conversions[ConversionAt(t.conversions, id)].status == s
  }

  ghost predicate OneMoreEvent(before: seq<OutboxRow>, after: seq<OutboxRow>, id: string) {
    |after| == |before| + 1 && before <= after && after[|before|].id == id
  }

  /** A commit, seen from its own conversion: the status is that of the transition on the row read. */
  lemma LateCommit(seen: Tables, cur: Tables, d: Delivery)
    requires QuotesOk(seen) && ConversionsOk(seen) && ConversionsOk(cur) && Grows(seen, cur) && Admits(seen, cur, d)
    ensures var after := Webhook(seen, cur, d).tables;
            && ConversionsOk(after) && Grows(cur, after)
            && after.inbox == cur.inbox + [d.Message()]
            && OneMoreEvent(cur.outbox, after.outbox, d.eventId)
            && HasStatus(after, d.conversionId, Transition(GetConversion(seen, d.conversionId).value, d).value.status)
  {
    var i, c := Committed(seen, cur, d);
    MovingGrows(cur, i, ConversionFromDomain(c), d.Message(), MovedEvent(c, d));
    MovingConversionsOk(cur, i, ConversionFromDomain(c), d.Message(), MovedEvent(c, d));
    MovedRow(cur, i, ConversionFromDomain(c), d.Message(), MovedEvent(c, d));
    assert Webhook(seen, cur, d).tables.outbox == cur.outbox + [MovedEvent(c, d)];
  }

  lemma InInboxSnoc(inbox: seq<InboxRow>, m: InboxRow, provider: Provider, event: string)
    ensures InInbox(inbox + [m], provider, event)
       <==> InInbox(inbox, provider, event) || (m.provider == provider && m.externalEventId == event)
  {
    assert (inbox + [m])[|inbox|] == m;
    assert forall k :: 0 <= k < |inbox| ==> (inbox + [m])[k] == inbox[k];
    if InInbox(inbox, provider, event) {
      var k :| 0 <= k < |inbox| && inbox[k].provider == provider && inbox[k].externalEventId == event;
      assert (inbox + [m])[k].provider == provider;
    }
  }

  lemma AbsentSnoc(t: Tables, next: Tables, e: OutboxRow, id: string)
    requires next.outbox == t.outbox + [e] && Absent(t, id) && e.id != id
    ensures Absent(next, id)
  {
  }
}
