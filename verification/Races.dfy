/** Which stale webhook reads are harmless: a run keeps every conversion the replay of its messages exactly
    when each committed webhook passes a test on the stored columns of the row it read and of the row it
    replaced. */
module Races {
  import opened Core
  import opened Conversions
  import opened Tables
  import opened Protocol
  import opened Invariants
  import opened Interleaving
  import opened Replay
  import opened Settlement
  import opened Commits

  /** The row replaced is still in the status the success needs; or, for a failure, no reference that the
      row read did not have would be lost. */
  predicate Harmless(read: ConversionRow, current: ConversionRow, topic: Topic, externalRef: Option<string>) {
    match topic
    case PaymentSucceeded => current.status == AwaitingPayment
    case TransferCompleted => current.status == Processing
    case PaymentFailed =>
      && current.externalTransferId == read.externalTransferId
      && (current.externalPaymentId == read.externalPaymentId || current.externalPaymentId == externalRef)
    case TransferFailed =>
      && current.externalPaymentId == read.externalPaymentId
      && (current.externalTransferId == read.externalTransferId || current.externalTransferId == externalRef)
    case Other(_) => true
  }

  // ---------- two versions of one row ----------

  /** How an explained row and a later explained version of it compare. */
  ghost predicate Successor(read: ConversionRow, current: ConversionRow) {
    && SameTerms(read, current)
    && read.status != Requested && current.status != Requested
    && (current.status == AwaitingPayment ==> read == current)
    && (read.status == current.status == Processing ==> read == current)
    && KeptReference(read.externalPaymentId, current.externalPaymentId)
    && KeptReference(read.externalTransferId, current.externalTransferId)
  }

  ghost predicate KeptReference(read: Option<string>, current: Option<string>) {
    && (read.Some? ==> current == read)
    && (current.Some? ==> current.value != "")
  }

  lemma {:induction false} FirstReferenceNotEmpty(msgs: seq<InboxRow>, payment: bool)
    ensures FirstReference(msgs, payment).Some? ==> FirstReference(msgs, payment).value != ""
  {
    if msgs != [] {
      FirstReferenceNotEmpty(msgs[..|msgs| - 1], payment);
    }
  }

  lemma ExplainedSuccessor(a: Tables, b: Tables, read: ConversionRow, current: ConversionRow)
    requires Grows(a, b) && Explained(a, read) && Explained(b, current) && SameTerms(read, current)
    ensures Successor(read, current)
  {
    var early, late := InboxOf(a.inbox, read.id), InboxOf(b.inbox, read.id);
    OriginStable(a, b, read, current);
    ExplainedState(a, read);
    ExplainedState(b, current);
    ExplainedMonotone(a, b, read, current);
    InboxOfPrefix(a.inbox, b.inbox, read.id);
    SameMessages(early, late);
    FirstReferenceNotEmpty(late, true);
    FirstReferenceNotEmpty(late, false);
    if early == late {
      RowByDomain(read, current);
    }
  }

  lemma SameMessages(early: seq<InboxRow>, late: seq<InboxRow>)
    requires early <= late
    ensures StatusAfter(late) == AwaitingPayment ==> early == late
    ensures StatusAfter(early) == StatusAfter(late) == Processing ==> early == late
    ensures StatusAfter(early) != Requested && StatusAfter(late) != Requested
  {
  }

  lemma RowByDomain(a: ConversionRow, b: ConversionRow)
    requires a.ToDomain().Ok? && a.ToDomain() == b.ToDomain() && SameTerms(a, b)
    ensures a == b
  {
  }

  /** Two versions of a row take a delivery alike exactly when the test passes. */
  lemma TransitionsAgreeIff(read: ConversionRow, current: ConversionRow, d: Delivery)
    requires Successor(read, current) && read.ToDomain().Ok? && current.ToDomain().Ok?
    requires Transition(read.ToDomain().value, d).Ok?
    ensures Transition(current.ToDomain().value, d) == Transition(read.ToDomain().value, d)
       <==> Harmless(read, current, d.topic, d.externalRef)
  {
    if FailureTopic(d.topic) {
      FailuresAgreeIff(read, current, d);
    } else {
      SuccessesAgreeIff(read, current, d);
    }
  }

  lemma FailuresAgreeIff(read: ConversionRow, current: ConversionRow, d: Delivery)
    requires Successor(read, current) && read.ToDomain().Ok? && current.ToDomain().Ok?
    requires Handles(d.handler, d.topic) && FailureTopic(d.topic)
    ensures Transition(current.ToDomain().value, d) == Transition(read.ToDomain().value, d)
       <==> Harmless(read, current, d.topic, d.externalRef)
  {
  }

  lemma SuccessesAgreeIff(read: ConversionRow, current: ConversionRow, d: Delivery)
    requires Successor(read, current) && read.ToDomain().Ok? && current.ToDomain().Ok?
    requires Transition(read.ToDomain().value, d).Ok? && !FailureTopic(d.topic)
    ensures Transition(current.ToDomain().value, d) == Transition(read.ToDomain().value, d)
       <==> Harmless(read, current, d.topic, d.externalRef)
  {
  }

  // ---------- one webhook ----------

  ghost predicate HarmlessRead(seen: Tables, cur: Tables, d: Delivery) {
    && Known(seen.conversions, d.conversionId) && Known(cur.conversions, d.conversionId)
    && Harmless(seen.conversions[ConversionAt(seen.conversions, d.conversionId)],
                cur.conversions[ConversionAt(cur.conversions, d.conversionId)], d.topic, d.externalRef)
  }

  lemma ReadAgainst(seen: Tables, cur: Tables, d: Delivery) returns (read: ConversionRow, current: ConversionRow)
    requires QuotesOk(seen) && ConversionsOk(seen) && QuotesOk(cur) && ConversionsOk(cur) && Grows(seen, cur)
    requires Known(seen.conversions, d.conversionId) && AllExplained(seen) && AllExplained(cur)
    ensures Known(cur.conversions, d.conversionId)
    ensures read == seen.conversions[ConversionAt(seen.conversions, d.conversionId)]
    ensures current == cur.conversions[ConversionAt(cur.conversions, d.conversionId)]
    ensures read.ToDomain().Ok? && GetConversion(seen, d.conversionId) == read.ToDomain()
    ensures current.ToDomain().Ok? && GetConversion(cur, d.conversionId) == current.ToDomain()
    ensures Successor(read, current)
  {
    ReadRow(seen, d.conversionId);
    ConversionAtStable(seen, cur, d.conversionId);
    ReadRow(cur, d.conversionId);
    var i := ConversionAt(seen.conversions, d.conversionId);
    read, current := seen.conversions[i], cur.conversions[i];
    assert SameTerms(read, current);
    assert Explained(seen, read) && Explained(cur, current);
    ExplainedSuccessor(seen, cur, read, current);
  }

  /** A webhook that commits from a stale read leaves every row explained exactly when its read is harmless. */
  lemma ExplainedAfterIff(seen: Tables, cur: Tables, d: Delivery)
    requires QuotesOk(seen) && ConversionsOk(seen) && QuotesOk(cur) && ConversionsOk(cur) && Grows(seen, cur)
    requires AllExplained(seen) && AllExplained(cur)
    requires WebhookBody(seen, cur, d).Ok? && !WebhookBody(seen, cur, d).value.1.1
    ensures AllExplained(Webhook(seen, cur, d).tables) <==> HarmlessRead(seen, cur, d)
  {
    WebhookShape(seen, cur, d);
    var (after, (c, _)) := WebhookBody(seen, cur, d).value;
    var i, row, m, e := ConversionAt(cur.conversions, d.conversionId), ConversionFromDomain(c), d.Message(),
      MovedEvent(c, d);
    var read, current := ReadAgainst(seen, cur, d);
    assert Explained(cur, current);
    MovingExplainedIff(cur, i, row, m, e);
    MovedExplainedIff(cur, i, row, m, e);
    TransitionsAgreeIff(read, current, d);
  }

  lemma WebhookKeepsExplained(seen: Tables, cur: Tables, d: Delivery)
    requires AllExplained(cur)
    requires WebhookBody(seen, cur, d).Err? || WebhookBody(seen, cur, d).value.1.1
    ensures AllExplained(Webhook(seen, cur, d).tables)
  {
    WebhookUnchanged(seen, cur, d);
  }

  // ---------- runs ----------

  /** Step n was a webhook that committed and was no duplicate, as its reply says. */
  ghost predicate Processed(steps: seq<Step>, replies: seq<Reply>, n: nat) {
    && n < |steps| == |replies|
    && steps[n].Delivering? && replies[n].WebhookReply? && replies[n].webhook.Ok? && !replies[n].webhook.value.1
  }

  ghost predicate HarmlessAt(hist: seq<Tables>, steps: seq<Step>, replies: seq<Reply>, n: nat)
    requires n < |steps| && |hist| == |steps| + 1
  {
    Processed(steps, replies, n) ==> steps[n].seen <= n && HarmlessRead(hist[steps[n].seen], hist[n], steps[n].delivery)
  }

  ghost predicate HarmlessUpTo(hist: seq<Tables>, steps: seq<Step>, replies: seq<Reply>, n: nat)
    requires n <= |steps| && |hist| == |steps| + 1
  {
    forall k :: 0 <= k < n ==> HarmlessAt(hist, steps, replies, k)
  }

  ghost predicate HarmlessReads(hist: seq<Tables>, steps: seq<Step>, replies: seq<Reply>)
    requires |hist| == |steps| + 1
  {
    HarmlessUpTo(hist, steps, replies, |steps|)
  }

  /** A step from explained states ends explained exactly when its read was harmless. */
  lemma NextExplainedIff(hist: seq<Tables>, steps: seq<Step>, replies: seq<Reply>, n: nat)
    requires Run(hist, steps, replies) && n < |steps| && AllExplained(hist[n])
    requires steps[n].Delivering? && steps[n].seen <= n ==> AllExplained(hist[steps[n].seen])
    ensures AllExplained(hist[n + 1]) <==> HarmlessAt(hist, steps, replies, n)
  {
    History(hist, steps, replies, n, n + 1);
    RunSafe(hist, steps, replies, n);
    TakenStep(hist, steps, replies, n);
    if steps[n].Delivering? {
      DeliveryExplainedIff(hist, n, steps[n], hist[n + 1], replies[n]);
    } else {
      StepExplained(hist, n, steps[n], hist[n + 1], replies[n]);
    }
  }

  /** The reply of a webhook step is that of its transaction. */
  lemma DeliveryExecuted(hist: seq<Tables>, n: nat, s: Step, next: Tables, reply: Reply)
    requires Taken(hist, n, s, next, reply) && s.Delivering?
    ensures s.seen <= n < |hist|
    ensures next == Webhook(hist[s.seen], hist[n], s.delivery).tables
    ensures reply == WebhookReply(Webhook(hist[s.seen], hist[n], s.delivery).reply)
  {
  }

  lemma DeliveryExplainedIff(hist: seq<Tables>, n: nat, s: Step, next: Tables, reply: Reply)
    requires Taken(hist, n, s, next, reply) && Safe(hist, n) && s.Delivering?
    requires AllExplained(hist[s.seen]) && AllExplained(hist[n])
    ensures reply.WebhookReply?
    ensures if reply.webhook.Ok? && !reply.webhook.value.1
            then AllExplained(next) <==> HarmlessRead(hist[s.seen], hist[n], s.delivery)
            else AllExplained(next)
  {
    DeliveryExecuted(hist, n, s, next, reply);
    FromSafe(hist, n, n);
    FromSafe(hist, n, s.seen);
    if reply.webhook.Ok? && !reply.webhook.value.1 {
      ExplainedAfterIff(hist[s.seen], hist[n], s.delivery);
    } else {
      WebhookKeepsExplained(hist[s.seen], hist[n], s.delivery);
    }
  }

  /** As long as webhook reads are harmless, each conversion row equals the replay of its stored webhook
      messages on what FromQuote made of its quote, and its outbox events are conversion.created followed
      by one per message, naming the status that message left. */
  lemma {:induction false} ExplainedUpTo(hist: seq<Tables>, steps: seq<Step>, replies: seq<Reply>, n: nat)
    requires Run(hist, steps, replies) && n <= |steps| && HarmlessUpTo(hist, steps, replies, n)
    ensures forall k :: 0 <= k <= n ==> AllExplained(hist[k])
  {
    if n > 0 {
      ExplainedUpTo(hist, steps, replies, n - 1);
      assert HarmlessAt(hist, steps, replies, n - 1);
      NextExplainedIff(hist, steps, replies, n - 1);
    }
  }

  /** Every state of a run is explained exactly when every processed webhook's read was harmless. */
  lemma RunExplainedIff(hist: seq<Tables>, steps: seq<Step>, replies: seq<Reply>)
    requires Run(hist, steps, replies)
    ensures (forall n :: 0 <= n < |hist| ==> AllExplained(hist[n])) <==> HarmlessReads(hist, steps, replies)
  {
    if forall n :: 0 <= n < |hist| ==> AllExplained(hist[n]) {
      forall k | 0 <= k < |steps| ensures HarmlessAt(hist, steps, replies, k) {
        NextExplainedIff(hist, steps, replies, k);
      }
    }
    if HarmlessReads(hist, steps, replies) {
      ExplainedUpTo(hist, steps, replies, |steps|);
    }
  }

  lemma RunExplained(hist: seq<Tables>, steps: seq<Step>, replies: seq<Reply>, n: nat)
    requires Run(hist, steps, replies) && HarmlessReads(hist, steps, replies) && n <= |steps|
    ensures AllExplained(hist[n])
  {
    ExplainedUpTo(hist, steps, replies, |steps|);
  }

  // ---------- serialized webhooks ----------

  /** Each webhook transaction read the version of its conversion that its commit replaces, as when such
      transactions run one at a time. */
  ghost predicate Serialized(hist: seq<Tables>, steps: seq<Step>)
    requires |hist| == |steps| + 1
  {
    forall n :: 0 <= n < |steps| && steps[n].Delivering? ==> CurrentRead(hist, n, steps[n])
  }

  ghost predicate CurrentRead(hist: seq<Tables>, n: nat, s: Step)
    requires n < |hist| && s.Delivering?
  {
    s.seen <= n && GetConversion(hist[s.seen], s.delivery.conversionId)
      == GetConversion(hist[n], s.delivery.conversionId)
  }

  lemma CurrentIsHarmless(seen: Tables, cur: Tables, d: Delivery)
    requires QuotesOk(seen) && ConversionsOk(seen) && QuotesOk(cur) && ConversionsOk(cur) && Grows(seen, cur)
    requires AllExplained(seen) && AllExplained(cur)
    requires WebhookBody(seen, cur, d).Ok? && !WebhookBody(seen, cur, d).value.1.1
    requires GetConversion(seen, d.conversionId) == GetConversion(cur, d.conversionId)
    ensures HarmlessRead(seen, cur, d)
  {
    WebhookShape(seen, cur, d);
    var read, current := ReadAgainst(seen, cur, d);
    TransitionsAgreeIff(read, current, d);
  }

  lemma {:induction false} SerializedUpTo(hist: seq<Tables>, steps: seq<Step>, replies: seq<Reply>, n: nat)
    requires Run(hist, steps, replies) && Serialized(hist, steps) && n <= |steps|
    ensures HarmlessUpTo(hist, steps, replies, n)
  {
    if n > 0 {
      SerializedUpTo(hist, steps, replies, n - 1);
      SerializedNext(hist, steps, replies, n - 1);
    }
  }

  lemma SerializedNext(hist: seq<Tables>, steps: seq<Step>, replies: seq<Reply>, n: nat)
    requires Run(hist, steps, replies) && n < |steps| && HarmlessUpTo(hist, steps, replies, n)
    requires steps[n].Delivering? ==> CurrentRead(hist, n, steps[n])
    ensures HarmlessAt(hist, steps, replies, n)
  {
    if Processed(steps, replies, n) {
      ExplainedUpTo(hist, steps, replies, n);
      RunSafe(hist, steps, replies, n);
      TakenStep(hist, steps, replies, n);
      ProcessedHarmlessly(hist, n, steps[n], hist[n + 1], replies[n]);
    }
  }

  lemma ProcessedHarmlessly(hist: seq<Tables>, n: nat, s: Step, next: Tables, reply: Reply)
    requires Taken(hist, n, s, next, reply) && Safe(hist, n) && s.Delivering? && CurrentRead(hist, n, s)
    requires AllExplained(hist[s.seen]) && AllExplained(hist[n])
    requires reply.WebhookReply? && reply.webhook.Ok? && !reply.webhook.value.1
    ensures HarmlessRead(hist[s.seen], hist[n], s.delivery)
  {
    DeliveryExecuted(hist, n, s, next, reply);
    FromSafe(hist, n, n);
    FromSafe(hist, n, s.seen);
    CurrentIsHarmless(hist[s.seen], hist[n], s.delivery);
  }

  /** Webhooks that run one at a time never read harmfully. */
  lemma SerializedIsHarmless(hist: seq<Tables>, steps: seq<Step>, replies: seq<Reply>)
    requires Run(hist, steps, replies) && Serialized(hist, steps)
    ensures HarmlessReads(hist, steps, replies)
  {
    SerializedUpTo(hist, steps, replies, |steps|);
  }

  // ---------- what a harmful read loses ----------

  lemma StillAdmits(t: Tables, middle: Tables, first: Delivery, second: Delivery)
    requires Admits(t, t, second)
    requires middle.inbox == t.inbox + [first.Message()]
    requires OneMoreEvent(t.outbox, middle.outbox, first.eventId)
    requires first.externalEventId != second.externalEventId && first.inboxId != second.inboxId
    requires first.eventId != second.eventId
    ensures Admits(t, middle, second)
  {
    InInboxSnoc(t.inbox, first.Message(), second.provider, second.externalEventId);
    var e := middle.outbox[|t.outbox|];
    assert middle.outbox == t.outbox + [e];
    AbsentSnoc(t, middle, e, second.eventId);
  }

  /** The lost update: two webhooks read the same AWAITING_PAYMENT row, the failure commits first, and
      the success, computed from its stale read, overwrites FAILED with PROCESSING. Both messages are
      stored, so the row is no longer the replay of its messages. */
  lemma StaleReadLosesFailure(t: Tables, middle: Tables, after: Tables, failure: Delivery, success: Delivery)
    requires QuotesOk(t) && ConversionsOk(t) && Admits(t, t, failure) && Admits(t, t, success)
    requires failure.conversionId == success.conversionId
    requires failure.topic == PaymentFailed && success.topic == PaymentSucceeded
    requires failure.externalEventId != success.externalEventId
    requires failure.inboxId != success.inboxId && failure.eventId != success.eventId
    requires middle == Webhook(t, t, failure).tables && after == Webhook(t, middle, success).tables
    ensures HasStatus(middle, failure.conversionId, Failed)
    ensures HasStatus(after, failure.conversionId, Processing)
    ensures after.inbox == t.inbox + [failure.Message()] + [success.Message()]
    ensures !Explained(after, after.conversions[ConversionAt(after.conversions, failure.conversionId)])
  {
    FailureLands(t, middle, failure);
    StillAdmits(t, middle, failure, success);
    SuccessOverwrites(t, middle, after, success);
    NotAdmissibleAfterFailure(after, failure.conversionId, t.inbox, failure.Message(), success.Message());
  }

  lemma FailureLands(t: Tables, middle: Tables, failure: Delivery)
    requires QuotesOk(t) && ConversionsOk(t) && Admits(t, t, failure)
    requires failure.topic == PaymentFailed && middle == Webhook(t, t, failure).tables
    ensures ConversionsOk(middle) && Grows(t, middle)
    ensures middle.inbox == t.inbox + [failure.Message()]
    ensures OneMoreEvent(t.outbox, middle.outbox, failure.eventId)
    ensures HasStatus(middle, failure.conversionId, Failed)
  {
    TopicStatus(GetConversion(t, failure.conversionId).value, failure);
    GrowsReflexive(t);
    LateCommit(t, t, failure);
  }

  lemma SuccessOverwrites(t: Tables, middle: Tables, after: Tables, success: Delivery)
    requires QuotesOk(t) && ConversionsOk(t) && ConversionsOk(middle) && Grows(t, middle) && Admits(t, middle, success)
    requires success.topic == PaymentSucceeded && after == Webhook(t, middle, success).tables
    ensures after.inbox == middle.inbox + [success.Message()]
    ensures HasStatus(after, success.conversionId, Processing)
  {
    TopicStatus(GetConversion(t, success.conversionId).value, success);
    LateCommit(t, middle, success);
  }

  lemma NotAdmissibleAfterFailure(after: Tables, id: string, inbox: seq<InboxRow>, failure: InboxRow, success: InboxRow)
    requires after.inbox == inbox + [failure] + [success] && failure.conversionId == success.conversionId == id
    requires success.topic == PaymentSucceeded
    ensures forall row: ConversionRow :: row.id == id ==> !Explained(after, row)
  {
    LastTwo(inbox, failure, success, id);
    forall row: ConversionRow | row.id == id ensures !Explained(after, row) {
      if Explained(after, row) {
        ExplainedState(after, row);
      }
    }
  }

  lemma LastTwo(inbox: seq<InboxRow>, a: InboxRow, b: InboxRow, id: string)
    requires a.conversionId == b.conversionId == id && b.topic == PaymentSucceeded
    ensures !Admissible(InboxOf(inbox + [a] + [b], id))
  {
    InboxOfSnoc(inbox, a, id);
    InboxOfSnoc(inbox + [a], b, id);
    var msgs := InboxOf(inbox, id) + [a] + [b];
    assert msgs[|msgs| - 1].topic == PaymentSucceeded;
  }
}
