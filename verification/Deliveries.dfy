/** Webhook deliveries handled one after another: duplicates, rejections, failures after completion and
    events that arrive out of order. */
module Deliveries {
  import opened Quotes
  import opened Conversions
  import opened Tables
  import opened Protocol
  import opened Invariants
  import opened Interleaving
  import opened Replay
  import opened Commits

  // ---------- serial delivery sequences ----------

  function Deliver(t: Tables, d: Delivery): Tables {
    Webhook(t, t, d).tables
  }

  function DeliverAll(t: Tables, ds: seq<Delivery>): Tables
    decreases |ds|
  {
    if ds == [] then t else DeliverAll(Deliver(t, ds[0]), ds[1..])
  }

  ghost predicate Accepts(t: Tables, d: Delivery) {
    WebhookBody(t, t, d).Ok? && !WebhookBody(t, t, d).value.1.1
  }

  /** The deliveries that are accepted in turn. */
  ghost function FirstAccepted(t: Tables, ds: seq<Delivery>): seq<Delivery>
    decreases |ds|
  {
    if ds == [] then []
    else (if Accepts(t, ds[0]) then [ds[0]] else []) + FirstAccepted(Deliver(t, ds[0]), ds[1..])
  }

  /** No event twice, and none that the inbox already holds. */
  ghost predicate Unrepeated(inbox: seq<InboxRow>, ds: seq<Delivery>) {
    && (forall a :: 0 <= a < |ds| ==> !InInbox(inbox, ds[a].provider, ds[a].externalEventId))
    && (forall a, b :: 0 <= a < b < |ds| ==>
          ds[a].provider != ds[b].provider || ds[a].externalEventId != ds[b].externalEventId)
  }

  lemma UnrepeatedFirst(inbox: seq<InboxRow>, d: Delivery, rest: seq<Delivery>)
    requires !InInbox(inbox, d.provider, d.externalEventId) && Unrepeated(inbox + [d.Message()], rest)
    ensures Unrepeated(inbox, [d] + rest)
  {
    forall a | 0 <= a < |rest|
      ensures !InInbox(inbox, rest[a].provider, rest[a].externalEventId)
      ensures rest[a].provider != d.provider || rest[a].externalEventId != d.externalEventId
    {
      InInboxSnoc(inbox, d.Message(), rest[a].provider, rest[a].externalEventId);
    }
  }

  lemma AcceptedOnce(t: Tables, d: Delivery)
    requires QuotesOk(t) && ConversionsOk(t) && Accepts(t, d)
    ensures !InInbox(t.inbox, d.provider, d.externalEventId)
    ensures Deliver(t, d).inbox == t.inbox + [d.Message()]
  {
    GrowsReflexive(t);
    WebhookShape(t, t, d);
  }

  /** A run of deliveries ends as if only the first-accepted ones had arrived; each of those is then
      accepted again, adds one inbox row, and no two carry the same event. */
  lemma RejectedDeliveriesVanish(t: Tables, ds: seq<Delivery>)
    requires Consistent(t)
    ensures var kept := FirstAccepted(t, ds);
            && DeliverAll(t, kept) == DeliverAll(t, ds)
            && FirstAccepted(t, kept) == kept
            && |DeliverAll(t, ds).inbox| == |t.inbox| + |kept|
            && Unrepeated(t.inbox, kept)
    ensures Consistent(DeliverAll(t, ds)) && Grows(t, DeliverAll(t, ds))
  {
    KeptDeliveries(t, ds);
    DeliverAllSafe(t, ds);
  }

  lemma {:induction false} DeliverAllSafe(t: Tables, ds: seq<Delivery>)
    requires Consistent(t)
    ensures Consistent(DeliverAll(t, ds)) && Grows(t, DeliverAll(t, ds))
    decreases |ds|
  {
    if ds == [] {
      GrowsReflexive(t);
    } else {
      DeliverStep(t, ds[0]);
      DeliverAllSafe(Deliver(t, ds[0]), ds[1..]);
      GrowsTransitive(t, Deliver(t, ds[0]), DeliverAll(t, ds));
    }
  }

  lemma {:induction false} KeptDeliveries(t: Tables, ds: seq<Delivery>)
    requires Consistent(t)
    ensures var kept := FirstAccepted(t, ds);
            && DeliverAll(t, kept) == DeliverAll(t, ds)
            && FirstAccepted(t, kept) == kept
            && |DeliverAll(t, ds).inbox| == |t.inbox| + |kept|
            && Unrepeated(t.inbox, kept)
    decreases |ds|
  {
    if ds != [] {
      var d, tail := ds[0], ds[1..];
      assert ds == [d] + tail;
      DeliverStep(t, d);
      KeptDeliveries(Deliver(t, d), tail);
      DeliverCons(t, d, tail);
      if Accepts(t, d) {
        KeepFirst(t, d, tail, FirstAccepted(Deliver(t, d), tail));
      } else {
        FirstSkipped(t, d, tail);
      }
    }
  }

  lemma DeliverStep(t: Tables, d: Delivery)
    requires Consistent(t)
    ensures Consistent(Deliver(t, d)) && Grows(t, Deliver(t, d))
    ensures if Accepts(t, d) then |Deliver(t, d).inbox| == |t.inbox| + 1 else Deliver(t, d) == t
  {
    WebhookSafe(t, t, d);
    if Accepts(t, d) {
      AcceptedOnce(t, d);
    } else {
      WebhookUnchanged(t, t, d);
    }
  }

  lemma KeepFirst(t: Tables, d: Delivery, tail: seq<Delivery>, rest: seq<Delivery>)
    requires QuotesOk(t) && ConversionsOk(t) && Accepts(t, d) && rest == FirstAccepted(Deliver(t, d), tail)
    requires DeliverAll(Deliver(t, d), rest) == DeliverAll(Deliver(t, d), tail)
    requires FirstAccepted(Deliver(t, d), rest) == rest
    requires Unrepeated(Deliver(t, d).inbox, rest)
    ensures FirstAccepted(t, [d] + tail) == [d] + rest == FirstAccepted(t, [d] + rest)
    ensures DeliverAll(t, [d] + rest) == DeliverAll(t, [d] + tail)
    ensures Unrepeated(t.inbox, [d] + rest)
  {
    FirstAcceptedCons(t, d, tail);
    FirstAcceptedCons(t, d, rest);
    DeliverCons(t, d, tail);
    DeliverCons(t, d, rest);
    AcceptedOnce(t, d);
    UnrepeatedFirst(t.inbox, d, rest);
  }

  lemma FirstSkipped(t: Tables, d: Delivery, tail: seq<Delivery>)
    requires !Accepts(t, d)
    ensures FirstAccepted(t, [d] + tail) == FirstAccepted(Deliver(t, d), tail)
  {
    assert ([d] + tail)[1..] == tail;
    assert [] + FirstAccepted(Deliver(t, d), tail) == FirstAccepted(Deliver(t, d), tail);
  }

  lemma DeliverCons(t: Tables, d: Delivery, rest: seq<Delivery>)
    ensures DeliverAll(t, [d] + rest) == DeliverAll(Deliver(t, d), rest)
  {
    assert ([d] + rest)[1..] == rest;
  }

  lemma FirstAcceptedCons(t: Tables, d: Delivery, rest: seq<Delivery>)
    requires Accepts(t, d)
    ensures FirstAccepted(t, [d] + rest) == [d] + FirstAccepted(Deliver(t, d), rest)
  {
    assert ([d] + rest)[1..] == rest;
  }

  // ---------- out-of-order delivery ----------

  /** A (re)delivery of one provider event; every attempt draws its own ids and instant. */
  ghost predicate AttemptAt(d: Delivery, h: Handler, provider: Provider, topic: Topic, event: string, id: string) {
    && d.handler == h && d.provider == provider && d.topic == topic && d.externalEventId == event
    && d.conversionId == id && d.Message().Validate().Ok?
  }

  ghost predicate FreshIds(t: Tables, ds: seq<Delivery>) {
    && (forall a, b :: 0 <= a < b < |ds| ==> ds[a].inboxId != ds[b].inboxId && ds[a].eventId != ds[b].eventId)
    && (forall a, k :: 0 <= a < |ds| && 0 <= k < |t.inbox| ==> t.inbox[k].id != ds[a].inboxId)
    && (forall a :: 0 <= a < |ds| ==> Absent(t, ds[a].eventId))
  }

  datatype Pair = Pair(
    payer: Provider, paymentEvent: string, mover: Provider, transferEvent: string, conversionId: string)
  {
    ghost predicate Payment(d: Delivery) {
      AttemptAt(d, PaymentHandler, payer, PaymentSucceeded, paymentEvent, conversionId)
    }

    ghost predicate Transfer(d: Delivery) {
      AttemptAt(d, TransferHandler, mover, TransferCompleted, transferEvent, conversionId)
    }
  }

  ghost predicate Attempts(p: Pair, ds: seq<Delivery>) {
    forall a :: 0 <= a < |ds| ==> p.Payment(ds[a]) || p.Transfer(ds[a])
  }

  /** How far the pair has come: nothing stored, the payment stored, or both stored. */
  ghost predicate Stage(t: Tables, p: Pair, s: Status) {
    && (p.payer != p.mover || p.paymentEvent != p.transferEvent)
    && Known(t.conversions, p.conversionId)
    && t.conversions[ConversionAt(t.conversions, p.conversionId)].status == s
    && (s == AwaitingPayment || s == Processing || s == Completed)
    && (InInbox(t.inbox, p.payer, p.paymentEvent) <==> s != AwaitingPayment)
    && (InInbox(t.inbox, p.mover, p.transferEvent) <==> s == Completed)
  }

  function StageAfter(s: Status, payment: bool): Status {
    if s == AwaitingPayment && payment then Processing
    else if s == Processing && !payment then Completed
    else s
  }

  lemma StageStep(t: Tables, p: Pair, s: Status, ds: seq<Delivery>)
    requires QuotesOk(t) && ConversionsOk(t) && Stage(t, p, s) && ds != [] && Attempts(p, ds) && FreshIds(t, ds)
    ensures Stage(Deliver(t, ds[0]), p, StageAfter(s, p.Payment(ds[0])))
    ensures FreshIds(Deliver(t, ds[0]), ds[1..])
  {
    StageAdmits(t, p, s, ds[0]);
    FreshTail(t, ds);
    if Admits(t, t, ds[0]) {
      StageCommits(t, p, s, ds[0]);
      FreshCommits(t, ds);
    } else {
      NotAdmitted(t, ds[0]);
    }
  }

  lemma NotAdmitted(t: Tables, d: Delivery)
    requires QuotesOk(t) && ConversionsOk(t) && !Admits(t, t, d)
    ensures Deliver(t, d) == t
  {
    CommitsIff(t, t, d);
    WebhookUnchanged(t, t, d);
  }

  lemma StageCommits(t: Tables, p: Pair, s: Status, d: Delivery)
    requires QuotesOk(t) && ConversionsOk(t) && Stage(t, p, s) && Admits(t, t, d)
    requires p.Payment(d) || p.Transfer(d)
    requires Transition(GetConversion(t, d.conversionId).value, d).value.status == StageAfter(s, p.Payment(d)) != s
    ensures Stage(Deliver(t, d), p, StageAfter(s, p.Payment(d)))
  {
    GrowsReflexive(t);
    var i, c := Committed(t, t, d);
    StageMoved(t, p, s, d, i, c);
  }

  lemma FreshCommits(t: Tables, ds: seq<Delivery>)
    requires QuotesOk(t) && ConversionsOk(t) && ds != [] && Admits(t, t, ds[0]) && FreshIds(t, ds)
    ensures FreshIds(Deliver(t, ds[0]), ds[1..])
  {
    GrowsReflexive(t);
    FreshTail(t, ds);
    var i, c := Committed(t, t, ds[0]);
    FreshAfter(t, ds, i, c);
  }

  lemma FreshTail(t: Tables, ds: seq<Delivery>)
    requires ds != [] && FreshIds(t, ds)
    ensures FreshIds(t, ds[1..])
    ensures forall a :: 0 <= a < |ds[1..]| ==>
                  ds[1..][a].inboxId != ds[0].inboxId && ds[1..][a].eventId != ds[0].eventId
    ensures Absent(t, ds[0].eventId) && forall k :: 0 <= k < |t.inbox| ==> t.inbox[k].id != ds[0].inboxId
  {
    forall a | 0 <= a < |ds[1..]|
      ensures ds[1..][a].inboxId != ds[0].inboxId && ds[1..][a].eventId != ds[0].eventId
      ensures Absent(t, ds[1..][a].eventId)
    {
      assert ds[1..][a] == ds[a + 1];
    }
  }

  /** At each stage exactly the missing event is admitted. */
  lemma StageAdmits(t: Tables, p: Pair, s: Status, d: Delivery)
    requires QuotesOk(t) && ConversionsOk(t) && Stage(t, p, s) && (p.Payment(d) || p.Transfer(d))
    requires Absent(t, d.eventId) && forall k :: 0 <= k < |t.inbox| ==> t.inbox[k].id != d.inboxId
    ensures Admits(t, t, d) <==> StageAfter(s, p.Payment(d)) != s
    ensures Admits(t, t, d) ==>
                  Transition(GetConversion(t, d.conversionId).value, d).value.status == StageAfter(s, p.Payment(d))
  {
    ReadRow(t, p.conversionId);
    PairTransition(GetConversion(t, p.conversionId).value, p, s, d);
  }

  lemma PairTransition(c: Conversion, p: Pair, s: Status, d: Delivery)
    requires c.status == s && (s == AwaitingPayment || s == Processing || s == Completed)
    requires p.Payment(d) || p.Transfer(d)
    ensures Transition(c, d).Ok? <==> StageAfter(s, p.Payment(d)) != s
    ensures Transition(c, d).Ok? ==> Transition(c, d).value.status == StageAfter(s, p.Payment(d))
  {
  }

  lemma StageMoved(t: Tables, p: Pair, s: Status, d: Delivery, i: nat, c: Conversion)
    requires Stage(t, p, s) && (p.Payment(d) || p.Transfer(d))
    requires i == ConversionAt(t.conversions, p.conversionId)
    requires Movable(t, i, ConversionFromDomain(c), d.Message(), MovedEvent(c, d))
    requires c.status == StageAfter(s, p.Payment(d)) != s
    ensures Stage(Moving(t, i, ConversionFromDomain(c), d.Message(), MovedEvent(c, d)), p, c.status)
  {
    var next := Moving(t, i, ConversionFromDomain(c), d.Message(), MovedEvent(c, d));
    InInboxSnoc(t.inbox, d.Message(), p.payer, p.paymentEvent);
    InInboxSnoc(t.inbox, d.Message(), p.mover, p.transferEvent);
    MovingGrows(t, i, ConversionFromDomain(c), d.Message(), MovedEvent(c, d));
    ConversionAtStable(t, next, p.conversionId);
  }

  lemma FreshAfter(t: Tables, ds: seq<Delivery>, i: nat, c: Conversion)
    requires ds != [] && FreshIds(t, ds[1..]) && i < |t.conversions|
    requires forall a :: 0 <= a < |ds[1..]| ==>
                  ds[1..][a].inboxId != ds[0].inboxId && ds[1..][a].eventId != ds[0].eventId
    ensures FreshIds(Moving(t, i, ConversionFromDomain(c), ds[0].Message(), MovedEvent(c, ds[0])), ds[1..])
  {
    var next := Moving(t, i, ConversionFromDomain(c), ds[0].Message(), MovedEvent(c, ds[0]));
    forall a | 0 <= a < |ds[1..]| ensures Absent(next, ds[1..][a].eventId) {
      AbsentSnoc(t, next, MovedEvent(c, ds[0]), ds[1..][a].eventId);
    }
  }

  /** COMPLETED is not final: a later failure webhook still commits and moves the row to FAILED. */
  lemma CompletedCanFail(t: Tables, d: Delivery)
    requires QuotesOk(t) && ConversionsOk(t) && Known(t.conversions, d.conversionId)
    requires t.conversions[ConversionAt(t.conversions, d.conversionId)].status == Completed
    requires Handles(d.handler, d.topic) && FailureTopic(d.topic) && d.Message().Validate().Ok?
    requires !InInbox(t.inbox, d.provider, d.externalEventId) && Absent(t, d.eventId)
    requires forall k :: 0 <= k < |t.inbox| ==> t.inbox[k].id != d.inboxId
    ensures HasStatus(Deliver(t, d), d.conversionId, Failed)
  {
    GrowsReflexive(t);
    ReadRow(t, d.conversionId);
    TopicStatus(GetConversion(t, d.conversionId).value, d);
    LateCommit(t, t, d);
  }

  /** The statuses that end COMPLETED: already there, or all that is missing arrives in order. */
  ghost predicate Completes(p: Pair, s: Status, ds: seq<Delivery>) {
    match s
    case AwaitingPayment => exists a, b :: 0 <= a < b < |ds| && p.Payment(ds[a]) && p.Transfer(ds[b])
    case Processing => exists b :: 0 <= b < |ds| && p.Transfer(ds[b])
    case _ => true
  }

  lemma CompletesStep(p: Pair, s: Status, ds: seq<Delivery>)
    requires ds != [] && Attempts(p, ds) && (s == AwaitingPayment || s == Processing || s == Completed)
    ensures Completes(p, s, ds) <==> Completes(p, StageAfter(s, p.Payment(ds[0])), ds[1..])
  {
    var rest := ds[1..];
    assert forall a :: 0 < a < |ds| ==> ds[a] == rest[a - 1];
    assert p.Payment(ds[0]) || p.Transfer(ds[0]);
    if s == AwaitingPayment {
      if p.Payment(ds[0]) {
        if Completes(p, Processing, rest) {
          var b :| 0 <= b < |rest| && p.Transfer(rest[b]);
          assert p.Transfer(ds[b + 1]);
        }
      } else if Completes(p, AwaitingPayment, rest) {
        var a, b :| 0 <= a < b < |rest| && p.Payment(rest[a]) && p.Transfer(rest[b]);
        assert p.Payment(ds[a + 1]) && p.Transfer(ds[b + 1]);
      }
    } else if s == Processing && p.Payment(ds[0]) && Completes(p, Processing, rest) {
      var b :| 0 <= b < |rest| && p.Transfer(rest[b]);
      assert p.Transfer(ds[b + 1]);
    }
  }

  lemma StagesNext(t: Tables, p: Pair, s: Status, ds: seq<Delivery>)
    requires Consistent(t) && Stage(t, p, s) && ds != [] && Attempts(p, ds) && FreshIds(t, ds)
    ensures var next := Deliver(t, ds[0]);
            Consistent(next) && Stage(next, p, StageAfter(s, p.Payment(ds[0]))) && FreshIds(next, ds[1..])
  {
    DeliverStep(t, ds[0]);
    StageStep(t, p, s, ds);
  }

  lemma AttemptsTail(p: Pair, ds: seq<Delivery>)
    requires ds != [] && Attempts(p, ds)
    ensures Attempts(p, ds[1..])
  {
  }

  lemma {:induction false} StagesComplete(t: Tables, p: Pair, s: Status, ds: seq<Delivery>)
    requires Consistent(t) && Stage(t, p, s) && Attempts(p, ds) && FreshIds(t, ds)
    ensures var end := DeliverAll(t, ds).conversions;
            && Known(end, p.conversionId)
            && (end[ConversionAt(end, p.conversionId)].status == Completed <==> Completes(p, s, ds))
    decreases |ds|
  {
    if ds != [] {
      StagesNext(t, p, s, ds);
      AttemptsTail(p, ds);
      CompletesStep(p, s, ds);
      StagesComplete(Deliver(t, ds[0]), p, StageAfter(s, p.Payment(ds[0])), ds[1..]);
    }
  }

  /** Over any sequence of redeliveries of one payment.succeeded and one transfer.completed, a fresh
      conversion ends COMPLETED exactly when some transfer delivery follows some payment delivery: a
      transfer that comes too early rolls back and leaves no inbox row behind to block its retry. */
  lemma OutOfOrderTolerated(t: Tables, p: Pair, ds: seq<Delivery>)
    requires Consistent(t) && Stage(t, p, AwaitingPayment) && Attempts(p, ds) && FreshIds(t, ds)
    ensures var end := DeliverAll(t, ds).conversions;
            && Known(end, p.conversionId)
            && (end[ConversionAt(end, p.conversionId)].status == Completed <==>
                  exists a, b :: 0 <= a < b < |ds| && p.Payment(ds[a]) && p.Transfer(ds[b]))
  {
    StagesComplete(t, p, AwaitingPayment, ds);
  }
}
