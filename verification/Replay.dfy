/** A conversion as the fold of its webhook messages: which message sequences the automaton admits,
    and what status, references and failure reason each leaves. */
module Replay {
  import opened Core
  import opened Conversions
  import opened Tables

  /** The transitions of the messages, in commit order, from a starting conversion. */
  function Replayed(c: Conversion, msgs: seq<InboxRow>): Result<Conversion> {
    if msgs == [] then Ok(c)
    else
      var m := msgs[|msgs| - 1];
      var prev :- Replayed(c, msgs[..|msgs| - 1]);
      prev.Apply(m.topic, m.externalRef, m.receivedAt)
  }

  /** The event types the outbox must hold for these messages. */
  function Trail(c: Conversion, msgs: seq<InboxRow>): seq<EventType> {
    if msgs == [] then [Created]
    else
      var now := Replayed(c, msgs);
      Trail(c, msgs[..|msgs| - 1]) + if now.Ok? then [Moved(now.value.status)] else []
  }

  /** As FromQuote leaves it. */
  ghost predicate Newborn(c: Conversion) {
    c.updatedAt == c.createdAt && c.status == AwaitingPayment && c.externalPaymentId.None?
      && c.externalTransferId.None? && c.failureReason.None?
  }

  predicate FailureTopic(t: Topic) {
    t.PaymentFailed? || t.TransferFailed?
  }

  predicate PaymentTopic(t: Topic) {
    t.PaymentSucceeded? || t.PaymentFailed?
  }

  predicate TransferTopic(t: Topic) {
    t.TransferCompleted? || t.TransferFailed?
  }

  /** Failures come at any time, the payment's success only first, the transfer's only right after it. */
  ghost predicate Admissible(msgs: seq<InboxRow>) {
    forall i :: 0 <= i < |msgs| ==>
      || FailureTopic(msgs[i].topic)
      || (msgs[i].topic.PaymentSucceeded? && i == 0)
      || (msgs[i].topic.TransferCompleted? && i == 1 && msgs[0].topic.PaymentSucceeded?)
  }

  ghost predicate HasFailure(msgs: seq<InboxRow>) {
    exists i :: 0 <= i < |msgs| && FailureTopic(msgs[i].topic)
  }

  /** The status an admissible sequence of messages leaves. */
  ghost function StatusAfter(msgs: seq<InboxRow>): Status {
    if HasFailure(msgs) then Failed
    else if |msgs| == 0 then AwaitingPayment
    else if |msgs| == 1 then Processing
    else Completed
  }

  /** The first non-empty reference among messages of one kind. */
  function FirstReference(msgs: seq<InboxRow>, payment: bool): Option<string> {
    if msgs == [] then None
    else
      var earlier, m := FirstReference(msgs[..|msgs| - 1], payment), msgs[|msgs| - 1];
      if earlier.Some? then earlier
      else if (if payment then PaymentTopic(m.topic) else TransferTopic(m.topic)) && m.externalRef.Some?
        && m.externalRef.value != ""
      then m.externalRef else None
  }

  /** The text of the last failure. */
  function LastFailure(msgs: seq<InboxRow>): Option<string> {
    if msgs == [] then None
    else
      match msgs[|msgs| - 1].topic
      case PaymentFailed => Some("payment.failed")
      case TransferFailed => Some("transfer.failed")
      case _ => LastFailure(msgs[..|msgs| - 1])
  }

  /** When the last message moved a conversion created at `born`. */
  function LastMoved(born: int, msgs: seq<InboxRow>): int {
    if msgs == [] then born else msgs[|msgs| - 1].receivedAt
  }

  /** The columns of a conversion that its messages determine. */
  ghost predicate Reflects(d: Conversion, msgs: seq<InboxRow>) {
    && d.status == StatusAfter(msgs)
    && d.externalPaymentId == FirstReference(msgs, true)
    && d.externalTransferId == FirstReference(msgs, false)
    && d.failureReason == LastFailure(msgs)
    && d.updatedAt == LastMoved(d.createdAt, msgs)
  }

  /** The automaton accepts exactly the admissible sequences; status, both external references and the
      failure reason are then functions of the messages alone, whatever the overwriting code suggests. */
  lemma {:induction false} ReplayedState(c: Conversion, msgs: seq<InboxRow>)
    requires Newborn(c)
    ensures Replayed(c, msgs).Ok? <==> Admissible(msgs)
    ensures Replayed(c, msgs).Ok? ==> Reflects(Replayed(c, msgs).value, msgs)
  {
    if msgs != [] {
      var init, m := msgs[..|msgs| - 1], msgs[|msgs| - 1];
      ReplayedState(c, init);
      assert msgs == init + [m];
      AdmissibleSnoc(init, m);
      if Admissible(init) {
        ReflectsStep(Replayed(c, init).value, init, m);
      }
    }
  }

  lemma ReflectsStep(d: Conversion, init: seq<InboxRow>, m: InboxRow)
    requires Admissible(init) && Reflects(d, init)
    ensures d.Apply(m.topic, m.externalRef, m.receivedAt).Ok? <==> Admissible(init + [m])
    ensures d.Apply(m.topic, m.externalRef, m.receivedAt).Ok? ==>
              Reflects(d.Apply(m.topic, m.externalRef, m.receivedAt).value, init + [m])
  {
    AppliesIff(d, init, m);
    if FailureTopic(m.topic) {
      FailureReflected(d, init, m);
    } else if d.Apply(m.topic, m.externalRef, m.receivedAt).Ok? {
      SuccessReflected(d, init, m);
    }
  }

  lemma AppliesIff(d: Conversion, init: seq<InboxRow>, m: InboxRow)
    requires Admissible(init) && d.status == StatusAfter(init)
    ensures d.Apply(m.topic, m.externalRef, m.receivedAt).Ok? <==> Admissible(init + [m])
  {
    AdmissibleSnoc(init, m);
    UnfailedAdmissible(init);
  }

  lemma FailureReflected(d: Conversion, init: seq<InboxRow>, m: InboxRow)
    requires Reflects(d, init) && FailureTopic(m.topic)
    ensures d.Apply(m.topic, m.externalRef, m.receivedAt).Ok?
    ensures Reflects(d.Apply(m.topic, m.externalRef, m.receivedAt).value, init + [m])
  {
    assert (init + [m])[..|init|] == init;
    HasFailureSnoc(init, m);
  }

  lemma SuccessReflected(d: Conversion, init: seq<InboxRow>, m: InboxRow)
    requires Admissible(init) && Reflects(d, init) && !FailureTopic(m.topic)
    requires d.Apply(m.topic, m.externalRef, m.receivedAt).Ok?
    ensures Reflects(d.Apply(m.topic, m.externalRef, m.receivedAt).value, init + [m])
  {
    assert (init + [m])[..|init|] == init;
    HasFailureSnoc(init, m);
    UnfailedAdmissible(init);
    NoReferenceYet(init);
  }

  lemma AdmissibleSnoc(init: seq<InboxRow>, m: InboxRow)
    ensures Admissible(init + [m]) <==>
            && Admissible(init)
            && (|| FailureTopic(m.topic)
                || (m.topic.PaymentSucceeded? && init == [])
                || (m.topic.TransferCompleted? && |init| == 1 && init[0].topic.PaymentSucceeded?))
  {
    var msgs := init + [m];
    assert msgs[|init|] == m;
    assert forall i :: 0 <= i < |init| ==> msgs[i] == init[i];
  }

  lemma HasFailureSnoc(init: seq<InboxRow>, m: InboxRow)
    ensures HasFailure(init + [m]) <==> HasFailure(init) || FailureTopic(m.topic)
  {
    var msgs := init + [m];
    assert msgs[|init|] == m;
    assert forall i :: 0 <= i < |init| ==> msgs[i] == init[i];
    if HasFailure(init) {
      var i :| 0 <= i < |init| && FailureTopic(init[i].topic);
      assert FailureTopic(msgs[i].topic);
    }
  }

  /** Without a failure an admissible sequence is a prefix of payment.succeeded, transfer.completed. */
  lemma UnfailedAdmissible(msgs: seq<InboxRow>)
    requires Admissible(msgs)
    ensures HasFailure(msgs)
         || msgs == []
         || (|msgs| == 1 && msgs[0].topic.PaymentSucceeded?)
         || (|msgs| == 2 && msgs[0].topic.PaymentSucceeded? && msgs[1].topic.TransferCompleted?)
  {
    if |msgs| > 2 {
      assert FailureTopic(msgs[2].topic);
    }
  }

  lemma NoReferenceYet(msgs: seq<InboxRow>)
    ensures msgs == [] ==> FirstReference(msgs, true).None?
    ensures |msgs| == 1 && msgs[0].topic.PaymentSucceeded? ==> FirstReference(msgs, false).None?
  {
    if |msgs| == 1 {
      assert msgs[..0] == [];
    }
  }

  /** Rank in the lifecycle; FAILED is last. */
  function Rank(s: Status): nat {
    match s
    case Requested => 0
    case AwaitingPayment => 0
    case Processing => 1
    case Completed => 2
    case Failed => 3
    case Cancelled => 3
  }

  /** More messages never lower the rank, never unset or change an external reference, never leave FAILED. */
  lemma {:induction false} ReplayMonotone(c: Conversion, early: seq<InboxRow>, late: seq<InboxRow>)
    requires Newborn(c) && early <= late && Replayed(c, late).Ok?
    ensures Replayed(c, early).Ok?
    ensures var d, e := Replayed(c, early).value, Replayed(c, late).value;
            && Rank(d.status) <= Rank(e.status)
            && (d.status == Failed ==> e.status == Failed)
            && (d.externalPaymentId.Some? ==> e.externalPaymentId == d.externalPaymentId)
            && (d.externalTransferId.Some? ==> e.externalTransferId == d.externalTransferId)
  {
    if early == late {
    } else {
      var init := late[..|late| - 1];
      assert early <= init;
      ReplayMonotone(c, early, init);
      ReplayedState(c, init);
      ReplayedState(c, late);
    }
  }
}
