/** Concrete inputs on which the code falls short of what one might expect of it. */
module Counterexamples {
  import opened Core
  import opened Money
  import opened MoneyProofs
  import opened Quotes
  import opened Conversions
  import opened Tables
  import opened Protocol
  import opened Invariants
  import opened Interleaving
  import opened Replay
  import opened Settlement
  import opened Commits
  import opened Races

  /** 2 quadrillion won at 100% pass int64 in the product: the fee charged is not the fee advertised, and
      less than that of 900 trillion. */
  lemma FeeOverflows()
    ensures FeeFromBPS(Money(KRW, 2_000_000_000_000_000), 10_000, Money(KRW, 500))
             == Ok(Money(KRW, 155_325_592_629_045))
    ensures FeeFromBPS(Money(KRW, 900_000_000_000_000), 10_000, Money(KRW, 500)) == Ok(Money(KRW, 900_000_000_000_000))
  {
  }

  /** 2^62 won at rate 2 convert to a negative amount; one won less, or each of two halves, converts exactly. */
  lemma ConvertOverflows() returns (rate: Decimal, whole: Money, less: Money, half: Money)
    ensures Overflowing(rate, whole, less, half)
    ensures Convert(whole, JPY, rate).Ok? && Convert(whole, JPY, rate).value.minor == -0x8000_0000_0000_0000
    ensures Convert(less, JPY, rate).Ok? && Convert(less, JPY, rate).value.minor == 0x7FFF_FFFF_FFFF_FFFE
    ensures Convert(half, JPY, rate).Ok? && Convert(half, JPY, rate).value.minor == 0x4000_0000_0000_0000
  {
    rate, whole, less, half := OverflowingAmounts();
    Doubled(whole, rate);
    Doubled(less, rate);
    Doubled(half, rate);
  }

  ghost predicate Overflowing(rate: Decimal, whole: Money, less: Money, half: Money) {
    && rate.coef == 2 && rate.exp == 0
    && whole.currency == KRW && whole.minor == 0x4000_0000_0000_0000
    && less.currency == KRW && less.minor == 0x3FFF_FFFF_FFFF_FFFF
    && half.currency == KRW && half.minor == 0x2000_0000_0000_0000
  }

  lemma OverflowingAmounts() returns (rate: Decimal, whole: Money, less: Money, half: Money)
    ensures Overflowing(rate, whole, less, half)
  {
    rate, whole := Decimal(2, 0), Money(KRW, 0x4000_0000_0000_0000);
    less, half := Money(KRW, 0x3FFF_FFFF_FFFF_FFFF), Money(KRW, 0x2000_0000_0000_0000);
  }

  lemma Doubled(won: Money, rate: Decimal)
    requires won.currency == KRW && won.minor > 0 && rate.coef == 2 && rate.exp == 0
    ensures Convert(won, JPY, rate).Ok?
    ensures Convert(won, JPY, rate).value.minor
         == if FitsInt64(2 * won.minor) then 2 * won.minor else 2 * won.minor - TWO64
  {
    WrapSum(won.minor, won.minor);
    var product := won.DecimalAmount().Mul(rate).Shift(0);
    assert product == Decimal(2 * won.minor, 0);
    assert product.RoundBank() == 2 * won.minor by {
      assert Pow10(0) == 1;
    }
  }

  /** The largest amount plus any fee is a negative total. */
  lemma TotalOverflows()
    ensures Money(KRW, 0x7FFF_FFFF_FFFF_FFFF).Add(Money(KRW, 500)) == Ok(Money(KRW, -0x7FFF_FFFF_FFFF_FE0D))
  {
  }

  // ---------- a run that loses a failure ----------

  const RATE := ExchangeRate(KRW, JPY, Frankfurter, Decimal(1, 0), 0, 0)
  const QUOTE := QuoteRequest("k", Money(KRW, 1000), JPY, "q", 0, Money(KRW, 0), 0, 10)
  const ACCEPT := AcceptRequest("k", "q", Toss, Wise, "c", "e", 1)
  const FAILURE := Delivery(PaymentHandler, Toss, PaymentFailed, "f", "c", None, "", "m1", "e1", 2)
  const SUCCESS := Delivery(PaymentHandler, Toss, PaymentSucceeded, "s", "c", None, "", "m2", "e2", 3)

  /** Rates, a quote and its acceptance, then two webhooks that both read the row as it was accepted. */
  ghost predicate FiveSteps(steps: seq<Step>) {
    && |steps| == 5
    && steps[0] == Sync([RATE], 0) && steps[1] == Quoting(QUOTE, 1, 1) && steps[2] == Accepting(ACCEPT, 2, 2)
    && steps[3] == Delivering(FAILURE, 3) && steps[4] == Delivering(SUCCESS, 3)
  }

  lemma RateStored(batch: seq<ExchangeRate>)
    requires batch == [RATE]
    ensures UpsertRates(map[], batch, 0).Ok?
    ensures var key, rates := RateKey(Frankfurter, KRW, JPY), UpsertRates(map[], batch, 0).value;
            key in rates && rates[key].rate.coef > 0
  {
    assert CastNumeric(batch[0].rate).Some? && CastNumeric(batch[0].rate).value.coef > 0 by {
      assert Pow10(3) == 1000;
      assert Pow10(6) == 1000 * Pow10(3);
      assert Pow10(9) == 1000 * Pow10(6);
    }
    assert batch[..0] == [];
  }

  lemma AfterSync(hist: seq<Tables>, steps: seq<Step>, replies: seq<Reply>)
    requires Run(hist, steps, replies) && FiveSteps(steps)
    ensures hist[1] == EMPTY.(rates := hist[1].rates)
    ensures RateKey(Frankfurter, KRW, JPY) in hist[1].rates
             && hist[1].rates[RateKey(Frankfurter, KRW, JPY)].rate.coef > 0
  {
    TakenStep(hist, steps, replies, 0);
    RateStored([RATE]);
    SyncExecuted(hist, 0, steps[0], hist[1], replies[0]);
  }

  lemma SyncExecuted(hist: seq<Tables>, n: nat, s: Step, next: Tables, reply: Reply)
    requires Taken(hist, n, s, next, reply) && s.Sync? && UpsertRates(hist[n].rates, s.batch, s.at).Ok?
    ensures next == hist[n].(rates := UpsertRates(hist[n].rates, s.batch, s.at).value)
  {
  }

  lemma AfterQuote(hist: seq<Tables>, steps: seq<Step>, replies: seq<Reply>)
    requires Run(hist, steps, replies) && FiveSteps(steps)
    ensures hist[2] == EMPTY.(rates := hist[2].rates, quotes := hist[2].quotes) && |hist[2].quotes| == 1
    ensures hist[2].quotes[0].id == "q" && hist[2].quotes[0].acceptedAt.None? && hist[2].quotes[0].expiresAt == 10
  {
    AfterSync(hist, steps, replies);
    TakenStep(hist, steps, replies, 1);
    Reachable(hist, steps, replies, 1);
    QuotedFrom(hist[1], hist[2]);
  }

  lemma QuotedFrom(t: Tables, after: Tables)
    requires QuotesOk(t) && t == EMPTY.(rates := t.rates)
    requires RateKey(Frankfurter, KRW, JPY) in t.rates && t.rates[RateKey(Frankfurter, KRW, JPY)].rate.coef > 0
    requires after == CreateQuote(t, t, t, QUOTE).tables
    ensures after == EMPTY.(rates := after.rates, quotes := after.quotes) && |after.quotes| == 1
    ensures after.quotes[0].id == "q" && after.quotes[0].acceptedAt.None? && after.quotes[0].expiresAt == 10
  {
    FirstQuote(t, QUOTE);
  }

  lemma FirstQuote(t: Tables, req: QuoteRequest)
    requires QuotesOk(t) && t == EMPTY.(rates := t.rates) && Quotable(t, t, req)
    ensures var after := CreateQuote(t, t, t, req).tables;
            && |after.quotes| == 1 && after == t.(quotes := after.quotes)
            && after.quotes[0].id == req.id && after.quotes[0].acceptedAt.None?
            && after.quotes[0].expiresAt == req.now + req.ttl
  {
    QuotedIff(t, t, req);
    CreateQuoteShape(t, t, req);
  }

  lemma AfterAccept(hist: seq<Tables>, steps: seq<Step>, replies: seq<Reply>)
    requires Run(hist, steps, replies) && FiveSteps(steps)
    ensures |hist[3].conversions| == 1 && hist[3].conversions[0].id == "c"
             && hist[3].conversions[0].status == AwaitingPayment
    ensures hist[3].inbox == [] && |hist[3].outbox| == 1 && hist[3].outbox[0].id == "e"
  {
    AfterQuote(hist, steps, replies);
    TakenStep(hist, steps, replies, 2);
    Reachable(hist, steps, replies, 2);
    var t := hist[2];
    assert QuoteAt(t.quotes, "q") == 0;
    AcceptedBeforeExpiry(t, ACCEPT);
    AcceptShape(t, t, ACCEPT);
    AcceptOrigin(t, t, ACCEPT);
  }

  /** A payment webhook for a freshly accepted conversion is admitted. */
  lemma Admitted(t: Tables, d: Delivery)
    requires QuotesOk(t) && ConversionsOk(t)
    requires |t.conversions| == 1 && t.conversions[0].id == d.conversionId && t.conversions[0].status == AwaitingPayment
    requires t.inbox == [] && |t.outbox| == 1 && t.outbox[0].id != d.eventId
    requires d.handler == PaymentHandler && PaymentTopic(d.topic) && d.Message().Validate().Ok?
    ensures Admits(t, t, d)
  {
    ReadRow(t, d.conversionId);
    PaymentApplies(GetConversion(t, d.conversionId).value, d);
  }

  lemma PaymentApplies(c: Conversion, d: Delivery)
    requires c.status == AwaitingPayment && d.handler == PaymentHandler && PaymentTopic(d.topic)
    ensures Transition(c, d).Ok?
  {
  }

  lemma Extended(hist: seq<Tables>, steps: seq<Step>, replies: seq<Reply>, s: Step)
    returns (longer: seq<Tables>, allSteps: seq<Step>, allReplies: seq<Reply>)
    requires Run(hist, steps, replies) && Reads(hist, |steps|, s)
    ensures Run(longer, allSteps, allReplies) && allSteps == steps + [s] && |longer| == |hist| + 1
  {
    var (next, reply) := Execute(hist, |steps|, s);
    RunExtends(hist, steps, replies, s);
    longer, allSteps, allReplies := hist + [next], steps + [s], replies + [reply];
  }

  lemma SomeFiveSteps() returns (hist: seq<Tables>, steps: seq<Step>, replies: seq<Reply>)
    ensures Run(hist, steps, replies) && FiveSteps(steps)
  {
    hist, steps, replies := [EMPTY], [], [];
    hist, steps, replies := Extended(hist, steps, replies, Sync([RATE], 0));
    hist, steps, replies := Extended(hist, steps, replies, Quoting(QUOTE, 1, 1));
    hist, steps, replies := Extended(hist, steps, replies, Accepting(ACCEPT, 2, 2));
    hist, steps, replies := Extended(hist, steps, replies, Delivering(FAILURE, 3));
    hist, steps, replies := Extended(hist, steps, replies, Delivering(SUCCESS, 3));
  }

  /** There is a run that loses a failure: it ends PROCESSING with payment.failed stored, so with
      harmful reads a row need not be the replay of its messages. */
  lemma FailureIsLost() returns (hist: seq<Tables>, steps: seq<Step>, replies: seq<Reply>)
    ensures Run(hist, steps, replies) && FiveSteps(steps)
    ensures hist[5].inbox == [FAILURE.Message(), SUCCESS.Message()]
    ensures HasStatus(hist[4], "c", Failed) && HasStatus(hist[5], "c", Processing)
    ensures !AllExplained(hist[5])
  {
    hist, steps, replies := SomeFiveSteps();
    FiveStepsLose(hist, steps, replies);
  }

  lemma FiveStepsLose(hist: seq<Tables>, steps: seq<Step>, replies: seq<Reply>)
    requires Run(hist, steps, replies) && FiveSteps(steps)
    ensures hist[5].inbox == [FAILURE.Message(), SUCCESS.Message()]
    ensures HasStatus(hist[4], "c", Failed) && HasStatus(hist[5], "c", Processing)
    ensures !AllExplained(hist[5])
  {
    AfterAccept(hist, steps, replies);
    Reachable(hist, steps, replies, 3);
    LastTwoSteps(hist, steps, replies);
    LostFrom(hist[3], hist[4], hist[5]);
  }

  lemma LostFrom(t: Tables, middle: Tables, after: Tables)
    requires Consistent(t) && t.inbox == []
    requires |t.conversions| == 1 && t.conversions[0].id == "c" && t.conversions[0].status == AwaitingPayment
    requires |t.outbox| == 1 && t.outbox[0].id == "e"
    requires middle == Webhook(t, t, FAILURE).tables && after == Webhook(t, middle, SUCCESS).tables
    ensures after.inbox == [FAILURE.Message(), SUCCESS.Message()]
    ensures HasStatus(middle, "c", Failed) && HasStatus(after, "c", Processing)
    ensures !AllExplained(after)
  {
    BothAdmitted(t);
    Distinguished();
    Overwritten(t, middle, after, FAILURE, SUCCESS);
  }

  lemma Overwritten(t: Tables, middle: Tables, after: Tables, failure: Delivery, success: Delivery)
    requires QuotesOk(t) && ConversionsOk(t) && t.inbox == [] && Admits(t, t, failure) && Admits(t, t, success)
    requires failure.conversionId == success.conversionId
    requires failure.topic == PaymentFailed && success.topic == PaymentSucceeded
    requires failure.externalEventId != success.externalEventId
    requires failure.inboxId != success.inboxId && failure.eventId != success.eventId
    requires middle == Webhook(t, t, failure).tables && after == Webhook(t, middle, success).tables
    ensures after.inbox == [failure.Message(), success.Message()]
    ensures HasStatus(middle, failure.conversionId, Failed) && HasStatus(after, success.conversionId, Processing)
    ensures !AllExplained(after)
  {
    StaleReadLosesFailure(t, middle, after, failure, success);
  }

  lemma BothAdmitted(t: Tables)
    requires QuotesOk(t) && ConversionsOk(t) && t.inbox == []
    requires |t.conversions| == 1 && t.conversions[0].id == "c" && t.conversions[0].status == AwaitingPayment
    requires |t.outbox| == 1 && t.outbox[0].id == "e"
    ensures Admits(t, t, FAILURE) && Admits(t, t, SUCCESS)
  {
    Distinguished();
    FailureAdmitted(t);
    SuccessAdmitted(t);
  }

  lemma FailureAdmitted(t: Tables)
    requires QuotesOk(t) && ConversionsOk(t) && t.inbox == []
    requires |t.conversions| == 1 && t.conversions[0].id == "c" && t.conversions[0].status == AwaitingPayment
    requires |t.outbox| == 1 && t.outbox[0].id != FAILURE.eventId
    ensures Admits(t, t, FAILURE)
  {
    Admitted(t, FAILURE);
  }

  lemma SuccessAdmitted(t: Tables)
    requires QuotesOk(t) && ConversionsOk(t) && t.inbox == []
    requires |t.conversions| == 1 && t.conversions[0].id == "c" && t.conversions[0].status == AwaitingPayment
    requires |t.outbox| == 1 && t.outbox[0].id != SUCCESS.eventId
    ensures Admits(t, t, SUCCESS)
  {
    Admitted(t, SUCCESS);
  }

  lemma LastTwoSteps(hist: seq<Tables>, steps: seq<Step>, replies: seq<Reply>)
    requires Run(hist, steps, replies) && FiveSteps(steps)
    ensures hist[4] == Webhook(hist[3], hist[3], FAILURE).tables && hist[5] == Webhook(hist[3], hist[4], SUCCESS).tables
  {
    TakenStep(hist, steps, replies, 3);
    TakenStep(hist, steps, replies, 4);
  }

  lemma Distinguished()
    ensures FAILURE.externalEventId != SUCCESS.externalEventId
    ensures FAILURE.inboxId != SUCCESS.inboxId && FAILURE.eventId != SUCCESS.eventId
    ensures FAILURE.eventId != "e" && SUCCESS.eventId != "e"
  {
    assert |FAILURE.eventId| == |SUCCESS.eventId| == 2 && |"e"| == 1;
    assert FAILURE.externalEventId[0] != SUCCESS.externalEventId[0];
    assert FAILURE.inboxId[1] != SUCCESS.inboxId[1];
    assert FAILURE.eventId[1] != SUCCESS.eventId[1];
  }
}
