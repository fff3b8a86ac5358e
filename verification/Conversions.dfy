/** The conversion aggregate: creation from a quote and the four webhook transitions. */
module Conversions {
  import opened Core
  import opened Money
  import opened Quotes

  datatype Status = Requested | AwaitingPayment | Processing | Completed | Failed | Cancelled

  /** A webhook topic; every text other than the four handled ones is `Other`. */
  datatype Topic = PaymentSucceeded | PaymentFailed | TransferCompleted | TransferFailed | Other(text: string)

  const PAYMENT_FAILED := "payment.failed"
  const TRANSFER_FAILED := "transfer.failed"

  predicate SupportedPaymentProvider(p: Provider) {
    p == Toss || p == Stripe || p == Demo
  }

  predicate SupportedTransferProvider(p: Provider) {
    p == Wise || p == Plaid || p == Demo
  }

  datatype Conversion = Conversion(
    id: string, quoteId: string, key: string,
    baseAmount: Money, quoteAmount: Money, feeAmount: Money, totalDebit: Money,
    rate: Decimal, rateProvider: Provider, paymentProvider: Provider, transferProvider: Provider,
    status: Status,
    externalPaymentId: Option<string>, externalTransferId: Option<string>, failureReason: Option<string>,
    createdAt: int, updatedAt: int)
  {
    function AdvanceForPayment(reference: string, now: int): Result<Conversion> {
      if status != AwaitingPayment && status != Requested then Err(Conflict)
      else
        var c := this.(status := Processing, updatedAt := now);
        Ok(if reference != "" then c.(externalPaymentId := Some(reference)) else c)
    }

    function CompleteTransfer(reference: string, now: int): Result<Conversion> {
      if status != Processing then Err(Conflict)
      else
        var c := this.(status := Completed, updatedAt := now);
        Ok(if reference != "" then c.(externalTransferId := Some(reference)) else c)
    }

    function FailPayment(reason: string, reference: string, now: int): Conversion {
      var c := this.(status := Failed, updatedAt := now);
      var d := if reason != "" then c.(failureReason := Some(reason)) else c;
      if reference != "" && d.externalPaymentId.None? then d.(externalPaymentId := Some(reference)) else d
    }

    function FailTransfer(reason: string, reference: string, now: int): Conversion {
      var c := this.(status := Failed, updatedAt := now);
      var d := if reason != "" then c.(failureReason := Some(reason)) else c;
      if reference != "" && d.externalTransferId.None? then d.(externalTransferId := Some(reference)) else d
    }

    /** The transition a topic names; a missing external reference reads as the empty text. */
    function Apply(topic: Topic, externalRef: Option<string>, now: int): Result<Conversion> {
      var reference := if externalRef.Some? then externalRef.value else "";
      match topic
      case PaymentSucceeded => AdvanceForPayment(reference, now)
      case PaymentFailed => Ok(FailPayment(PAYMENT_FAILED, reference, now))
      case TransferCompleted => CompleteTransfer(reference, now)
      case TransferFailed => Ok(FailTransfer(TRANSFER_FAILED, reference, now))
      case Other(_) => Err(Validation)
    }
  }

  function FromQuote(id: string, key: string, source: Quote, paymentProvider: Provider, transferProvider: Provider,
                     now: int): Result<Conversion>
  {
    if id == "" then Err(Validation)
    else if !SupportedPaymentProvider(paymentProvider) then Err(Validation)
    else if !SupportedTransferProvider(transferProvider) then Err(Validation)
    else
      var _ :- source.CanAccept(now);
      Ok(Conversion(id, source.id, key,
                    source.baseAmount, source.quoteAmount, source.feeAmount, source.totalDebit,
                    source.rate, source.rateProvider, paymentProvider, transferProvider,
                    AwaitingPayment, None, None, None, now, now))
  }
}
