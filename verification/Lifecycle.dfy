/** What runs whose webhook reads are harmless guarantee about statuses, references and events. */
module Lifecycle {
  import opened Conversions
  import opened Tables
  import opened Interleaving
  import opened Replay
  import opened Settlement
  import opened Races

  lemma {:induction false} TrailShape(c: Conversion, msgs: seq<InboxRow>)
    requires Replayed(c, msgs).Ok?
    ensures |Trail(c, msgs)| == 1 + |msgs| && Trail(c, msgs)[0] == Created
    ensures forall k :: 0 < k <= |msgs| ==>
              Replayed(c, msgs[..k]).Ok? && Trail(c, msgs)[k] == Moved(Replayed(c, msgs[..k]).value.status)
  {
    if msgs != [] {
      var init := msgs[..|msgs| - 1];
      TrailShape(c, init);
      forall k | 0 < k <= |msgs|
        ensures Replayed(c, msgs[..k]).Ok? && Trail(c, msgs)[k] == Moved(Replayed(c, msgs[..k]).value.status)
      {
        if k < |msgs| {
          assert msgs[..k] == init[..k];
        } else {
          assert msgs[..k] == msgs;
        }
      }
    }
  }

  /** In a run without harmful reads a row's status, references and failure reason are determined by its stored
      messages, which form an admissible sequence. */
  lemma StateIsHistory(hist: seq<Tables>, steps: seq<Step>, replies: seq<Reply>, n: nat, i: nat)
    requires Run(hist, steps, replies) && HarmlessReads(hist, steps, replies) && n <= |steps|
    requires i < |hist[n].conversions|
    ensures var row, msgs := hist[n].conversions[i], InboxOf(hist[n].inbox, hist[n].conversions[i].id);
            && Admissible(msgs)
            && row.status == StatusAfter(msgs)
            && row.externalPaymentId == FirstReference(msgs, true)
            && row.externalTransferId == FirstReference(msgs, false)
            && row.failureReason == LastFailure(msgs)
            && row.updatedAt == LastMoved(row.createdAt, msgs)
  {
    RunExplained(hist, steps, replies, n);
    ExplainedState(hist[n], hist[n].conversions[i]);
  }

  lemma {:induction false} LastFailureIff(msgs: seq<InboxRow>)
    ensures LastFailure(msgs).Some? <==> HasFailure(msgs)
  {
    if msgs != [] {
      var init := msgs[..|msgs| - 1];
      LastFailureIff(init);
      HasFailureSnoc(init, msgs[|msgs| - 1]);
      assert msgs == init + [msgs[|msgs| - 1]];
    }
  }

  /** A COMPLETED row's stored messages are exactly payment.succeeded, then transfer.completed; a
      failure reason is set exactly on FAILED rows, exactly when some failure was stored. */
  lemma CompletedAndFailed(hist: seq<Tables>, steps: seq<Step>, replies: seq<Reply>, n: nat, i: nat)
    requires Run(hist, steps, replies) && HarmlessReads(hist, steps, replies) && n <= |steps|
    requires i < |hist[n].conversions|
    ensures var row, msgs := hist[n].conversions[i], InboxOf(hist[n].inbox, hist[n].conversions[i].id);
            && (row.status == Completed <==>
                  |msgs| == 2 && msgs[0].topic == PaymentSucceeded && msgs[1].topic == TransferCompleted)
            && (row.status == Failed <==> HasFailure(msgs))
            && (row.status == Failed <==> row.failureReason.Some?)
  {
    StateIsHistory(hist, steps, replies, n, i);
    var msgs := InboxOf(hist[n].inbox, hist[n].conversions[i].id);
    UnfailedAdmissible(msgs);
    LastFailureIff(msgs);
    if |msgs| == 2 && msgs[0].topic == PaymentSucceeded && msgs[1].topic == TransferCompleted {
      assert !HasFailure(msgs);
    }
  }

  /** A conversion's events: conversion.created, then one per stored message, each naming the status
      that message left; the last names the row's current status. */
  lemma EventsTellTheStory(hist: seq<Tables>, steps: seq<Step>, replies: seq<Reply>, n: nat, i: nat)
    requires Run(hist, steps, replies) && HarmlessReads(hist, steps, replies) && n <= |steps|
    requires i < |hist[n].conversions|
    ensures var row := hist[n].conversions[i];
            var msgs, events := InboxOf(hist[n].inbox, row.id), EventsOf(hist[n].outbox, row.id);
            && |events| == 1 + |msgs| && events[0] == Created
            && (forall k :: 0 < k <= |msgs| ==> events[k] == Moved(StatusAfter(msgs[..k])))
            && (msgs != [] ==> events[|msgs|] == Moved(row.status))
  {
    RunExplained(hist, steps, replies, n);
    var t, row := hist[n], hist[n].conversions[i];
    assert Explained(t, row);
    ExplainedState(t, row);
    var origin, msgs := Origin(t.quotes, row).value, InboxOf(t.inbox, row.id);
    TrailShape(origin, msgs);
    forall k | 0 < k <= |msgs| ensures Trail(origin, msgs)[k] == Moved(StatusAfter(msgs[..k])) {
      ReplayedState(origin, msgs[..k]);
    }
    assert msgs[..|msgs|] == msgs;
  }

  /** Along a run without harmful reads a conversion's rank never falls, FAILED is never left, and an external
      reference once set is never changed, although the transitions overwrite it unconditionally. */
  lemma LifecycleMonotone(hist: seq<Tables>, steps: seq<Step>, replies: seq<Reply>, m: nat, n: nat, i: nat)
    requires Run(hist, steps, replies) && HarmlessReads(hist, steps, replies) && m <= n <= |steps|
    requires i < |hist[m].conversions|
    ensures i < |hist[n].conversions|
    ensures var early, late := hist[m].conversions[i], hist[n].conversions[i];
            && Rank(early.status) <= Rank(late.status)
            && (early.status == Failed ==> late.status == Failed)
            && (early.externalPaymentId.Some? ==> late.externalPaymentId == early.externalPaymentId)
            && (early.externalTransferId.Some? ==> late.externalTransferId == early.externalTransferId)
  {
    History(hist, steps, replies, m, n);
    RunExplained(hist, steps, replies, m);
    RunExplained(hist, steps, replies, n);
    ExplainedMonotone(hist[m], hist[n], hist[m].conversions[i], hist[n].conversions[i]);
  }
}
