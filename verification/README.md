# FX settlement: a Dafny model

The service quotes currency conversions, lets a client accept a quote, moves the resulting conversion
through payment and transfer webhooks, and announces every move through an outbox. This project models
that behaviour and proves what it guarantees over every input, every run and every interleaving.

`dafny verify dfyconfig.toml` covers the whole project.

## Map

| file | models |
|---|---|
| `Core`, `Money`, `Quotes`, `Conversions` | domain values: int64 money, decimals, rates, quotes, the conversion automaton |
| `MoneyProofs` | what conversion, fee and totals mean, and when int64 spoils them |
| `Tables` | the five tables, the row mappings, each SQL statement as a function on tables |
| `Stores`, `UseCases`, `Rates`, `Publishing` | the imperative side: the store object, the use cases, rate lookup and reordering, outbox publication |
| `Protocol` | each use case as one transaction on values; `UseCases` is proved equal to it |
| `Invariants`, `Interleaving` | the state invariant and its consequences under any interleaving |
| `Replay`, `Settlement`, `Commits` | a conversion as the replay of its webhooks; when a webhook commits |
| `Races`, `Lifecycle` | which stale webhook reads are harmless, and what runs without harmful ones guarantee |
| `Deliveries` | webhooks handled one after another: duplicates, rejections, disorder |
| `Replies` | what each operation answers: retries, duplicates, every refusal with its code; what a success leaves for others to read |
| `Numeric`, `Storage` | NUMERIC(20,10) columns, stored rates, and round trips through rows |
| `Keyset`, `Paging`, `Nulls` | keyset plans, paging while the table changes, and what NULLs do to it |
| `Counterexamples` | concrete inputs on which the code falls short |

## Levels of concurrency

*Interleaved.* A run is the sequence of committed states. A step commits all its writes or none, its
writes are checked against the current rows by keys, foreign keys and the guarded UPDATE, and everything
it *read* - the idempotency lookup, the rate, the quote, the conversion, the page of pending events - may
come from any earlier committed state. Everything in `Interleaving` holds at this level: idempotent
creation, the acceptance bijection, immutable terms, conservation of money, the event count and the
accounting of publication attempts.

*Harmless webhook reads.* `GetConversionByID` takes no lock and `UpdateConversion` rewrites the whole row, so
claims about status, external references, failure reason and the order of events need something of the
conversion a webhook read. `Races.RunExplainedIff` says exactly what: a run keeps every conversion the replay
of its messages if and only if each committed webhook passes a test on stored columns (`Races.Harmless`) -
for payment.succeeded that the row it replaced was still AWAITING_PAYMENT, for transfer.completed still
PROCESSING, for a failure that no external reference the row had gained is lost. The claims in `Lifecycle`
assume just this (`HarmlessReads`). The code does not enforce it; webhooks that run one at a time satisfy it
(`Races.SerializedIsHarmless`), and `Counterexamples.FailureIsLost` is a run that does not. All other reads
may be stale throughout.

*Serial.* `Deliveries` speaks of webhooks handled one after another from any consistent state.

## Where the code differs from what one might expect

- The fee is the advertised one exactly when `base * bps` fits int64 or the minimum dominates anyway
  (`FeeExactIff`), and never more (`FeeAtMostTrue`); conversion is exact exactly below 2^63
  (`ConvertExactIff`); a total is base plus fee exactly when the sum fits int64 (`MoneyConserved`). These
  bounds are also where monotonicity ends: up to an amount, conversion at a stored rate never falls if and
  only if that amount fits (`StoredRateMonotoneIff`), and with a minimum below 461 trillion minor units the
  fee never falls if and only if the product fits (`FeeMonotoneIff`). Inputs: `FeeOverflows`,
  `ConvertOverflows`, `TotalOverflows`.
- A cursor's WHERE clause is never true of a row whose primary sort column is NULL, although ORDER BY places
  such rows, so after the first page paging skips them: `ReturnedIff` says exactly which rows are returned,
  `ReturnedByRank` says it of the table alone, and `NullRowMissed` is a listing of three rows that returns two.
- No cursor can be made of a row whose sort column is NULL, so a full page that ends in one is a dead end:
  `CompletesIff` says exactly when a listing can be read to its end, `NullPageStuck` is one that cannot.
- `CanAccept` admits a quote at its expiry instant, the guarded UPDATE does not: at that instant, and only
  there, the transaction rolls back after the check has passed (`AcceptedBeforeExpiry`).
- COMPLETED is not final: a failure webhook still moves it to FAILED (`CompletedCanFail`). FAILED is the
  only status never left. A later failure replaces the failure reason (`LastFailure` in `StateIsHistory`).
- A stale webhook read can lose a failure for good (`FailureIsLost`).
- `sortRates` panics exactly when some rate is sent past the end; on its way from `ensureReferenceRates`
  it never is (`SortRates`, `SortedListing`).
- A webhook for an unknown conversion fails on the inbox foreign key, so the error is internal; only a
  duplicate that names an unknown conversion, or a read too old to know the conversion, is answered "not found"
  (`DuplicateReply`, `WebhookRefused`).

## Model

| member | source | states |
|---|---|---|
| Interleaving.RunSafe | internal/adapter/outbound/postgres/store.go:129-140 | under any interleaving with stale reads every reachable state satisfies the invariant, and no step deletes a row, changes an identity, an amount or a rate, or takes back an acceptance |
| Interleaving.StepSafe | migrations/00001_create_fx_core.sql:13-81 | every single step keeps keys unique, references intact, quotes priced, conversions backed by an accepted quote and the event count right |
| Interleaving.RunExtends | internal/port/fx.go:73-75 | any step whose reads lie in the past extends any run, so the run claims cover every schedule of clients, webhooks and publishers |
| Interleaving.SameKeySameQuote | internal/usecase/quotes.go:55-90 | all successful quote replies for one idempotency key describe the same quote, however lookups and inserts interleave |
| Interleaving.QuoteReplyStored | internal/usecase/quotes.go:84-90 | from a successful reply on, the quote it describes is stored under the request's key |
| Interleaving.SameKeySameConversion | internal/usecase/quotes.go:127-182 | all successful acceptance replies for one key describe the same conversion |
| Interleaving.ConversionReplyStored | internal/usecase/quotes.go:158-182 | from a successful reply on, the conversion it describes is stored under the request's key |
| Interleaving.AcceptanceBijection | internal/usecase/quotes.go:137-176 | a quote is accepted iff exactly one conversion names it; that one was created at the acceptance, strictly before expiry, with the quote's money |
| Interleaving.AcceptedBeforeExpiry | internal/adapter/outbound/postgres/store.go:246-261 | with no key in the way, CanAccept passes iff now <= expiry while the acceptance commits iff now < expiry, and otherwise rolls back with a conflict |
| Interleaving.MoneyConserved | internal/domain/conversion/conversion.go:69-84 | in every reachable state the debits of a currency are its bases plus its fees, less 2^64 per wrapped total, so they balance iff no total wrapped |
| Interleaving.TermsNeverChange | internal/adapter/outbound/postgres/store.go:303-314 | whole-row rewrites from stale reads never change a conversion's terms, and its quoted amount stays the conversion of its base at its rate |
| Interleaving.OutboxCounts | internal/usecase/webhooks.go:91-105 | in every reachable state there are as many outbox events as conversions plus stored webhooks |
| Interleaving.PublicationIsReported | internal/usecase/outbox.go:42-59 | with any number of publishers, an event's attempts equal the outcomes reported for it, and its publication time is one at which a publisher reported acceptance |
| Invariants.QuotedIff | internal/usecase/quotes.go:62-90 | exactly which requests, against which tables, yield a quote |
| Invariants.QuoteAnswersRequest | internal/usecase/quotes.go:68-78 | a created quote has the requested base and target and is priced at the corridor's stored rate, with total = base + fee |
| Invariants.CreateQuoteShape | internal/adapter/outbound/postgres/store.go:232-244 | a created quote is appended as one unaccepted row that maps back to the quote replied, charged the basis-point fee |
| Invariants.CreateQuoteSafe | internal/usecase/quotes.go:46-91 | quote creation keeps the invariant even when its lookup and its rate were stale |
| Invariants.NewIsPriced | internal/domain/quote/quote.go:26-87 | a quote from New at a stored rate is priced consistently and survives the row mapping |
| Invariants.AcceptShape | internal/usecase/quotes.go:137-175 | a committed acceptance marks one quote, adds one conversion with that quote's money and one event, and nothing else, even from a stale quote |
| Invariants.AcceptSafe | internal/usecase/quotes.go:117-183 | acceptance keeps the invariant from any stale quote, and changes nothing committed |
| Invariants.WebhookShape | internal/usecase/webhooks.go:42-106 | a committed webhook adds one inbox row and one event and rewrites its own conversion row with the transition of the row it read, terms unchanged |
| Invariants.WebhookSafe | internal/usecase/webhooks.go:142-227 | webhooks of both kinds keep the invariant from any stale conversion |
| Invariants.UpsertSafe | internal/adapter/outbound/postgres/store.go:158-174 | refreshing rates keeps the invariant: no stored quote or conversion is repriced |
| Invariants.MarkShape | internal/adapter/outbound/postgres/store.go:372-407 | marking adds one attempt to one event, sets its publication time only on acceptance, and leaves every other event alone |
| Replay.ReplayedState | internal/domain/conversion/conversion.go:87-151 | the automaton accepts exactly the admissible message sequences; status, both references, failure reason and update time are functions of the messages alone |
| Replay.ReplayMonotone | internal/domain/conversion/conversion.go:97-150 | more messages never lower the status rank, never leave FAILED and never change a reference once set |
| Races.RunExplainedIff | internal/usecase/webhooks.go:42-119 | in every state of a run each conversion row is the replay of its inbox rows on what FromQuote made, with the matching event trail, iff every committed webhook passed the test on stored columns |
| Races.SerializedIsHarmless | internal/adapter/outbound/postgres/store.go:303-314 | webhooks that each read the row version they replace always pass that test |
| Races.TransitionsAgreeIff | internal/domain/conversion/conversion.go:87-151 | the version a webhook read and the version it replaces take its event alike iff the columns pass the test: status still AWAITING_PAYMENT or PROCESSING for a success, carried references kept for a failure |
| Settlement.AcceptExplained | internal/domain/conversion/conversion.go:44-85 | an acceptance starts a row that is the empty replay of FromQuote, with event conversion.created, and keeps all others explained |
| Lifecycle.StateIsHistory | internal/domain/conversion/conversion.go:97-151 | in a run without harmful reads a stored row's status, references, failure reason and update time are those its stored messages determine, which are admissible |
| Lifecycle.CompletedAndFailed | internal/domain/conversion/conversion.go:106-151 | COMPLETED iff the stored messages are payment.succeeded then transfer.completed; FAILED iff a failure is stored iff a failure reason is set |
| Lifecycle.EventsTellTheStory | internal/usecase/webhooks.go:95-105 | a conversion's events are conversion.created, then one per stored message naming the status it left; the last names the current status |
| Lifecycle.LifecycleMonotone | internal/domain/conversion/conversion.go:87-104 | along a run without harmful reads the status rank never falls, FAILED is never left and a set external reference never changes |
| Commits.CommitsIff | internal/usecase/webhooks.go:172-213 | exactly which deliveries commit |
| Commits.DuplicateIgnored | internal/adapter/outbound/postgres/store.go:316-334 | redelivering a stored (provider, event id) changes no table, whatever conversion it names |
| Deliveries.RejectedDeliveriesVanish | internal/usecase/webhooks.go:44-67 | a serial delivery sequence ends as its first-accepted subsequence does, which is accepted again in full, adds one inbox row each and repeats no event |
| Deliveries.OutOfOrderTolerated | internal/usecase/webhooks.go:172-203 | over any redeliveries of one payment.succeeded and one transfer.completed, a fresh conversion ends COMPLETED iff some transfer delivery follows some payment delivery |
| Deliveries.CompletedCanFail | internal/domain/conversion/conversion.go:123-151 | a failure webhook moves a COMPLETED conversion to FAILED |
| Races.ExplainedAfterIff | internal/adapter/outbound/postgres/store.go:263-273 | a webhook commit from a stale read leaves every row the replay of its messages iff the row read and the row replaced pass the test on stored columns |
| Races.StaleReadLosesFailure | internal/usecase/webhooks.go:64-93 | a success computed from a read older than a committed failure overwrites FAILED with PROCESSING, with both messages stored |
| Counterexamples.FailureIsLost | internal/usecase/webhooks.go:34-119 | a five-step run from empty tables that loses a failure |
| Counterexamples.FeeOverflows | internal/domain/shared/money.go:105-105 | an amount whose product with the rate leaves int64 is charged a wrong fee, less than a smaller amount is |
| Counterexamples.ConvertOverflows | internal/domain/shared/money.go:86-87 | an amount that converts to 2^63 units comes out negative, below a smaller amount and below its own halves |
| Counterexamples.TotalOverflows | internal/domain/shared/money.go:50-62 | the largest amount plus any fee is a negative total |
| MoneyProofs.ConvertExactIff | internal/domain/shared/money.go:76-90 | for a positive amount and rate, Convert succeeds in the target currency and is the nearest minor unit, ties to even, iff that lies below 2^63 |
| MoneyProofs.ConvertedUnitsNearest | internal/domain/shared/currency.go:18-23 | before narrowing, conversion across scales is the half-even rounding of the exact product |
| MoneyProofs.ExactAmountByPair | internal/domain/shared/currency.go:18-23 | the exact product in so many words: times 100 from won or yen to dollars or euros, divided by 100 the other way, else as is |
| MoneyProofs.ConvertRefused | internal/domain/shared/money.go:76-89 | exactly which conversions are refused |
| MoneyProofs.ConvertByValue | internal/domain/shared/money.go:84-87 | only the rate's numeric value matters, so NUMERIC padding changes nothing |
| MoneyProofs.ConvertMonotone | internal/domain/shared/money.go:76-89 | where the larger of two conversions fits int64, Convert never answers less for a larger amount or a higher rate |
| MoneyProofs.ConvertMonotoneIff | internal/domain/shared/money.go:86-89 | at a rate at which one minor unit fits, Convert never falls over the amounts up to a limit iff the limit's conversion fits int64 |
| Storage.StoredRateMonotoneIff | migrations/00001_create_fx_core.sql:22-22 | so it is at every positive rate a NUMERIC(20,10) column can hold |
| MoneyProofs.SplitConversion | internal/domain/shared/money.go:83-89 | where the whole fits int64, the n answers of Convert for positive parts sum to within (n+1)/2 units of its answer for the whole |
| MoneyProofs.FeeExactIff | internal/domain/shared/money.go:92-114 | for a positive base the fee is max(minimum, ceiling(base*bps/10000)) iff the product fits int64 or the minimum dominates |
| MoneyProofs.FeeRefused | internal/domain/shared/money.go:92-113 | exactly which fees are refused |
| MoneyProofs.AddRefused | internal/domain/shared/money.go:50-62 | amounts add iff their currencies agree, exactly iff the sum fits int64 |
| MoneyProofs.FeeMonotone | internal/domain/shared/money.go:102-113 | FeeFromBPS never charges less for a larger base whose fee is exact |
| MoneyProofs.FeeMonotoneIff | internal/domain/shared/money.go:105-111 | for a minimum below 461 trillion minor units, FeeFromBPS never falls over the bases up to a limit iff limit*bps fits int64 |
| MoneyProofs.FeeAtMostTrue | internal/domain/shared/money.go:105-111 | FeeFromBPS never charges more than max(minimum, ceiling(base*bps/10000)), overflow or not |
| MoneyProofs.SplitNeverSaves | internal/domain/shared/money.go:92-114 | with a non-negative minimum, the fees FeeFromBPS charges for positive parts, each exact, sum to no less than it charges for the whole |
| Numeric.UpsertStores | internal/adapter/outbound/postgres/store.go:142-174 | an upsert leaves each batch rate under its provider and corridor, rounded to the nearest tenth place, with its own instants, and every other row alone |
| Numeric.KeepsValue | internal/adapter/outbound/postgres/store.go:148-155 | a rate of at most ten decimal places is stored with exactly its value |
| Storage.RateSurvivesStorage | internal/adapter/outbound/postgres/store.go:547-561 | a stored rate reads back with its own provider, corridor and instants, its value rounded to the column |
| Numeric.NumericNearest | migrations/00001_create_fx_core.sql:22-22 | NUMERIC(20,10) keeps the nearest ten-place value, ties away from zero, and refuses a rate iff that reaches 10^10 in magnitude |
| Numeric.NumericExactIff | migrations/00001_create_fx_core.sql:6-6 | a rate that fits the column keeps its value iff it has ten decimal places |
| Storage.QuoteSurvivesStorage | internal/adapter/outbound/postgres/store.go:409-449 | a quote from New reads back equal, up to the column's rounding of its rate, although fee and total currencies are not stored |
| Storage.ConversionSurvivesStorage | internal/adapter/outbound/postgres/store.go:451-503 | in every reachable state, writing a conversion back as it was read changes nothing |
| Stores.Store.Rollback | internal/adapter/outbound/postgres/store.go:130-139 | a failed transaction restores all five tables |
| Stores.Store.GetQuoteByID | internal/adapter/outbound/postgres/store.go:207-217 | the stored quote, or not found |
| Stores.Store.GetQuoteByIdempotencyKey | internal/adapter/outbound/postgres/store.go:219-230 | found iff some row has the key, and then that row's quote |
| Stores.Store.CreateQuote | internal/usecase/quotes.go:84-84 | inserts the row or reports a conflict on either unique column, tables unchanged on error |
| Stores.Store.MarkQuoteAccepted | internal/usecase/quotes.go:161-163 | marks an unaccepted quote that expires strictly later, else a conflict and no change |
| Stores.Store.GetConversionByID | internal/usecase/webhooks.go:64-67 | the stored conversion, or not found |
| Stores.Store.GetConversionByIdempotencyKey | internal/adapter/outbound/postgres/store.go:275-286 | found iff some row has the key, and then that row's conversion |
| Stores.Store.CreateConversion | internal/adapter/outbound/postgres/store.go:288-301 | inserts the row or reports a conflict on id, quote or key, tables unchanged on error |
| Stores.Store.SaveConversion | internal/usecase/webhooks.go:91-93 | rewrites the whole row with this id |
| Stores.Store.StoreMessage | internal/usecase/webhooks.go:43-57 | stores a webhook once per (provider, event id), refuses invalid messages and unknown conversions |
| Stores.Store.EnqueueEvent | internal/adapter/outbound/postgres/store.go:336-343 | appends one event |
| Stores.Store.ListPending | internal/adapter/outbound/postgres/store.go:345-370 | returns the earliest pending events, sorted by creation, at most the limit (100 when not positive) |
| Stores.Store.MarkEvent | internal/usecase/outbox.go:43-57 | records one publication outcome on the named event |
| Stores.Store.SyncRates | internal/usecase/common.go:39-41 | refuses a batch with an empty currency or provider or a rate not positive, then upserts all of it - each rate rounded to the nearest tenth place under its corridor - or nothing |
| Stores.Store.ListLatestRates | internal/adapter/outbound/postgres/store.go:176-205 | returns each stored rate of the base for the wanted currencies exactly once; fails only on a row of an unknown currency |
| Rates.SortRates | internal/usecase/common.go:58-70 | each slot holds the last rate sent to it; panics iff some rate is sent past the end |
| Rates.ListingComplete | migrations/00001_create_fx_core.sql:10-10 | by the primary key, a listing is as long as the request iff the request is distinct and fully stored |
| Rates.SortedListing | internal/usecase/common.go:31-33 | sorting a complete listing never indexes out of range and puts the rate of quotes[i] in slot i |
| Rates.EnsureReferenceRates | internal/usecase/common.go:20-56 | succeeds iff the request is covered already or the provider's answer can be stored and covers it then, with the result in request order; the table is refreshed exactly on a readable miss with a storable answer |
| Rates.SlotIs | internal/usecase/common.go:64-67 | a slot holds the last rate sent to it, and the zero value when none is |
| UseCases.CreateQuote | internal/usecase/quotes.go:46-90 | the statements in order have the effect and reply of the protocol step on the rates as ensured, so pricing never meets a corridor mismatch; a provider's failure on a miss is passed on |
| UseCases.AcceptQuote | internal/usecase/quotes.go:117-182 | the statements in order, rolled back on error, have the effect and reply of the protocol step |
| Replies.QuoteRetry | internal/usecase/quotes.go:55-60 | a request whose key is stored is answered with that quote as it stands, acceptance included, and changes nothing |
| Replies.QuoteRetried | internal/usecase/quotes.go:46-60 | along a run, a quote request whose lookup sees an earlier success under its key succeeds with the same quote |
| Replies.ConversionRetry | internal/usecase/quotes.go:127-132 | an acceptance whose key is stored is answered with that conversion as it stands, and changes nothing |
| Replies.ConversionRetried | internal/usecase/quotes.go:117-132 | along a run, an acceptance whose lookup sees an earlier success under its key succeeds with the same conversion |
| Replies.DuplicateReply | internal/usecase/webhooks.go:58-62 | a duplicate delivery is answered with the conversion as read and the duplicate flag, or not found when the conversion it names is unknown |
| Replies.QuoteRefused | internal/usecase/quotes.go:62-90 | exactly which new quotes are refused, and with which code |
| Replies.AcceptRefused | internal/usecase/quotes.go:137-176 | exactly which acceptances are refused, and with which code |
| Replies.WebhookRefused | internal/usecase/webhooks.go:150-214 | exactly which webhooks are refused, and with which code |
| Replies.PricingRefused | internal/domain/quote/quote.go:26-87 | exactly which inputs New prices, and every column of the quote |
| Replies.FromQuoteRefused | internal/domain/conversion/conversion.go:44-85 | exactly from which quotes and providers a conversion is made, and every column of it |
| Replies.ApplyRefused | internal/domain/conversion/conversion.go:87-112 | which events a conversion refuses in which status |
| Replies.AcceptReply | internal/usecase/quotes.go:146-153 | an acceptance answers a conversion with the requested ids, key and providers, awaiting payment |
| Replies.AcceptAnnounces | internal/usecase/quotes.go:165-175 | its event names the conversion, the quote and the status |
| Replies.WebhookAnnounces | internal/usecase/webhooks.go:44-105 | a committed webhook stores its message as delivered, and its event names the conversion, the status reached and the provider |
| UseCases.HandlePaymentWebhook | internal/usecase/webhooks.go:34-118 | likewise for payment webhooks |
| UseCases.HandleTransferWebhook | internal/usecase/webhooks.go:142-226 | likewise for transfer webhooks |
| Publishing.PublishOutbox | internal/usecase/outbox.go:30-62 | processed = published + failed = the page; a failing mark stops the run with every unmarked event still pending |
| Publishing.Reached | internal/usecase/outbox.go:45-58 | each processed event has one more attempt, its error, and a publication time iff the publisher accepted it |
| Publishing.Unreached | internal/usecase/outbox.go:54-57 | an event the run did not reach is as before |
| Publishing.PageRows | internal/adapter/outbound/postgres/store.go:350-356 | a page holds no event twice and only pending events as stored |
| Publishing.AcceptingRun | internal/usecase/outbox.go:40-61 | with an always-accepting publisher a successful run publishes its whole page and takes it off the pending events |
| Publishing.DrainsInCeiling | internal/usecase/outbox.go:34-42 | over successive successful runs of an always-accepting publisher with no new events, what k runs leave of n pending events |
| Publishing.LeftInClosedForm | internal/adapter/outbound/postgres/store.go:346-348 | that is max(0, n - k*limit): nothing is left exactly from the ceiling(n/limit)-th run on |
| Keyset.AcceptedPlan | internal/keyset/keyset.go:114-164 | an accepted plan has the requested sort and order, orders every term that way, and its WhereClause never fails |
| Keyset.AcceptedIff | internal/keyset/keyset.go:114-163 | exactly which queries are accepted: a known sort, an order, and either no cursor or one of this listing whose values parse |
| Keyset.PlanFollowsDefinition | internal/keyset/keyset.go:166-179 | an accepted plan sorts by its definition's columns and then the id, in the requested order, with the string codec for missing ones |
| Keyset.EncodesIff | internal/keyset/keyset.go:235-252 | exactly from which values a cursor can be made |
| Keyset.WhereIsAfterCursor | internal/keyset/keyset.go:181-233 | the clause has one placeholder per argument and is true of a row iff the row is strictly after the cursor in the order of OrderBy and no NULL stands in the columns that decide so, in both directions, with and without a secondary column |
| Keyset.WhereByColumns | internal/keyset/keyset.go:196-232 | for a cursor without NULL: iff the row is strictly after the cursor, its primary column is not NULL and, where that equals the cursor's, its secondary column is not NULL |
| Keyset.CursorRoundTrip | internal/keyset/keyset.go:235-261 | an encoded cursor is accepted under the same sort and order and stands for exactly the last row's sort key |
| Keyset.KeyBeforeTotal | internal/keyset/keyset.go:166-179 | the ORDER BY terms order sort keys totally |
| Keyset.StringCodecLossless | internal/keyset/keyset.go:42-55 | the string codec parses back what it serialized and refuses nil |
| Paging.StrictlyIncreasing | internal/keyset/keyset.go:166-233 | under inserts, deletes and edits that keep sort keys, rows come out strictly increasing and none twice |
| Paging.ReturnedIff | internal/keyset/keyset.go:181-261 | a row present throughout a session that ran to a short page is returned iff no full page ended in a row from which a NULL hides it |
| Paging.NothingMissed | internal/keyset/keyset.go:196-261 | with codecs that refuse nil, a row present throughout whose sort columns are not NULL is returned |
| Nulls.ReturnedByRank | internal/keyset/keyset.go:196-208 | over an unchanging table sorted by one column with a codec that refuses nil, a row is returned iff its column is not NULL or fewer than limit rows precede it |
| Nulls.NullReturnedIff | internal/keyset/keyset.go:196-232 | with or without a secondary column, a row whose primary column is NULL is returned iff fewer than limit rows precede it |
| Nulls.CompletesIff | internal/keyset/keyset.go:235-261 | a listing by one column of an unchanging table can be read to its end iff no row with NULL in that column is preceded by exactly limit - 1 rows |
| Nulls.NullRowMissed | internal/keyset/keyset.go:196-208 | of three rows listed two by two, NULL last, the one whose sort column is NULL is never returned |
| Nulls.NullPageStuck | internal/keyset/keyset.go:235-239 | with NULL in two of three rows, two rows a page, the listing has no end |
| Nulls.SomeNullsLast | internal/keyset/keyset.go:91-112 | a lossless cursor text form and an order of values as these two inputs need exist |
| Paging.StaticListing | internal/keyset/keyset.go:166-261 | over an unchanging table the pages concatenate, sorted, to exactly the rows no NULL hides, in floor(n/limit)+1 fetches for n of them; all rows iff none is hidden |
| Paging.StaticWhole | internal/keyset/keyset.go:166-233 | with no NULL in a sort column that is the whole table |
| Paging.StaticBounded | internal/keyset/keyset.go:235-260 | over an unchanging table no session goes on for ever |
| Paging.SessionExists | internal/keyset/keyset.go:114-261 | over an unchanging table whose rows serialize there is a session that reads to a short page |
| Paging.SessionContinues | internal/keyset/keyset.go:114-163 | after a full page whose last row serializes the next cursor is accepted and the next page exists |

## Left out

- HTTP, gRPC and net/rpc adapters, middleware, commands, the demo client, configuration, migrations as they run, telemetry, logging and HMAC checks: plumbing outside the protocol.
- The Frankfurter client: any error or any list of rates is a possible answer.
- `GetConversionUsecase` and `SyncReferenceRatesUsecase`: the first only reads; the second hands raw provider output to `sortRates`, whose exact panic condition `Rates.SortRates` states.
- Postgres and GORM internals: only keys, foreign keys, the guarded UPDATE, ON CONFLICT and rollback are modelled. Column widths, lock waits and lost connections appear only as steps that commit nothing. `Save` on a missing row, which would insert, answers not found here; the use cases never reach it.
- Partially visible transactions: a step reads only committed states, each of its reads from one of them.
- Instants are integers, so time zones, sub-microsecond truncation and saturation of `time.Add` are not modelled; ids are arbitrary, and a clash is an insertion error.
- Decimals carry a coefficient and an exponent; their text form, int32 exponent overflow and the library's internals are left out, and rates pass between code and table by value. `IntPart` narrows through `big.Int.Int64`, whose result beyond int64 is documented as undefined; the model takes the low 64 bits, and the exact values in `ConvertOverflows` and the failing half of `ConvertMonotoneIff` rest on that.
- Currency trimming and upper-casing, idempotency-key syntax, error messages and details: settled by reading.
- JSON and base64url (section 5 of RFC 4648) in cursors and the RFC 3339 time codec: any lossless text form and codecs; only the string codec is proved lossless. Clause text is modelled as a syntax tree with positional arguments; where ORDER BY places NULL is left to the collation, as is the order of text.
- The loop that fetches pages: it has no caller in the repository and is composed here from query, plan and cursor.
- Stores.Store.ListLatestRates: leaves the order of its result open, since `sortRates` fixes it.
- Stores.Store.ListPending: leaves ties in creation time in any order, as the SQL does.
- MoneyProofs.FeeMonotoneIff: for minimums of 461 trillion minor units and more only the forward half, FeeMonotone, is stated; there the fee can stay at the minimum through an overflow.
- Nulls.CompletesIff: for one sort column; with a secondary column every page boundary can meet a NULL, and Paging.ReturnedIff speaks of them one by one.
- MoneyProofs.FeeExactIff: only for positive bases; `quote.New` rejects all others before the fee.
- Publishing.PublishOutbox: one publisher with no writes between its statements; several publishers at once are covered by Interleaving.PublicationIsReported.
