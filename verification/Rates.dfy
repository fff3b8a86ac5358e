/** Reference rates on demand: read the cache, fetch and store what is missing, and put the rates in
    the order in which they were asked for. */
module Rates {
  import opened Core
  import opened Money
  import opened Quotes
  import opened Tables
  import opened Numeric
  import opened Stores

  const ZERO_RATE := ExchangeRate(Unknown(""), Unknown(""), OtherProvider(""), Decimal(0, 0), 0, 0)

  /** Where an index map built from `quotes` sends a currency: its last position, or 0 when absent. */
  function Position(quotes: seq<Currency>, c: Currency): (p: nat)
    ensures c in quotes ==> p < |quotes| && quotes[p] == c && c !in quotes[p + 1..]
  {
    if quotes == [] then 0
    else if quotes[|quotes| - 1] == c then |quotes| - 1
    else
      assert c in quotes ==> c in quotes[..|quotes| - 1];
      var p := Position(quotes[..|quotes| - 1], c);
      assert c in quotes ==> quotes[p + 1..] == quotes[..|quotes| - 1][p + 1..] + [quotes[|quotes| - 1]];
      p
  }

  /** The last rate placed in slot p, or the zero value. */
  function Slot(rates: seq<ExchangeRate>, quotes: seq<Currency>, p: nat): ExchangeRate {
    if rates == [] then ZERO_RATE
    else if Position(quotes, rates[|rates| - 1].quote) == p then rates[|rates| - 1]
    else Slot(rates[..|rates| - 1], quotes, p)
  }

  lemma PositionAbsent(quotes: seq<Currency>, c: Currency)
    requires c !in quotes
    ensures Position(quotes, c) == 0
  {
    if quotes != [] {
      PositionAbsent(quotes[..|quotes| - 1], c);
    }
  }

  /** A slot holds the last rate sent to it, and the zero value when none is. */
  lemma {:induction false} SlotIs(rates: seq<ExchangeRate>, quotes: seq<Currency>, p: nat)
    ensures (forall i :: 0 <= i < |rates| ==> Position(quotes, rates[i].quote) != p) ==>
              Slot(rates, quotes, p)
              == ExchangeRate(Unknown(""), Unknown(""), OtherProvider(""), Decimal(0, 0), 0, 0)
    ensures forall i :: 0 <= i < |rates| && Position(quotes, rates[i].quote) == p
                        && (forall j :: i < j < |rates| ==> Position(quotes, rates[j].quote) != p) ==>
              Slot(rates, quotes, p) == rates[i]
  {
    if rates != [] && Position(quotes, rates[|rates| - 1].quote) != p {
      SlotIs(rates[..|rates| - 1], quotes, p);
    }
  }

  /** The index map after the first `n` currencies. */
  ghost predicate Indexed(quotes: seq<Currency>, n: nat, m: map<Currency, nat>)
    requires n <= |quotes|
  {
    forall c :: (c in m <==> c in quotes[..n]) && (c in m ==> m[c] == Position(quotes[..n], c))
  }

  lemma IndexedNext(quotes: seq<Currency>, n: nat, m: map<Currency, nat>)
    requires n < |quotes| && Indexed(quotes, n, m)
    ensures Indexed(quotes, n + 1, m[quotes[n] := n])
  {
    var init, after := quotes[..n], m[quotes[n] := n];
    assert quotes[..n + 1] == init + [quotes[n]];
    forall c
      ensures (c in after <==> c in quotes[..n + 1]) && (c in after ==> after[c] == Position(quotes[..n + 1], c))
    {
      PositionSnoc(init, quotes[n], c);
    }
  }

  lemma PositionSnoc(init: seq<Currency>, last: Currency, c: Currency)
    ensures Position(init + [last], c) == if c == last then |init| else Position(init, c)
  {
    assert (init + [last])[..|init|] == init;
  }

  /** The slots after the first `n` rates. */
  ghost predicate Placed(rates: seq<ExchangeRate>, quotes: seq<Currency>, n: nat, slots: seq<ExchangeRate>)
    requires n <= |rates|
  {
    |slots| == |rates| && forall p :: 0 <= p < |rates| ==> slots[p] == Slot(rates[..n], quotes, p)
  }

  lemma PlacedNext(rates: seq<ExchangeRate>, quotes: seq<Currency>, n: nat, slots: seq<ExchangeRate>)
    requires n < |rates| && Placed(rates, quotes, n, slots) && Position(quotes, rates[n].quote) < |rates|
    ensures Placed(rates, quotes, n + 1, slots[Position(quotes, rates[n].quote) := rates[n]])
  {
    var init, after := rates[..n], slots[Position(quotes, rates[n].quote) := rates[n]];
    assert rates[..n + 1] == init + [rates[n]];
    forall p | 0 <= p < |rates| ensures after[p] == Slot(rates[..n + 1], quotes, p) {
      SlotSnoc(init, rates[n], quotes, p);
    }
  }

  lemma SlotSnoc(init: seq<ExchangeRate>, last: ExchangeRate, quotes: seq<Currency>, p: nat)
    ensures Slot(init + [last], quotes, p) == if p == Position(quotes, last.quote) then last else Slot(init, quotes, p)
  {
    assert (init + [last])[..|init|] == init;
  }

  /** Where the index map sends a currency; the zero value 0 when it is absent. */
  function Lookup(m: map<Currency, nat>, c: Currency): nat {
    if c in m then m[c] else 0
  }

  method IndexQuotes(quotes: seq<Currency>) returns (indexByQuote: map<Currency, nat>)
    ensures forall c :: Lookup(indexByQuote, c) == Position(quotes, c)
  {
    indexByQuote := map[];
    for index := 0 to |quotes|
      invariant Indexed(quotes, index, indexByQuote)
    {
      IndexedNext(quotes, index, indexByQuote);
      indexByQuote := indexByQuote[quotes[index] := index];
    }
    IndexedAll(quotes, indexByQuote);
  }

  lemma IndexedAll(quotes: seq<Currency>, m: map<Currency, nat>)
    requires Indexed(quotes, |quotes|, m)
    ensures forall c :: Lookup(m, c) == Position(quotes, c)
  {
    assert quotes[..|quotes|] == quotes;
    forall c ensures Lookup(m, c) == Position(quotes, c) {
      if c !in quotes {
        PositionAbsent(quotes, c);
      }
    }
  }

  /** Panics (index out of range) exactly when some rate is sent past the end. */
  method SortRates(rates: seq<ExchangeRate>, quotes: seq<Currency>) returns (r: Result<seq<ExchangeRate>>)
    ensures r.Ok? <==> forall i :: 0 <= i < |rates| ==> Position(quotes, rates[i].quote) < |rates|
    ensures r.Ok? ==> |r.value| == |rates| && forall p :: 0 <= p < |rates| ==> r.value[p] == Slot(rates, quotes, p)
    ensures r.Err? ==> r.code == Panic
  {
    var indexByQuote := IndexQuotes(quotes);
    var ordered := new ExchangeRate[|rates|](_ => ZERO_RATE);
    for i := 0 to |rates|
      invariant forall j :: 0 <= j < i ==> Position(quotes, rates[j].quote) < |rates|
      invariant Placed(rates, quotes, i, ordered[..])
    {
      var slot := Lookup(indexByQuote, rates[i].quote);
      if slot >= |rates| {
        return Err(Panic);
      }
      PlacedNext(rates, quotes, i, ordered[..]);
      ghost var next := ordered[..][slot := rates[i]];
      ordered[slot] := rates[i];
      assert ordered[..] == next;
    }
    assert rates[..|rates|] == rates;
    r := Ok(ordered[..]);
  }

  // ---------- the pigeonhole ----------

  function QuotesOf(list: seq<ExchangeRate>): (cs: seq<Currency>)
    ensures |cs| == |list| && forall i :: 0 <= i < |list| ==> cs[i] == list[i].quote
  {
    if list == [] then [] else QuotesOf(list[..|list| - 1]) + [list[|list| - 1].quote]
  }

  /** Every requested rate is stored and readable, and none is requested twice. */
  ghost predicate Covered(rates: map<RateKey, RateRow>, base: Currency, quotes: seq<Currency>) {
    && Distinct(quotes)
    && forall q :: q in quotes ==> RateKey(Frankfurter, base, q) in rates
                                   && rates[RateKey(Frankfurter, base, q)].ToDomain(RateKey(Frankfurter, base, q)).Ok?
  }

  ghost function Found(list: seq<ExchangeRate>): set<Currency> {
    set c | c in QuotesOf(list)
  }

  lemma InFound(list: seq<ExchangeRate>, q: Currency)
    ensures q in Found(list) <==> exists i :: 0 <= i < |list| && list[i].quote == q
  {
    if q in QuotesOf(list) {
      var i :| 0 <= i < |list| && QuotesOf(list)[i] == q;
      assert list[i].quote == q;
    }
    if i :| 0 <= i < |list| && list[i].quote == q {
      assert QuotesOf(list)[i] == q;
    }
  }

  lemma FoundSize(rates: map<RateKey, RateRow>, base: Currency, quotes: seq<Currency>, list: seq<ExchangeRate>)
    requires Listing(rates, base, quotes, list)
    ensures |Found(list)| == |list| && Found(list) <= set c | c in quotes
  {
    assert Distinct(QuotesOf(list));
    SetOfSeq(QuotesOf(list));
  }

  lemma CoveredFound(rates: map<RateKey, RateRow>, base: Currency, quotes: seq<Currency>, list: seq<ExchangeRate>)
    requires Listing(rates, base, quotes, list) && Covered(rates, base, quotes)
    ensures forall q :: q in quotes ==> q in Found(list)
  {
    forall q | q in quotes ensures q in Found(list) {
      InFound(list, q);
    }
  }

  lemma FoundCovered(rates: map<RateKey, RateRow>, base: Currency, quotes: seq<Currency>, list: seq<ExchangeRate>)
    requires Listing(rates, base, quotes, list) && Distinct(quotes) && forall q :: q in quotes ==> q in Found(list)
    ensures Covered(rates, base, quotes)
  {
    forall q | q in quotes
      ensures RateKey(Frankfurter, base, q) in rates
               && rates[RateKey(Frankfurter, base, q)].ToDomain(RateKey(Frankfurter, base, q)).Ok?
    {
      InFound(list, q);
    }
  }

  /** A listing is as long as the request exactly when the request is distinct and fully stored. */
  lemma ListingComplete(rates: map<RateKey, RateRow>, base: Currency, quotes: seq<Currency>, list: seq<ExchangeRate>)
    requires Listing(rates, base, quotes, list)
    ensures |list| == |quotes| <==> Covered(rates, base, quotes)
    ensures |list| == |quotes| ==> forall q :: q in quotes ==> exists i :: 0 <= i < |list| && list[i].quote == q
  {
    var wanted := set c | c in quotes;
    FoundSize(rates, base, quotes, list);
    SetOfSeq(quotes);
    SubsetSize(Found(list), wanted);
    if |list| == |quotes| {
      FoundCovered(rates, base, quotes, list);
      forall q | q in quotes ensures exists i :: 0 <= i < |list| && list[i].quote == q {
        InFound(list, q);
      }
    }
    if Covered(rates, base, quotes) {
      CoveredFound(rates, base, quotes, list);
      assert Found(list) == wanted;
    }
  }

  lemma {:induction false} SlotFilled(rates: seq<ExchangeRate>, quotes: seq<Currency>, p: nat, i: nat)
    requires i < |rates| && Position(quotes, rates[i].quote) == p
    ensures Slot(rates, quotes, p) in rates && Position(quotes, Slot(rates, quotes, p).quote) == p
  {
    if i < |rates| - 1 && Position(quotes, rates[|rates| - 1].quote) != p {
      SlotFilled(rates[..|rates| - 1], quotes, p, i);
    }
  }

  /** Sorting a complete listing puts the rate of quotes[p] in slot p, and never indexes out of range. */
  lemma SortedListing(rates: map<RateKey, RateRow>, base: Currency, quotes: seq<Currency>, list: seq<ExchangeRate>)
    requires Listing(rates, base, quotes, list) && |list| == |quotes|
    ensures forall i :: 0 <= i < |list| ==> Position(quotes, list[i].quote) < |list|
    ensures forall p :: 0 <= p < |quotes| ==> Slot(list, quotes, p).quote == quotes[p] && Slot(list, quotes, p) in list
  {
    ListingComplete(rates, base, quotes, list);
    forall p | 0 <= p < |quotes|
      ensures Slot(list, quotes, p).quote == quotes[p] && Slot(list, quotes, p) in list
    {
      assert quotes[p] in quotes;
      var i :| 0 <= i < |list| && list[i].quote == quotes[p];
      assert Position(quotes, quotes[p]) == p;
      SlotFilled(list, quotes, p, i);
    }
  }

  ghost predicate InSlot(rates: map<RateKey, RateRow>, base: Currency, quote: Currency, rate: ExchangeRate) {
    var key := RateKey(Frankfurter, base, quote);
    && rate.base == base && rate.quote == quote
    && key in rates && rates[key].ToDomain(key) == Ok(rate)
  }

  /** The rates asked for, in the order asked for. */
  ghost predicate InOrder(rates: map<RateKey, RateRow>, base: Currency, quotes: seq<Currency>,
                          result: seq<ExchangeRate>) {
    && |result| == |quotes|
    && forall p :: 0 <= p < |quotes| ==> InSlot(rates, base, quotes[p], result[p])
  }

  lemma SlotInOrder(rates: map<RateKey, RateRow>, base: Currency, quotes: seq<Currency>, list: seq<ExchangeRate>,
                    rate: ExchangeRate)
    requires Listing(rates, base, quotes, list) && rate in list
    ensures var key := RateKey(Frankfurter, base, rate.quote);
            rate.base == base && key in rates && rates[key].ToDomain(key) == Ok(rate)
  {
    var i :| 0 <= i < |list| && list[i] == rate;
  }

  method SortComplete(ghost rates: map<RateKey, RateRow>, base: Currency, quotes: seq<Currency>,
                      list: seq<ExchangeRate>)
    returns (r: Result<seq<ExchangeRate>>)
    requires Listing(rates, base, quotes, list) && |list| == |quotes|
    ensures r.Ok? && InOrder(rates, base, quotes, r.value)
  {
    SortedListing(rates, base, quotes, list);
    r := SortRates(list, quotes);
    forall p | 0 <= p < |quotes| ensures InSlot(rates, base, quotes[p], r.value[p]) {
      SlotInOrder(rates, base, quotes, list, r.value[p]);
    }
  }

  /** The provider's answer can be stored. */
  ghost predicate Storable(rates: map<RateKey, RateRow>, fetched: Result<seq<ExchangeRate>>, at: int) {
    fetched.Ok? && UpsertRates(rates, fetched.value, at).Ok?
  }

  /** Reading the cache meets no row that does not map back. */
  ghost predicate Readable(rates: map<RateKey, RateRow>, base: Currency, quotes: seq<Currency>) {
    forall q :: q in quotes ==> !Unreadable(rates, RateKey(Frankfurter, base, q))
  }

  /** The rates table once the request has been seen to: refreshed on a readable miss if the answer can be
      stored, and otherwise as it was. */
  ghost predicate Ensured(before: map<RateKey, RateRow>, fetched: Result<seq<ExchangeRate>>, base: Currency,
                          quotes: seq<Currency>, at: int, after: map<RateKey, RateRow>)
  {
    if !Covered(before, base, quotes) && Readable(before, base, quotes) && Storable(before, fetched, at)
    then Refreshed(before, fetched.value, at, after) && UpsertRates(before, fetched.value, at) == Ok(after)
    else after == before
  }

  /** A row that does not map back does not do so after a refresh either. */
  lemma StillUnreadable(rates: map<RateKey, RateRow>, batch: seq<ExchangeRate>, at: int, base: Currency,
                        quotes: seq<Currency>)
    requires UpsertRates(rates, batch, at).Ok? && !Readable(rates, base, quotes)
    ensures !Covered(UpsertRates(rates, batch, at).value, base, quotes)
  {
    UpsertStores(rates, batch, at);
    var q :| q in quotes && Unreadable(rates, RateKey(Frankfurter, base, q));
    assert RateKey(Frankfurter, base, q) in UpsertRates(rates, batch, at).value;
  }

  lemma CoveredReadable(rates: map<RateKey, RateRow>, base: Currency, quotes: seq<Currency>)
    requires Covered(rates, base, quotes)
    ensures Readable(rates, base, quotes)
  {
  }

  /** `fetched` is what the provider answers, should it be asked. The request succeeds exactly when it is
      covered already, or the provider's answer can be stored and covers it then. */
  method EnsureReferenceRates(store: Store, fetched: Result<seq<ExchangeRate>>, base: Currency, quotes: seq<Currency>,
                              at: int)
    returns (r: Result<seq<ExchangeRate>>)
    modifies store`rates
    ensures r.Ok? <==> || Covered(old(store.rates), base, quotes)
                       || (Storable(old(store.rates), fetched, at)
                           && Covered(UpsertRates(old(store.rates), fetched.value, at).value, base, quotes))
    ensures r.Ok? ==> InOrder(store.rates, base, quotes, r.value)
    ensures Ensured(old(store.rates), fetched, base, quotes, at, store.rates)
    ensures !Readable(old(store.rates), base, quotes) ==> r == Err(Panic)
    ensures !Covered(old(store.rates), base, quotes) && Readable(old(store.rates), base, quotes) && fetched.Err? ==>
              r == Err(fetched.code)
    ensures !Covered(old(store.rates), base, quotes) && Readable(old(store.rates), base, quotes) && fetched.Ok?
            && UpsertRates(old(store.rates), fetched.value, at).Err? ==>
              r == Err(UpsertRates(old(store.rates), fetched.value, at).code)
    ensures !Covered(store.rates, base, quotes) && Readable(store.rates, base, quotes)
            && Storable(old(store.rates), fetched, at) ==>
              r == Err(Internal)
    ensures r.Ok? <==> Covered(store.rates, base, quotes)
  {
    if !Readable(store.rates, base, quotes) && Storable(store.rates, fetched, at) {
      StillUnreadable(store.rates, fetched.value, at, base, quotes);
    }
    var cached :- store.ListLatestRates(base, quotes);
    ListingComplete(store.rates, base, quotes, cached);
    ListingReadable(store.rates, base, quotes, cached);
    if |cached| == |quotes| {
      r := SortComplete(store.rates, base, quotes, cached);
      return;
    }
    var batch :- fetched;
    var _ :- store.SyncRates(batch, at);
    var listed :- store.ListLatestRates(base, quotes);
    ListingComplete(store.rates, base, quotes, listed);
    if |listed| != |quotes| {
      return Err(Internal);
    }
    r := SortComplete(store.rates, base, quotes, listed);
  }

  lemma ListingReadable(rates: map<RateKey, RateRow>, base: Currency, quotes: seq<Currency>, list: seq<ExchangeRate>)
    requires Listing(rates, base, quotes, list)
    ensures Readable(rates, base, quotes)
  {
  }
}
