/** Paging through a table with keyset plans while other clients insert, delete and edit rows. */
module Paging {
  import opened Core
  import opened Keyset

  ghost predicate Selected(p: Plan, row: Row, less: Collation) {
    match p.WhereClause()
    case Ok(None) => true
    case Ok(Some((clause, args))) => |args| == clause.Holes() && Holds(clause, args, row, less)
    case Err(_) => false
  }

  ghost predicate RowBefore(terms: seq<Term>, a: Row, b: Row, less: Collation) {
    KeyBefore(terms, KeyOf(terms, a), KeyOf(terms, b), less)
  }

  /** By the sort order r comes after the last row of a page, but a NULL hides it from the next clause. */
  ghost predicate Hidden(terms: seq<Term>, last: Row, r: Row, less: Collation) {
    RowBefore(terms, last, r, less) && !Comparable(KeyOf(terms, last), KeyOf(terms, r))
  }

  ghost predicate NullFree(terms: seq<Term>, r: Row) {
    Null !in KeyOf(terms, r)
  }

  /** The page SELECT ... WHERE ... ORDER BY ... LIMIT yields: the first `limit` selected rows in order. */
  ghost predicate IsPage(p: Plan, less: Collation, table: set<Row>, limit: nat, page: seq<Row>) {
    && |page| <= limit
    && (forall i, j :: 0 <= i < j < |page| ==> RowBefore(p.OrderBy(), page[i], page[j], less))
    && (forall i :: 0 <= i < |page| ==> page[i] in table && Selected(p, page[i], less))
    && (forall r :: r in table && r !in page && Selected(p, r, less) ==>
          |page| == limit && forall i :: 0 <= i < |page| ==> RowBefore(p.OrderBy(), page[i], r, less))
  }

  /** The server's side of a listing: its sort definitions, cursor text form and collation, and what the
      client asked for. */
  datatype Feed = Feed(definitions: map<string, SortDefinition>, text: CursorText, less: Collation,
                       sort: string, order: Order, limit: nat)
  {
    function QueryFor(cursor: string): Query {
      Query(sort, order, limit, cursor)
    }

    function Fetch(cursor: string): Result<Plan> {
      NewPlan(QueryFor(cursor), definitions, text)
    }

    ghost predicate Sound() {
      && TotalOrders(less) && LosslessText(text) && limit > 0
      && (sort in definitions ==> Lossless(definitions[sort].Normalized().primaryCodec)
                                  && Lossless(definitions[sort].Normalized().secondaryCodec))
    }

    function Terms(): seq<Term>
      requires sort in definitions
    {
      Plan(sort, order, definitions[sort].Normalized(), None).OrderBy()
    }
  }

  function NextCursor(f: Feed, p: Plan, last: Row): Result<string> {
    p.EncodeNextCursor(f.text, last.Column(p.definition.primaryColumn), last.id,
                       NonNil(last.Column(p.definition.secondaryColumn)))
  }

  /** One fetch: the cursor is accepted and the page is read from the table as it then is. */
  ghost predicate Fetched(f: Feed, cursor: string, table: set<Row>, page: seq<Row>) {
    f.Fetch(cursor).Ok? && IsPage(f.Fetch(cursor).value, f.less, table, f.limit, page)
  }

  /** A client follows the cursors of full pages; the table may change between fetches. */
  ghost predicate Session(f: Feed, tables: seq<set<Row>>, pages: seq<seq<Row>>, cursors: seq<string>) {
    && |tables| == |pages| == |cursors| > 0
    && cursors[0] == ""
    && forall k :: 0 <= k < |pages| ==> SessionStep(f, tables, pages, cursors, k)
  }

  ghost predicate SessionStep(f: Feed, tables: seq<set<Row>>, pages: seq<seq<Row>>, cursors: seq<string>, k: nat) {
    && k < |tables| == |pages| == |cursors|
    && Fetched(f, cursors[k], tables[k], pages[k])
    && (k > 0 ==> Continues(f, cursors[k - 1], pages[k - 1], cursors[k]))
  }

  ghost predicate Continues(f: Feed, cursor: string, page: seq<Row>, next: string) {
    |page| == f.limit > 0 && f.Fetch(cursor).Ok? && NextCursor(f, f.Fetch(cursor).value, page[|page| - 1]) == Ok(next)
  }

  /** Ids are unique in each table, and no row's sort key ever changes. */
  ghost predicate StableKeys(terms: seq<Term>, tables: seq<set<Row>>) {
    forall j, k, r, s :: 0 <= j < |tables| && 0 <= k < |tables| && r in tables[j] && s in tables[k] && r.id == s.id ==>
      KeyOf(terms, r) == KeyOf(terms, s) && (j == k ==> r == s)
  }

  ghost predicate Present(table: set<Row>, id: string) {
    exists r :: r in table && r.id == id
  }

  // ---------- one fetch after another ----------

  /** Each fetch after the first selects exactly the rows after the last one returned, save those hidden by
      a NULL. */
  lemma SelectsTheRest(f: Feed, tables: seq<set<Row>>, pages: seq<seq<Row>>, cursors: seq<string>, k: nat)
    requires f.Sound() && Session(f, tables, pages, cursors) && k < |pages|
    ensures f.sort in f.definitions && f.Fetch(cursors[k]).Ok? && f.Fetch(cursors[k]).value.OrderBy() == f.Terms()
    ensures k == 0 ==> forall r :: Selected(f.Fetch(cursors[k]).value, r, f.less)
    ensures k > 0 ==> |pages[k - 1]| == f.limit
    ensures k > 0 ==> forall r :: Selected(f.Fetch(cursors[k]).value, r, f.less)
                                  <==> && RowBefore(f.Terms(), pages[k - 1][f.limit - 1], r, f.less)
                                       && Comparable(KeyOf(f.Terms(), pages[k - 1][f.limit - 1]), KeyOf(f.Terms(), r))
  {
    assert SessionStep(f, tables, pages, cursors, k);
    AcceptedPlan(f.QueryFor(cursors[k]), f.definitions, f.text);
    if k > 0 {
      ResumesAfter(f, cursors[k - 1], pages[k - 1][f.limit - 1], cursors[k]);
    }
  }

  lemma ResumesAfter(f: Feed, before: string, last: Row, cursor: string)
    requires f.Sound() && f.Fetch(before).Ok? && NextCursor(f, f.Fetch(before).value, last) == Ok(cursor)
    ensures f.sort in f.definitions && f.Fetch(cursor).Ok?
    ensures forall r :: Selected(f.Fetch(cursor).value, r, f.less)
                        <==> && RowBefore(f.Terms(), last, r, f.less)
                             && Comparable(KeyOf(f.Terms(), last), KeyOf(f.Terms(), r))
  {
    AcceptedPlan(f.QueryFor(before), f.definitions, f.text);
    var p := f.Fetch(before).value;
    CursorRoundTrip(p, f.QueryFor(before), f.definitions, f.text, last, cursor);
    assert f.QueryFor(before).(cursor := cursor) == f.QueryFor(cursor);
    var next := f.Fetch(cursor).value;
    assert next.OrderBy() == p.OrderBy() == f.Terms();
    forall r
      ensures Selected(next, r, f.less)
              <==> RowBefore(f.Terms(), last, r, f.less) && Comparable(KeyOf(f.Terms(), last), KeyOf(f.Terms(), r))
    {
      WhereIsAfterCursor(next, r, f.less);
    }
  }

  // ---------- no repeats, in order ----------

  /** A page is in order, and a later page starts after it. */
  lemma PageInOrder(f: Feed, tables: seq<set<Row>>, pages: seq<seq<Row>>, cursors: seq<string>, k: nat)
    requires f.Sound() && Session(f, tables, pages, cursors) && k < |pages|
    ensures f.sort in f.definitions
    ensures forall i, j :: 0 <= i < j < |pages[k]| ==> RowBefore(f.Terms(), pages[k][i], pages[k][j], f.less)
    ensures forall i :: 0 <= i < |pages[k]| ==> pages[k][i] in tables[k]
    ensures k > 0 ==> |pages[k - 1]| == f.limit > 0
    ensures k > 0 ==> forall i :: 0 <= i < |pages[k]| ==>
                  RowBefore(f.Terms(), pages[k - 1][f.limit - 1], pages[k][i], f.less)
  {
    SelectsTheRest(f, tables, pages, cursors, k);
    assert SessionStep(f, tables, pages, cursors, k);
  }

  lemma BeforeTransitive(terms: seq<Term>, a: Row, b: Row, c: Row, less: Collation)
    requires TotalOrders(less) && (RowBefore(terms, a, b, less) || a == b) && RowBefore(terms, b, c, less)
    ensures RowBefore(terms, a, c, less)
  {
    if a != b {
      KeyBeforeTransitive(terms, KeyOf(terms, a), KeyOf(terms, b), KeyOf(terms, c), less);
    }
  }

  lemma {:induction false} PagesAscend(f: Feed, tables: seq<set<Row>>, pages: seq<seq<Row>>, cursors: seq<string>,
                                       k: nat, i: nat, l: nat, j: nat)
    requires f.Sound() && Session(f, tables, pages, cursors) && f.sort in f.definitions
    requires k < l < |pages| && i < |pages[k]| && j < |pages[l]|
    ensures RowBefore(f.Terms(), pages[k][i], pages[l][j], f.less)
    decreases l
  {
    PageInOrder(f, tables, pages, cursors, l);
    if k < l - 1 {
      PagesAscend(f, tables, pages, cursors, k, i, l - 1, f.limit - 1);
    } else {
      PageInOrder(f, tables, pages, cursors, k);
    }
    BeforeTransitive(f.Terms(), pages[k][i], pages[l - 1][f.limit - 1], pages[l][j], f.less);
  }

  /** Whatever is inserted, deleted or edited between fetches, as long as sort keys do not change, the rows
      come out in strictly increasing order of the plan, and no row is returned twice. */
  lemma StrictlyIncreasing(f: Feed, tables: seq<set<Row>>, pages: seq<seq<Row>>, cursors: seq<string>,
                           k: nat, i: nat, l: nat, j: nat)
    requires f.Sound() && Session(f, tables, pages, cursors)
    requires k < |pages| && i < |pages[k]| && l < |pages| && j < |pages[l]|
    requires k < l || (k == l && i < j)
    ensures f.sort in f.definitions && RowBefore(f.Terms(), pages[k][i], pages[l][j], f.less)
    ensures StableKeys(f.Terms(), tables) ==> pages[k][i].id != pages[l][j].id
  {
    PageInOrder(f, tables, pages, cursors, k);
    PageInOrder(f, tables, pages, cursors, l);
    if k < l {
      PagesAscend(f, tables, pages, cursors, k, i, l, j);
    }
    KeyBeforeIrreflexive(f.Terms(), KeyOf(f.Terms(), pages[k][i]), f.less);
  }

  // ---------- nothing is missed ----------

  ghost predicate Returned(pages: seq<seq<Row>>, id: string) {
    exists k, i :: 0 <= k < |pages| && 0 <= i < |pages[k]| && pages[k][i].id == id
  }

  /** The last row of some full page hides the row. */
  ghost predicate HiddenBy(f: Feed, pages: seq<seq<Row>>, r: Row, k: nat)
    requires f.sort in f.definitions
  {
    0 < f.limit && k < |pages| && |pages[k]| == f.limit && Hidden(f.Terms(), pages[k][f.limit - 1], r, f.less)
  }

  /** A row present at every fetch so far and never hidden is returned, or still lies ahead of the last row
      returned. */
  lemma {:induction false} FoundOrAhead(f: Feed, tables: seq<set<Row>>, pages: seq<seq<Row>>, cursors: seq<string>,
                                        k: nat, r: Row)
    requires f.Sound() && Session(f, tables, pages, cursors) && k < |pages|
    requires f.sort in f.definitions && StableKeys(f.Terms(), tables)
    requires r in tables[k] && forall l :: 0 <= l < k ==> Present(tables[l], r.id) && !HiddenBy(f, pages, r, l)
    ensures Returned(pages, r.id) || (|pages[k]| == f.limit && RowBefore(f.Terms(), pages[k][f.limit - 1], r, f.less))
  {
    if k > 0 {
      assert Present(tables[k - 1], r.id) && !HiddenBy(f, pages, r, k - 1);
      var s :| s in tables[k - 1] && s.id == r.id;
      SameHiding(f, pages, tables, k - 1, s, k, r);
      FoundOrAhead(f, tables, pages, cursors, k - 1, s);
    }
    if !Returned(pages, r.id) {
      OnPageOrAhead(f, tables, pages, cursors, k, r);
    }
  }

  /** A row that lies ahead of the previous page and is not hidden comes on this page or lies ahead of it. */
  lemma OnPageOrAhead(f: Feed, tables: seq<set<Row>>, pages: seq<seq<Row>>, cursors: seq<string>, k: nat, r: Row)
    requires f.Sound() && Session(f, tables, pages, cursors) && k < |pages| && f.sort in f.definitions && r in tables[k]
    requires k > 0 ==> |pages[k - 1]| == f.limit && RowBefore(f.Terms(), pages[k - 1][f.limit - 1], r, f.less)
                       && !HiddenBy(f, pages, r, k - 1)
    ensures Returned(pages, r.id) || (|pages[k]| == f.limit && RowBefore(f.Terms(), pages[k][f.limit - 1], r, f.less))
  {
    FetchSelects(f, tables, pages, cursors, k, r);
    var p := f.Fetch(cursors[k]).value;
    PageOrAhead(p, f.less, tables[k], f.limit, pages[k], r);
    if r in pages[k] {
      OnPage(pages, k, r);
    }
  }

  lemma FetchSelects(f: Feed, tables: seq<set<Row>>, pages: seq<seq<Row>>, cursors: seq<string>, k: nat, r: Row)
    requires f.Sound() && Session(f, tables, pages, cursors) && k < |pages| && f.sort in f.definitions
    requires k > 0 ==> |pages[k - 1]| == f.limit && RowBefore(f.Terms(), pages[k - 1][f.limit - 1], r, f.less)
                       && !HiddenBy(f, pages, r, k - 1)
    ensures Fetched(f, cursors[k], tables[k], pages[k])
    ensures f.Fetch(cursors[k]).value.OrderBy() == f.Terms() && Selected(f.Fetch(cursors[k]).value, r, f.less)
  {
    assert SessionStep(f, tables, pages, cursors, k);
    AcceptedPlan(f.QueryFor(cursors[k]), f.definitions, f.text);
    if k > 0 {
      ResumesAfter(f, cursors[k - 1], pages[k - 1][f.limit - 1], cursors[k]);
    }
  }

  lemma OnPage(pages: seq<seq<Row>>, k: nat, r: Row)
    requires k < |pages| && r in pages[k]
    ensures Returned(pages, r.id)
  {
    var i :| 0 <= i < |pages[k]| && pages[k][i] == r;
    assert pages[k][i].id == r.id;
  }

  lemma PageOrAhead(p: Plan, less: Collation, table: set<Row>, limit: nat, page: seq<Row>, r: Row)
    requires IsPage(p, less, table, limit, page) && limit > 0 && r in table && Selected(p, r, less)
    ensures r in page || (|page| == limit && RowBefore(p.OrderBy(), page[limit - 1], r, less))
  {
  }

  /** Two versions of a row are hidden alike, since their keys agree. */
  lemma SameHiding(f: Feed, pages: seq<seq<Row>>, tables: seq<set<Row>>, j: nat, s: Row, k: nat, r: Row)
    requires f.sort in f.definitions && StableKeys(f.Terms(), tables) && j < |tables| && k < |tables|
    requires s in tables[j] && r in tables[k] && s.id == r.id
    ensures KeyOf(f.Terms(), s) == KeyOf(f.Terms(), r)
    ensures forall l :: HiddenBy(f, pages, s, l) <==> HiddenBy(f, pages, r, l)
  {
  }

  /** The rows of later pages compare without a NULL to the last row of any earlier one. */
  lemma {:induction false} LaterRowsCompare(f: Feed, tables: seq<set<Row>>, pages: seq<seq<Row>>, cursors: seq<string>,
                                            k: nat, l: nat, j: nat)
    requires f.Sound() && Session(f, tables, pages, cursors) && f.sort in f.definitions
    requires k < l < |pages| && j < |pages[l]|
    ensures |pages[k]| == f.limit && |pages[l - 1]| == f.limit
    ensures Comparable(KeyOf(f.Terms(), pages[k][f.limit - 1]), KeyOf(f.Terms(), pages[l][j]))
    decreases l
  {
    SelectsTheRest(f, tables, pages, cursors, l);
    assert SessionStep(f, tables, pages, cursors, l);
    assert Selected(f.Fetch(cursors[l]).value, pages[l][j], f.less);
    if k < l - 1 {
      LaterRowsCompare(f, tables, pages, cursors, k, l - 1, f.limit - 1);
      PagesAscend(f, tables, pages, cursors, k, f.limit - 1, l - 1, f.limit - 1);
      ComparableTransitive(f.Terms(), KeyOf(f.Terms(), pages[k][f.limit - 1]),
                           KeyOf(f.Terms(), pages[l - 1][f.limit - 1]),
                           KeyOf(f.Terms(), pages[l][j]), f.less);
    }
  }

  /** Once hidden, a row is never returned. */
  lemma HiddenLost(f: Feed, tables: seq<set<Row>>, pages: seq<seq<Row>>, cursors: seq<string>, r: Row, k: nat, l: nat,
                   i: nat)
    requires f.Sound() && Session(f, tables, pages, cursors) && f.sort in f.definitions
    requires HiddenBy(f, pages, r, k) && l < |pages| && i < |pages[l]|
    ensures KeyOf(f.Terms(), pages[l][i]) != KeyOf(f.Terms(), r)
  {
    var last := pages[k][f.limit - 1];
    if k < l {
      LaterRowsCompare(f, tables, pages, cursors, k, l, i);
    } else {
      if l < k {
        PagesAscend(f, tables, pages, cursors, l, i, k, f.limit - 1);
      } else {
        PageInOrder(f, tables, pages, cursors, k);
      }
      if KeyOf(f.Terms(), pages[l][i]) == KeyOf(f.Terms(), r) {
        BackAndForth(f.Terms(), last, r, pages[l][i], f.less);
      }
    }
  }

  lemma BackAndForth(terms: seq<Term>, last: Row, r: Row, s: Row, less: Collation)
    requires TotalOrders(less) && RowBefore(terms, last, r, less) && KeyOf(terms, s) == KeyOf(terms, r)
    ensures s != last && !RowBefore(terms, s, last, less)
  {
    KeyBeforeIrreflexive(terms, KeyOf(terms, last), less);
    if RowBefore(terms, s, last, less) {
      KeyBeforeTransitive(terms, KeyOf(terms, last), KeyOf(terms, r), KeyOf(terms, last), less);
    }
  }

  /** A row present throughout a session that ran to a short page is returned - once, by StrictlyIncreasing -
      exactly when no full page ends in a row that a NULL hides it from. */
  lemma ReturnedIff(f: Feed, tables: seq<set<Row>>, pages: seq<seq<Row>>, cursors: seq<string>, r: Row)
    requires f.Sound() && Session(f, tables, pages, cursors) && |pages[|pages| - 1]| < f.limit
    requires f.sort in f.definitions && StableKeys(f.Terms(), tables)
    requires r in tables[|pages| - 1] && forall l :: 0 <= l < |tables| ==> Present(tables[l], r.id)
    ensures Returned(pages, r.id) <==> forall k: nat :: !HiddenBy(f, pages, r, k)
  {
    if forall k: nat :: !HiddenBy(f, pages, r, k) {
      FoundOrAhead(f, tables, pages, cursors, |pages| - 1, r);
    } else {
      var k: nat :| HiddenBy(f, pages, r, k);
      if Returned(pages, r.id) {
        var l, i :| 0 <= l < |pages| && 0 <= i < |pages[l]| && pages[l][i].id == r.id;
        assert SessionStep(f, tables, pages, cursors, l);
        HiddenLost(f, tables, pages, cursors, r, k, l, i);
      }
    }
  }

  /** The last row of a page from which a cursor was made has no NULL in its sort columns. */
  lemma CursorRowNullFree(f: Feed, cursor: string, page: seq<Row>, next: string)
    requires f.Sound() && Continues(f, cursor, page, next)
    requires f.sort in f.definitions && RefusesNull(f.definitions[f.sort].Normalized().primaryCodec)
    ensures NullFree(f.Terms(), page[|page| - 1])
  {
    AcceptedPlan(f.QueryFor(cursor), f.definitions, f.text);
    KeyOfTerms(f.Fetch(cursor).value, page[|page| - 1]);
  }

  lemma NeverHidden(f: Feed, cursor: string, page: seq<Row>, next: string, r: Row)
    requires f.Sound() && Continues(f, cursor, page, next)
    requires f.sort in f.definitions && RefusesNull(f.definitions[f.sort].Normalized().primaryCodec)
    requires NullFree(f.Terms(), r)
    ensures !Hidden(f.Terms(), page[f.limit - 1], r, f.less)
  {
    CursorRowNullFree(f, cursor, page, next);
    NullFreeComparable(KeyOf(f.Terms(), page[f.limit - 1]), KeyOf(f.Terms(), r));
  }

  lemma NotHiddenBy(f: Feed, tables: seq<set<Row>>, pages: seq<seq<Row>>, cursors: seq<string>, r: Row, k: nat)
    requires f.Sound() && Session(f, tables, pages, cursors) && k < |pages| - 1
    requires f.sort in f.definitions && RefusesNull(f.definitions[f.sort].Normalized().primaryCodec)
    requires NullFree(f.Terms(), r)
    ensures !HiddenBy(f, pages, r, k)
  {
    assert SessionStep(f, tables, pages, cursors, k + 1);
    NeverHidden(f, cursors[k], pages[k], cursors[k + 1], r);
  }

  /** So with codecs that refuse NULL, as both of the repository's do, a row present throughout is returned
      when its sort columns are not NULL. */
  lemma NothingMissed(f: Feed, tables: seq<set<Row>>, pages: seq<seq<Row>>, cursors: seq<string>, r: Row)
    requires f.Sound() && Session(f, tables, pages, cursors) && |pages[|pages| - 1]| < f.limit
    requires f.sort in f.definitions && RefusesNull(f.definitions[f.sort].Normalized().primaryCodec)
    requires StableKeys(f.Terms(), tables)
    requires r in tables[|pages| - 1] && forall l :: 0 <= l < |tables| ==> Present(tables[l], r.id)
    requires NullFree(f.Terms(), r)
    ensures Returned(pages, r.id)
  {
    forall k: nat ensures !HiddenBy(f, pages, r, k) {
      if k < |pages| - 1 {
        NotHiddenBy(f, tables, pages, cursors, r, k);
      }
    }
    ReturnedIff(f, tables, pages, cursors, r);
  }

  // ---------- an unchanging table ----------

  ghost function Concat(pages: seq<seq<Row>>): seq<Row> {
    if pages == [] then [] else Concat(pages[..|pages| - 1]) + pages[|pages| - 1]
  }

  lemma {:induction false} ConcatMembers(pages: seq<seq<Row>>, r: Row)
    ensures r in Concat(pages) <==> exists k :: 0 <= k < |pages| && r in pages[k]
  {
    if pages != [] {
      var n := |pages| - 1;
      ConcatMembers(pages[..n], r);
      assert forall k :: 0 <= k < n ==> pages[..n][k] == pages[k];
      if r in Concat(pages[..n]) {
        var k :| 0 <= k < n && r in pages[..n][k];
        assert r in pages[k];
      }
    }
  }

  /** The concatenation is sorted when every pair of returned rows is. */
  lemma {:induction false} ConcatSorted(terms: seq<Term>, less: Collation, pages: seq<seq<Row>>)
    requires forall k, i, l, j ::
               (0 <= k < |pages| && 0 <= i < |pages[k]| && 0 <= l < |pages| && 0 <= j < |pages[l]|
                 && (k < l || (k == l && i < j)))
               ==> RowBefore(terms, pages[k][i], pages[l][j], less)
    ensures forall a, b :: 0 <= a < b < |Concat(pages)| ==> RowBefore(terms, Concat(pages)[a], Concat(pages)[b], less)
  {
    if pages != [] {
      var n := |pages| - 1;
      var init, last := pages[..n], pages[n];
      ConcatSorted(terms, less, init);
      forall x, j | x in Concat(init) && 0 <= j < |last| ensures RowBefore(terms, x, last[j], less) {
        ConcatMembers(init, x);
        var k :| 0 <= k < |init| && x in init[k];
        var i :| 0 <= i < |init[k]| && init[k][i] == x;
        assert pages[k][i] == x && pages[n][j] == last[j];
      }
      assert forall i, j :: 0 <= i < j < |last| ==> pages[n][i] == last[i] && pages[n][j] == last[j];
      AppendSorted(terms, less, Concat(init), last);
    }
  }

  lemma AppendSorted(terms: seq<Term>, less: Collation, xs: seq<Row>, ys: seq<Row>)
    requires forall a, b :: 0 <= a < b < |xs| ==> RowBefore(terms, xs[a], xs[b], less)
    requires forall a, b :: 0 <= a < b < |ys| ==> RowBefore(terms, ys[a], ys[b], less)
    requires forall x, j :: x in xs && 0 <= j < |ys| ==> RowBefore(terms, x, ys[j], less)
    ensures forall a, b :: 0 <= a < b < |xs + ys| ==> RowBefore(terms, (xs + ys)[a], (xs + ys)[b], less)
  {
    forall a, b | 0 <= a < b < |xs + ys| ensures RowBefore(terms, (xs + ys)[a], (xs + ys)[b], less) {
      if a < |xs| <= b {
        assert xs[a] in xs;
      }
    }
  }

  lemma {:induction false} ConcatLength(pages: seq<seq<Row>>, limit: nat)
    requires forall k :: 0 <= k < |pages| ==> |pages[k]| == limit
    ensures |Concat(pages)| == limit * |pages|
  {
    if pages != [] {
      ConcatLength(pages[..|pages| - 1], limit);
      assert limit * |pages| == limit * (|pages| - 1) + limit;
    }
  }

  lemma SortedSize(terms: seq<Term>, less: Collation, rows: seq<Row>)
    requires TotalOrders(less)
    requires forall a, b :: 0 <= a < b < |rows| ==> RowBefore(terms, rows[a], rows[b], less)
    ensures |set r | r in rows| == |rows|
  {
    forall a, b | 0 <= a < b < |rows| ensures rows[a] != rows[b] {
      KeyBeforeIrreflexive(terms, KeyOf(terms, rows[a]), less);
    }
    SetOfSeq(rows);
  }

  /** If the table does not change, a session that ran to a short page concatenates, in sorted order, to
      exactly the rows that no NULL hides - the whole table iff there is none - in floor(n/limit) + 1 fetches
      for n rows returned. */
  lemma StaticListing(f: Feed, table: set<Row>, tables: seq<set<Row>>, pages: seq<seq<Row>>, cursors: seq<string>)
    requires f.Sound() && Session(f, tables, pages, cursors) && |pages[|pages| - 1]| < f.limit
    requires UniqueRows(table) && forall k :: 0 <= k < |tables| ==> tables[k] == table
    ensures f.sort in f.definitions
    ensures forall a, b :: 0 <= a < b < |Concat(pages)| ==>
                  RowBefore(f.Terms(), Concat(pages)[a], Concat(pages)[b], f.less)
    ensures forall r :: r in Concat(pages) <==> r in table && forall k: nat :: !HiddenBy(f, pages, r, k)
    ensures |pages| == |Concat(pages)| / f.limit + 1
    ensures |Concat(pages)| == |table| <==> forall r, k: nat :: r in table ==> !HiddenBy(f, pages, r, k)
  {
    SelectsTheRest(f, tables, pages, cursors, 0);
    StaticOrder(f, tables, pages, cursors);
    StaticContents(f, table, tables, pages, cursors);
    FullPages(f, tables, pages, cursors);
    Quotient(|Concat(pages)|, f.limit, |pages| - 1, |pages[|pages| - 1]|);
    WholeIff(f, table, pages);
  }

  lemma WholeIff(f: Feed, table: set<Row>, pages: seq<seq<Row>>)
    requires f.sort in f.definitions && |set r | r in Concat(pages)| == |Concat(pages)|
    requires forall r :: r in Concat(pages) <==> r in table && forall k: nat :: !HiddenBy(f, pages, r, k)
    ensures |Concat(pages)| == |table| <==> forall r, k: nat :: r in table ==> !HiddenBy(f, pages, r, k)
  {
    var listed := set r | r in Concat(pages);
    SubsetSize(listed, table);
    if listed == table {
      forall r, k: nat | r in table ensures !HiddenBy(f, pages, r, k) {
        assert r in listed;
      }
    } else {
      var r :| r in table && r !in listed;
      assert r !in Concat(pages);
    }
  }

  /** And with no NULL in any sort column, the whole table is listed. */
  lemma StaticWhole(f: Feed, table: set<Row>, tables: seq<set<Row>>, pages: seq<seq<Row>>, cursors: seq<string>)
    requires f.Sound() && Session(f, tables, pages, cursors) && |pages[|pages| - 1]| < f.limit
    requires UniqueRows(table) && forall k :: 0 <= k < |tables| ==> tables[k] == table
    requires f.sort in f.definitions && RefusesNull(f.definitions[f.sort].Normalized().primaryCodec)
    requires forall r :: r in table ==> NullFree(f.Terms(), r)
    ensures table == set r | r in Concat(pages)
    ensures |Concat(pages)| == |table| && |pages| == |table| / f.limit + 1
  {
    StaticListing(f, table, tables, pages, cursors);
    forall r | r in table ensures r in Concat(pages) {
      assert forall l :: 0 <= l < |tables| ==> r in tables[l] && Present(tables[l], r.id);
      NothingMissed(f, tables, pages, cursors, r);
      ReturnedIff(f, tables, pages, cursors, r);
    }
  }

  /** The pages concatenate in order, with no repeats. */
  lemma StaticOrder(f: Feed, tables: seq<set<Row>>, pages: seq<seq<Row>>, cursors: seq<string>)
    requires f.Sound() && Session(f, tables, pages, cursors) && f.sort in f.definitions
    ensures forall a, b :: 0 <= a < b < |Concat(pages)| ==>
                  RowBefore(f.Terms(), Concat(pages)[a], Concat(pages)[b], f.less)
    ensures |set r | r in Concat(pages)| == |Concat(pages)|
  {
    forall k, i, l, j | 0 <= k < |pages| && 0 <= i < |pages[k]| && 0 <= l < |pages| && 0 <= j < |pages[l]|
                        && (k < l || (k == l && i < j))
      ensures RowBefore(f.Terms(), pages[k][i], pages[l][j], f.less)
    {
      StrictlyIncreasing(f, tables, pages, cursors, k, i, l, j);
    }
    ConcatSorted(f.Terms(), f.less, pages);
    SortedSize(f.Terms(), f.less, Concat(pages));
  }

  /** A session over an unchanging table cannot go on for ever: its full pages fit into the table. */
  lemma StaticBounded(f: Feed, table: set<Row>, tables: seq<set<Row>>, pages: seq<seq<Row>>, cursors: seq<string>)
    requires f.Sound() && Session(f, tables, pages, cursors)
    requires forall k :: 0 <= k < |tables| ==> tables[k] == table
    ensures f.limit * (|pages| - 1) + |pages[|pages| - 1]| <= |table|
  {
    SelectsTheRest(f, tables, pages, cursors, 0);
    StaticOrder(f, tables, pages, cursors);
    var all := Concat(pages);
    forall r | r in all ensures r in table {
      OnlyTableRows(f, table, tables, pages, cursors, r);
    }
    SubsetSize((set r | r in all), table);
    FullPages(f, tables, pages, cursors);
  }

  lemma StaticContents(f: Feed, table: set<Row>, tables: seq<set<Row>>, pages: seq<seq<Row>>, cursors: seq<string>)
    requires f.Sound() && Session(f, tables, pages, cursors) && |pages[|pages| - 1]| < f.limit
    requires f.sort in f.definitions
    requires UniqueRows(table) && forall k :: 0 <= k < |tables| ==> tables[k] == table
    ensures forall r :: r in Concat(pages) <==> r in table && forall k: nat :: !HiddenBy(f, pages, r, k)
  {
    forall r ensures r in Concat(pages) <==> r in table && forall k: nat :: !HiddenBy(f, pages, r, k) {
      OnlyTableRows(f, table, tables, pages, cursors, r);
      if r in table {
        assert forall l :: 0 <= l < |tables| ==> r in tables[l] && Present(tables[l], r.id);
        ReturnedIff(f, tables, pages, cursors, r);
        ReturnedItself(f, table, tables, pages, cursors, r);
      }
    }
  }

  lemma OnlyTableRows(f: Feed, table: set<Row>, tables: seq<set<Row>>, pages: seq<seq<Row>>, cursors: seq<string>,
                      r: Row)
    requires Session(f, tables, pages, cursors) && forall k :: 0 <= k < |tables| ==> tables[k] == table
    ensures r in Concat(pages) ==> r in table
  {
    ConcatMembers(pages, r);
    if r in Concat(pages) {
      var k :| 0 <= k < |pages| && r in pages[k];
      assert SessionStep(f, tables, pages, cursors, k);
    }
  }

  /** In an unchanging table an id stands for one row. */
  lemma ReturnedItself(f: Feed, table: set<Row>, tables: seq<set<Row>>, pages: seq<seq<Row>>, cursors: seq<string>,
                       r: Row)
    requires Session(f, tables, pages, cursors) && r in table
    requires UniqueRows(table) && forall k :: 0 <= k < |tables| ==> tables[k] == table
    ensures Returned(pages, r.id) <==> r in Concat(pages)
  {
    ConcatMembers(pages, r);
    if Returned(pages, r.id) {
      var k, i :| 0 <= k < |pages| && 0 <= i < |pages[k]| && pages[k][i].id == r.id;
      assert SessionStep(f, tables, pages, cursors, k);
      assert pages[k][i] == r;
    }
    if r in Concat(pages) {
      var k :| 0 <= k < |pages| && r in pages[k];
      var i :| 0 <= i < |pages[k]| && pages[k][i] == r;
      assert pages[k][i].id == r.id;
    }
  }

  lemma FullPages(f: Feed, tables: seq<set<Row>>, pages: seq<seq<Row>>, cursors: seq<string>)
    requires f.Sound() && Session(f, tables, pages, cursors)
    ensures |Concat(pages)| == f.limit * (|pages| - 1) + |pages[|pages| - 1]|
  {
    var init := pages[..|pages| - 1];
    forall k | 0 <= k < |init| ensures |init[k]| == f.limit {
      assert SessionStep(f, tables, pages, cursors, k + 1);
    }
    ConcatLength(init, f.limit);
  }

  lemma Quotient(n: nat, d: nat, q: nat, r: nat)
    requires d > 0 && r < d && n == d * q + r
    ensures n / d == q
  {
    var x := n / d - q;
    assert d * x == d * (n / d) - d * q;
    Multiple(d, x);
  }

  lemma Multiple(d: nat, x: int)
    ensures x >= 1 ==> d * x >= d
    ensures x <= -1 ==> d * x <= 0 - d
  {
    if x >= 1 {
      assert d * x == d * (x - 1) + d;
    } else if x <= -1 {
      assert d * x == d * (x + 1) - d;
    }
  }

  // ---------- there is always a next page ----------

  ghost predicate UniqueRows(table: set<Row>) {
    forall r, s :: r in table && s in table && r.id == s.id ==> r == s
  }

  /** Sort keys end in the id, so they tell rows apart. */
  lemma KeyTellsRow(p: Plan, r: Row, s: Row)
    requires KeyOf(p.OrderBy(), r) == KeyOf(p.OrderBy(), s)
    ensures r.id == s.id
  {
    KeyOfTerms(p, r);
    KeyOfTerms(p, s);
  }

  lemma {:induction false} LeastRow(p: Plan, less: Collation, rows: set<Row>) returns (m: Row)
    requires TotalOrders(less) && UniqueRows(rows) && rows != {}
    ensures m in rows && forall r :: r in rows && r != m ==> RowBefore(p.OrderBy(), m, r, less)
    decreases |rows|
  {
    var x :| x in rows;
    m := x;
    if rows != {x} {
      assert rows - {x} != {};
      var y := LeastRow(p, less, rows - {x});
      m := Lesser(p, less, x, y);
      forall r | r in rows && r != m ensures RowBefore(p.OrderBy(), m, r, less) {
        if m == x && r != y {
          BeforeTransitive(p.OrderBy(), x, y, r, less);
        }
      }
    }
  }

  lemma Lesser(p: Plan, less: Collation, x: Row, y: Row) returns (m: Row)
    requires TotalOrders(less) && x.id != y.id
    ensures (m == x && RowBefore(p.OrderBy(), x, y, less)) || (m == y && RowBefore(p.OrderBy(), y, x, less))
  {
    var terms := p.OrderBy();
    if KeyOf(terms, x) == KeyOf(terms, y) {
      KeyTellsRow(p, x, y);
    }
    KeyBeforeTotal(terms, KeyOf(terms, x), KeyOf(terms, y), less);
    m := if RowBefore(terms, x, y, less) then x else y;
  }

  /** The first `limit` of these rows in the plan's order. */
  ghost predicate FirstRows(p: Plan, less: Collation, rows: set<Row>, limit: nat, page: seq<Row>) {
    && |page| <= limit
    && (forall i, j :: 0 <= i < j < |page| ==> RowBefore(p.OrderBy(), page[i], page[j], less))
    && (forall i :: 0 <= i < |page| ==> page[i] in rows)
    && (forall r :: r in rows && r !in page ==>
          |page| == limit && forall i :: 0 <= i < |page| ==> RowBefore(p.OrderBy(), page[i], r, less))
  }

  lemma {:induction false} FirstRowsExist(p: Plan, less: Collation, rows: set<Row>, limit: nat) returns (page: seq<Row>)
    requires TotalOrders(less) && UniqueRows(rows)
    ensures FirstRows(p, less, rows, limit, page)
    decreases limit
  {
    page := [];
    if limit > 0 && rows != {} {
      var m := LeastRow(p, less, rows);
      var rest := FirstRowsExist(p, less, rows - {m}, limit - 1);
      page := [m] + rest;
      forall r | r in rows && r !in page
        ensures |page| == limit && forall i :: 0 <= i < |page| ==> RowBefore(p.OrderBy(), page[i], r, less)
      {
        assert m in page && forall x :: x in rest ==> x in page;
        assert r in rows - {m} && r !in rest;
      }
    }
  }

  lemma PageExists(f: Feed, cursor: string, table: set<Row>) returns (page: seq<Row>)
    requires TotalOrders(f.less) && UniqueRows(table) && f.Fetch(cursor).Ok?
    ensures Fetched(f, cursor, table, page)
  {
    var p := f.Fetch(cursor).value;
    page := FirstRowsExist(p, f.less, (set r | r in table && Selected(p, r, f.less)), f.limit);
  }

  /** After a full page whose last row serializes, the next cursor is accepted and the next fetch, from
      whatever the table has become, has a page: no session gets stuck. */
  lemma SessionContinues(f: Feed, tables: seq<set<Row>>, pages: seq<seq<Row>>, cursors: seq<string>,
                         cursor: string, table: set<Row>) returns (page: seq<Row>)
    requires f.Sound() && Session(f, tables, pages, cursors) && UniqueRows(table)
    requires Continues(f, cursors[|pages| - 1], pages[|pages| - 1], cursor)
    ensures Session(f, tables + [table], pages + [page], cursors + [cursor])
  {
    var n, last := |pages|, pages[|pages| - 1];
    ResumesAfter(f, cursors[n - 1], last[|last| - 1], cursor);
    page := PageExists(f, cursor, table);
    forall k | 0 <= k < n + 1 ensures SessionStep(f, tables + [table], pages + [page], cursors + [cursor], k) {
      if k < n {
        assert SessionStep(f, tables, pages, cursors, k);
      }
    }
  }

  /** A row from which a cursor can be made. */
  ghost predicate Serializes(f: Feed, r: Row) {
    f.sort in f.definitions && NextCursor(f, Plan(f.sort, f.order, f.definitions[f.sort].Normalized(), None), r).Ok?
  }

  /** A session over one unchanging table. */
  ghost predicate StaticSession(f: Feed, table: set<Row>, tables: seq<set<Row>>, pages: seq<seq<Row>>,
                                cursors: seq<string>) {
    Session(f, tables, pages, cursors) && forall k :: 0 <= k < |tables| ==> tables[k] == table
  }

  /** Rows from which cursors can be made, together with all rows of the table that a page after one of them
      may hold. */
  ghost predicate Resumable(f: Feed, table: set<Row>, rows: set<Row>)
    requires f.sort in f.definitions
  {
    && (forall r :: r in rows ==> Serializes(f, r))
    && (forall s, r :: s in rows && r in table && Comparable(KeyOf(f.Terms(), s), KeyOf(f.Terms(), r)) ==> r in rows)
  }

  lemma NextStaticPage(f: Feed, table: set<Row>, rows: set<Row>, tables: seq<set<Row>>, pages: seq<seq<Row>>,
                       cursors: seq<string>)
    returns (page: seq<Row>, cursor: string)
    requires f.Sound() && UniqueRows(table) && StaticSession(f, table, tables, pages, cursors)
    requires f.sort in f.definitions && Resumable(f, table, rows)
    requires |pages[|pages| - 1]| == f.limit && pages[|pages| - 1][f.limit - 1] in rows
    ensures StaticSession(f, table, tables + [table], pages + [page], cursors + [cursor])
    ensures forall r :: r in page ==> r in rows
  {
    var n := |pages| - 1;
    var last := pages[n][f.limit - 1];
    assert SessionStep(f, tables, pages, cursors, n);
    AcceptedPlan(f.QueryFor(cursors[n]), f.definitions, f.text);
    assert Serializes(f, last);
    var next := NextCursor(f, f.Fetch(cursors[n]).value, last);
    assert next.Ok?;
    cursor := next.value;
    page := SessionContinues(f, tables, pages, cursors, cursor, table);
    FollowersResumable(f, table, rows, tables + [table], pages + [page], cursors + [cursor]);
  }

  lemma FollowersResumable(f: Feed, table: set<Row>, rows: set<Row>, tables: seq<set<Row>>, pages: seq<seq<Row>>,
                           cursors: seq<string>)
    requires f.Sound() && StaticSession(f, table, tables, pages, cursors) && |pages| > 1
    requires f.sort in f.definitions && Resumable(f, table, rows)
    requires |pages[|pages| - 2]| == f.limit && pages[|pages| - 2][f.limit - 1] in rows
    ensures forall r :: r in pages[|pages| - 1] ==> r in rows
  {
    var n := |pages| - 1;
    forall j | 0 <= j < |pages[n]| ensures pages[n][j] in rows {
      FollowerResumable(f, table, rows, tables, pages, cursors, n, j);
    }
  }

  lemma FollowerResumable(f: Feed, table: set<Row>, rows: set<Row>, tables: seq<set<Row>>, pages: seq<seq<Row>>,
                          cursors: seq<string>, n: nat, j: nat)
    requires f.Sound() && StaticSession(f, table, tables, pages, cursors) && 0 < n < |pages| && j < |pages[n]|
    requires f.sort in f.definitions && Resumable(f, table, rows)
    requires |pages[n - 1]| == f.limit && pages[n - 1][f.limit - 1] in rows
    ensures pages[n][j] in rows
  {
    LaterRowsCompare(f, tables, pages, cursors, n - 1, n, j);
    PageInOrder(f, tables, pages, cursors, n);
  }

  lemma {:induction false} Continued(f: Feed, table: set<Row>, rows: set<Row>, tables: seq<set<Row>>,
                                     pages: seq<seq<Row>>, cursors: seq<string>)
    returns (allTables: seq<set<Row>>, allPages: seq<seq<Row>>, allCursors: seq<string>)
    requires f.Sound() && UniqueRows(table) && StaticSession(f, table, tables, pages, cursors)
    requires f.sort in f.definitions && Resumable(f, table, rows)
    requires |pages[|pages| - 1]| == f.limit ==> pages[|pages| - 1][f.limit - 1] in rows
    ensures CompleteListing(f, table, allTables, allPages, allCursors)
    decreases |table| + 1 - |pages|
  {
    FetchesBounded(f, table, tables, pages, cursors);
    allTables, allPages, allCursors := tables, pages, cursors;
    if |pages[|pages| - 1]| == f.limit {
      var page, cursor := NextStaticPage(f, table, rows, tables, pages, cursors);
      allTables, allPages, allCursors :=
        Continued(f, table, rows, tables + [table], pages + [page], cursors + [cursor]);
    }
  }

  lemma FetchesBounded(f: Feed, table: set<Row>, tables: seq<set<Row>>, pages: seq<seq<Row>>, cursors: seq<string>)
    requires f.Sound() && StaticSession(f, table, tables, pages, cursors)
    ensures |pages| <= |table| + 1 && |pages[|pages| - 1]| <= f.limit
  {
    StaticBounded(f, table, tables, pages, cursors);
    AtLeast(f.limit, |pages| - 1);
    assert SessionStep(f, tables, pages, cursors, |pages| - 1);
  }

  lemma AtLeast(d: nat, q: nat)
    requires d > 0
    ensures q <= d * q
  {
  }

  /** A session over an unchanging table that was read to a short page. */
  ghost predicate CompleteListing(f: Feed, table: set<Row>, tables: seq<set<Row>>, pages: seq<seq<Row>>,
                                  cursors: seq<string>)
  {
    StaticSession(f, table, tables, pages, cursors) && |pages[|pages| - 1]| < f.limit
  }

  /** A first page from whose last row, if it is full, one can go on can be read on to the end. */
  lemma ListingFrom(f: Feed, table: set<Row>, rows: set<Row>, page: seq<Row>)
    returns (tables: seq<set<Row>>, pages: seq<seq<Row>>, cursors: seq<string>)
    requires f.Sound() && UniqueRows(table) && f.sort in f.definitions && Resumable(f, table, rows)
    requires Fetched(f, "", table, page) && (|page| == f.limit ==> page[f.limit - 1] in rows)
    ensures CompleteListing(f, table, tables, pages, cursors)
  {
    tables, pages, cursors := [table], [page], [""];
    assert SessionStep(f, tables, pages, cursors, 0);
    tables, pages, cursors := Continued(f, table, rows, tables, pages, cursors);
  }

  /** Every listing can be read to its end: over an unchanging table whose rows serialize there is a session
      that runs to a short page. */
  lemma SessionExists(f: Feed, table: set<Row>)
    returns (tables: seq<set<Row>>, pages: seq<seq<Row>>, cursors: seq<string>)
    requires f.Sound() && f.Fetch("").Ok? && UniqueRows(table)
    requires forall r :: r in table ==> Serializes(f, r)
    ensures CompleteListing(f, table, tables, pages, cursors)
  {
    var page := PageExists(f, "", table);
    AcceptedPlan(f.QueryFor(""), f.definitions, f.text);
    tables, pages, cursors := ListingFrom(f, table, table, page);
  }
}
