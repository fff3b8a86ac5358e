/** What rows with NULL in their primary sort column do to a listing of an unchanging table: which of them
    are returned, and when the listing can be read to its end. */
module Nulls {
  import opened Core
  import opened Keyset
  import opened Paging

  // ---------- rank ----------

  /** The rows that come before r in the order of the listing. */
  ghost function Preceding(f: Feed, table: set<Row>, r: Row): set<Row>
    requires f.sort in f.definitions
  {
    set s | s in table && RowBefore(f.Terms(), s, r, f.less)
  }

  function Primary(f: Feed, r: Row): Value
    requires f.sort in f.definitions
  {
    r.Column(f.definitions[f.sort].primaryColumn)
  }

  lemma PrimaryLeads(f: Feed, r: Row)
    requires f.sort in f.definitions
    ensures KeyOf(f.Terms(), r)[0] == Primary(f, r)
    ensures !f.definitions[f.sort].Normalized().HasSecondary() ==> KeyOf(f.Terms(), r) == [Primary(f, r), Text(r.id)]
  {
    KeyOfTerms(Plan(f.sort, f.order, f.definitions[f.sort].Normalized(), None), r);
  }

  /** The first page of a listing is sorted, and whatever is not on it comes after all of a full page. */
  ghost predicate Leading(f: Feed, table: set<Row>, page: seq<Row>)
    requires f.sort in f.definitions
  {
    && |page| <= f.limit
    && (forall i :: 0 <= i < |page| ==> page[i] in table)
    && (forall i, j :: 0 <= i < j < |page| ==> RowBefore(f.Terms(), page[i], page[j], f.less))
    && (forall r :: r in table && r !in page ==>
          |page| == f.limit && forall i :: 0 <= i < |page| ==> RowBefore(f.Terms(), page[i], r, f.less))
  }

  lemma FirstPageLeads(f: Feed, table: set<Row>, page: seq<Row>)
    requires Fetched(f, "", table, page)
    ensures f.sort in f.definitions && Leading(f, table, page)
  {
    AcceptedPlan(f.QueryFor(""), f.definitions, f.text);
  }

  lemma NotBothWays(f: Feed, r: Row, s: Row)
    requires TotalOrders(f.less) && f.sort in f.definitions && RowBefore(f.Terms(), r, s, f.less)
    ensures r != s && !RowBefore(f.Terms(), s, r, f.less)
  {
    BackAndForth(f.Terms(), r, s, s, f.less);
  }

  lemma SetOfPage(f: Feed, rows: seq<Row>)
    requires TotalOrders(f.less) && f.sort in f.definitions
    requires forall i, j :: 0 <= i < j < |rows| ==> RowBefore(f.Terms(), rows[i], rows[j], f.less)
    ensures |set r | r in rows| == |rows|
  {
    SortedSize(f.Terms(), f.less, rows);
  }

  /** A row stands on the first page at its rank. */
  lemma RankOnPage(f: Feed, table: set<Row>, page: seq<Row>, j: nat)
    requires TotalOrders(f.less) && f.sort in f.definitions && Leading(f, table, page) && j < |page|
    ensures |Preceding(f, table, page[j])| == j
  {
    forall s ensures s in Preceding(f, table, page[j]) <==> s in page[..j] {
      PrecedesOnPage(f, table, page, j, s);
    }
    assert Preceding(f, table, page[j]) == set s | s in page[..j];
    SetOfPage(f, page[..j]);
  }

  lemma PrecedesOnPage(f: Feed, table: set<Row>, page: seq<Row>, j: nat, s: Row)
    requires TotalOrders(f.less) && f.sort in f.definitions && Leading(f, table, page) && j < |page|
    ensures s in Preceding(f, table, page[j]) <==> s in page[..j]
  {
    if s in Preceding(f, table, page[j]) {
      NotBothWays(f, s, page[j]);
      var i :| 0 <= i < |page| && page[i] == s;
      assert i < j;
    }
  }

  /** A row is on the first page exactly when fewer than `limit` rows precede it. */
  lemma FirstPageIff(f: Feed, table: set<Row>, page: seq<Row>, r: Row)
    requires TotalOrders(f.less) && f.sort in f.definitions && Leading(f, table, page) && r in table
    ensures r in page <==> |Preceding(f, table, r)| < f.limit
  {
    if r in page {
      var j :| 0 <= j < |page| && page[j] == r;
      RankOnPage(f, table, page, j);
    } else {
      SetOfPage(f, page);
      assert (set s | s in page) <= Preceding(f, table, r);
      SubsetSize((set s | s in page), Preceding(f, table, r));
    }
  }

  // ---------- which NULL rows are returned ----------

  /** A row with NULL in its primary column is returned exactly when fewer than `limit` rows precede it. */
  lemma NullReturnedIff(f: Feed, table: set<Row>, tables: seq<set<Row>>, pages: seq<seq<Row>>, cursors: seq<string>,
                        r: Row)
    requires f.Sound() && UniqueRows(table) && CompleteListing(f, table, tables, pages, cursors)
    requires f.sort in f.definitions && r in table && Primary(f, r) == Null
    ensures Returned(pages, r.id) <==> |Preceding(f, table, r)| < f.limit
  {
    assert SessionStep(f, tables, pages, cursors, 0);
    FirstPageLeads(f, table, pages[0]);
    FirstPageIff(f, table, pages[0], r);
    if r in pages[0] {
      OnPage(pages, 0, r);
    } else {
      PrimaryLeads(f, r);
      assert HiddenBy(f, pages, r, 0);
      StaticReturnedIff(f, table, tables, pages, cursors, r);
    }
  }

  lemma StaticReturnedIff(f: Feed, table: set<Row>, tables: seq<set<Row>>, pages: seq<seq<Row>>, cursors: seq<string>,
                          r: Row)
    requires f.Sound() && UniqueRows(table) && CompleteListing(f, table, tables, pages, cursors)
    requires f.sort in f.definitions && r in table
    ensures Returned(pages, r.id) <==> forall k: nat :: !HiddenBy(f, pages, r, k)
  {
    assert forall l :: 0 <= l < |tables| ==> r in tables[l] && Present(tables[l], r.id);
    ReturnedIff(f, tables, pages, cursors, r);
  }

  /** In a listing by one column with a codec that refuses NULL, a row is returned exactly when its column is
      not NULL or fewer than `limit` rows precede it. */
  lemma ReturnedByRank(f: Feed, table: set<Row>, tables: seq<set<Row>>, pages: seq<seq<Row>>, cursors: seq<string>,
                       r: Row)
    requires f.Sound() && UniqueRows(table) && CompleteListing(f, table, tables, pages, cursors)
    requires f.sort in f.definitions && r in table
    requires !f.definitions[f.sort].Normalized().HasSecondary()
    requires RefusesNull(f.definitions[f.sort].Normalized().primaryCodec)
    ensures Returned(pages, r.id) <==> Primary(f, r) != Null || |Preceding(f, table, r)| < f.limit
  {
    if Primary(f, r) == Null {
      NullReturnedIff(f, table, tables, pages, cursors, r);
    } else {
      PrimaryLeads(f, r);
      assert forall l :: 0 <= l < |tables| ==> r in tables[l] && Present(tables[l], r.id);
      NothingMissed(f, tables, pages, cursors, r);
    }
  }

  // ---------- when a listing can be read to its end ----------

  ghost predicate Completes(f: Feed, table: set<Row>) {
    exists tables, pages, cursors :: CompleteListing(f, table, tables, pages, cursors)
  }

  /** The cursors of a listing by one column can be made of exactly the rows whose column is not NULL. */
  ghost predicate SerializesByColumn(f: Feed, table: set<Row>)
    requires f.sort in f.definitions
  {
    && !f.definitions[f.sort].Normalized().HasSecondary()
    && forall r :: r in table ==> (Serializes(f, r) <==> Primary(f, r) != Null)
  }

  /** The last row of a full first page was a source of the next cursor. */
  lemma FirstCursor(f: Feed, table: set<Row>, tables: seq<set<Row>>, pages: seq<seq<Row>>, cursors: seq<string>)
    requires f.Sound() && CompleteListing(f, table, tables, pages, cursors) && |pages[0]| == f.limit
    ensures Serializes(f, pages[0][f.limit - 1])
  {
    assert SessionStep(f, tables, pages, cursors, 0) && SessionStep(f, tables, pages, cursors, 1);
    AcceptedPlan(f.QueryFor(cursors[0]), f.definitions, f.text);
  }

  lemma CompleteAvoidsNull(f: Feed, table: set<Row>, tables: seq<set<Row>>, pages: seq<seq<Row>>, cursors: seq<string>,
                           r: Row)
    requires f.Sound() && CompleteListing(f, table, tables, pages, cursors)
    requires f.sort in f.definitions && SerializesByColumn(f, table) && r in table && Primary(f, r) == Null
    ensures |Preceding(f, table, r)| != f.limit - 1
  {
    assert SessionStep(f, tables, pages, cursors, 0);
    FirstPageLeads(f, table, pages[0]);
    FirstPageIff(f, table, pages[0], r);
    if |Preceding(f, table, r)| == f.limit - 1 {
      var j :| 0 <= j < |pages[0]| && pages[0][j] == r;
      RankOnPage(f, table, pages[0], j);
      FirstCursor(f, table, tables, pages, cursors);
    }
  }

  lemma NonNullResumable(f: Feed, table: set<Row>)
    requires f.sort in f.definitions && SerializesByColumn(f, table)
    ensures Resumable(f, table, set r | r in table && Primary(f, r) != Null)
  {
    var rows := set r | r in table && Primary(f, r) != Null;
    forall s, r | s in rows && r in table && Comparable(KeyOf(f.Terms(), s), KeyOf(f.Terms(), r)) ensures r in rows {
      PrimaryLeads(f, r);
    }
  }

  lemma FullFirstPage(f: Feed, table: set<Row>, page: seq<Row>)
    requires f.Sound() && Fetched(f, "", table, page) && |page| == f.limit
    ensures f.sort in f.definitions && page[f.limit - 1] in table
    ensures |Preceding(f, table, page[f.limit - 1])| == f.limit - 1
  {
    FirstPageLeads(f, table, page);
    RankOnPage(f, table, page, f.limit - 1);
  }

  lemma AvoidingCompletes(f: Feed, table: set<Row>)
    requires f.Sound() && f.Fetch("").Ok? && UniqueRows(table) && f.sort in f.definitions
    requires SerializesByColumn(f, table)
    requires forall r :: r in table && Primary(f, r) == Null ==> |Preceding(f, table, r)| != f.limit - 1
    ensures Completes(f, table)
  {
    var page := PageExists(f, "", table);
    NonNullResumable(f, table);
    if |page| == f.limit {
      FullFirstPage(f, table, page);
    }
    var rows := set r | r in table && Primary(f, r) != Null;
    var tables, pages, cursors := ListingFrom(f, table, rows, page);
  }

  /** A listing by one column of an unchanging table can be read to its end exactly when no row with NULL in
      that column is preceded by exactly limit - 1 rows, that is, ends the first page. */
  lemma CompletesIff(f: Feed, table: set<Row>)
    requires f.Sound() && f.Fetch("").Ok? && UniqueRows(table) && f.sort in f.definitions
    requires SerializesByColumn(f, table)
    ensures Completes(f, table)
       <==> forall r :: r in table && Primary(f, r) == Null ==> |Preceding(f, table, r)| != f.limit - 1
  {
    if Completes(f, table) {
      var tables, pages, cursors :| CompleteListing(f, table, tables, pages, cursors);
      forall r | r in table && Primary(f, r) == Null ensures |Preceding(f, table, r)| != f.limit - 1 {
        CompleteAvoidsNull(f, table, tables, pages, cursors, r);
      }
    }
    if forall r :: r in table && Primary(f, r) == Null ==> |Preceding(f, table, r)| != f.limit - 1 {
      AvoidingCompletes(f, table);
    }
  }

  // ---------- two inputs ----------

  const FIRST := Row("a", map["k" := Text("1")])
  const SECOND := Row("b", map["k" := Text("2")])
  const NULL_ROW := Row("c", map["k" := Null])
  const THREE := {FIRST, SECOND, NULL_ROW}

  /** Ascending by one column with the string codec, two rows a page, NULL last. */
  ghost predicate NullsLast(f: Feed) {
    && f.Sound() && f.sort == "k" && f.order == Asc && f.limit == 2
    && f.definitions == map["k" := SortDefinition("k", "", None, None)]
    && f.less("k", Text("1"), Text("2")) && f.less("k", Text("2"), Null)
  }

  /** Of three rows, the one whose sort column is NULL is never returned: the first page is full, and the
      clause made from its last row is not true of a NULL. */
  lemma NullRowMissed(f: Feed) returns (tables: seq<set<Row>>, pages: seq<seq<Row>>, cursors: seq<string>)
    requires NullsLast(f)
    ensures CompleteListing(f, THREE, tables, pages, cursors)
    ensures pages == [[FIRST, SECOND], []]
  {
    var cursor := FirstPage(f);
    var page := SessionContinues(f, [THREE], [[FIRST, SECOND]], [""], cursor, THREE);
    tables, pages, cursors := [THREE] + [THREE], [[FIRST, SECOND]] + [page], [""] + [cursor];
    SecondPage(f, tables, pages, cursors);
  }

  lemma KeysOfThree(f: Feed)
    requires NullsLast(f)
    ensures f.Fetch("").Ok? && f.Fetch("").value.OrderBy() == f.Terms()
    ensures f.Terms() == [Term("k", Asc), Term("id", Asc)]
    ensures forall r: Row :: KeyOf(f.Terms(), r) == [r.Column("k"), Text(r.id)]
  {
    forall r: Row ensures KeyOf(f.Terms(), r) == [r.Column("k"), Text(r.id)] {
      KeyOfTerms(f.Fetch("").value, r);
    }
  }

  lemma FirstPage(f: Feed) returns (cursor: string)
    requires NullsLast(f)
    ensures Session(f, [THREE], [[FIRST, SECOND]], [""])
    ensures Continues(f, "", [FIRST, SECOND], cursor)
  {
    FirstTwo(f);
    assert SessionStep(f, [THREE], [[FIRST, SECOND]], [""], 0);
    cursor := NextCursor(f, f.Fetch("").value, SECOND).value;
  }

  lemma FirstTwo(f: Feed)
    requires NullsLast(f)
    ensures Fetched(f, "", THREE, [FIRST, SECOND]) && NextCursor(f, f.Fetch("").value, SECOND).Ok?
  {
    KeysOfThree(f);
    assert f.less("k", Text("1"), Null);
  }

  lemma SecondPage(f: Feed, tables: seq<set<Row>>, pages: seq<seq<Row>>, cursors: seq<string>)
    requires NullsLast(f) && StaticSession(f, THREE, tables, pages, cursors)
    requires |pages| == 2 && pages[0] == [FIRST, SECOND]
    ensures pages[1] == []
  {
    KeysOfThree(f);
    SelectsTheRest(f, tables, pages, cursors, 1);
    assert SessionStep(f, tables, pages, cursors, 1);
    if pages[1] != [] {
      assert Selected(f.Fetch(cursors[1]).value, pages[1][0], f.less);
      NothingFollows(f, pages[1][0]);
    }
  }

  lemma NothingFollows(f: Feed, r: Row)
    requires NullsLast(f) && r in THREE
    ensures !(RowBefore(f.Terms(), SECOND, r, f.less) && Comparable(KeyOf(f.Terms(), SECOND), KeyOf(f.Terms(), r)))
  {
    KeysOfThree(f);
    if r == FIRST {
      BackAndForth(f.Terms(), FIRST, SECOND, SECOND, f.less);
    } else if r == SECOND {
      KeyBeforeIrreflexive(f.Terms(), KeyOf(f.Terms(), SECOND), f.less);
    }
  }

  const ANOTHER_NULL := Row("d", map["k" := Null])
  const STUCK := {FIRST, NULL_ROW, ANOTHER_NULL}

  /** With NULL in two of three rows, two rows a page, the listing never ends: the first page is full and ends
      in a NULL, from which no cursor can be made. */
  lemma NullPageStuck(f: Feed)
    requires NullsLast(f)
    ensures f.Sound() && f.Fetch("").Ok? && !Completes(f, STUCK)
  {
    StuckSerializes(f);
    if f.less("id", Text("c"), Text("d")) {
      SecondOfThree(f, NULL_ROW, ANOTHER_NULL);
    } else {
      SecondOfThree(f, ANOTHER_NULL, NULL_ROW);
    }
    CompletesIff(f, STUCK);
  }

  lemma StuckSerializes(f: Feed)
    requires NullsLast(f)
    ensures f.Fetch("").Ok? && f.sort in f.definitions && SerializesByColumn(f, STUCK) && UniqueRows(STUCK)
    ensures Primary(f, NULL_ROW) == Primary(f, ANOTHER_NULL) == Null
  {
  }

  lemma SecondOfThree(f: Feed, r: Row, s: Row)
    requires NullsLast(f) && STUCK == {FIRST, r, s} && r.Column("k") == s.Column("k") == Null
    requires f.less("id", Text(r.id), Text(s.id))
    ensures f.sort in f.definitions && |Preceding(f, STUCK, r)| == 1
  {
    KeysOfThree(f);
    assert f.less("k", Text("1"), Null);
    NotBothWays(f, r, s);
    KeyBeforeIrreflexive(f.Terms(), KeyOf(f.Terms(), r), f.less);
    forall x ensures x in Preceding(f, STUCK, r) <==> x == FIRST {
      assert x in STUCK <==> x == FIRST || x == r || x == s;
    }
    assert Preceding(f, STUCK, r) == {FIRST};
  }

  // ---------- a feed of this kind ----------

  predicate TextLess(a: string, b: string) {
    b != "" && (a == "" || a[0] < b[0] || (a[0] == b[0] && TextLess(a[1..], b[1..])))
  }

  predicate ValueLess(u: Value, v: Value) {
    match (u, v)
    case (Text(a), Text(b)) => TextLess(a, b)
    case (Time(a), Time(b)) => a < b
    case (Text(_), _) => true
    case (Time(_), Null) => true
    case _ => false
  }

  lemma {:induction false} TextLessTransitive(a: string, b: string, c: string)
    requires TextLess(a, b) && TextLess(b, c)
    ensures TextLess(a, c)
  {
    if a != "" && a[0] == b[0] == c[0] {
      TextLessTransitive(a[1..], b[1..], c[1..]);
    }
  }

  lemma {:induction false} TextLessTotal(a: string, b: string)
    ensures !TextLess(a, a)
    ensures a == b || TextLess(a, b) || TextLess(b, a)
  {
    if a != "" {
      TextLessTotal(a[1..], if b != "" then b[1..] else "");
      if b != "" && a[0] == b[0] && a[1..] == b[1..] {
        assert a == [a[0]] + a[1..] && b == [b[0]] + b[1..];
      }
    }
  }

  lemma ValueLessTransitive(u: Value, v: Value, w: Value)
    requires ValueLess(u, v) && ValueLess(v, w)
    ensures ValueLess(u, w)
  {
    if u.Text? && v.Text? && w.Text? {
      TextLessTransitive(u.text, v.text, w.text);
    }
  }

  lemma ValueLessTotal(u: Value, v: Value)
    ensures !ValueLess(u, u)
    ensures u == v || ValueLess(u, v) || ValueLess(v, u)
  {
    if u.Text? {
      TextLessTotal(u.text, if v.Text? then v.text else "");
    }
  }

  /** A text that ends at the first dot not preceded by a plus sign. */
  function Field(s: string): (t: string)
    ensures t != ""
  {
    if s == "" then "." else "+" + [s[0]] + Field(s[1..])
  }

  function Unfield(t: string): Option<(string, string)> {
    if t == "" then None
    else if t[0] == '.' then Some(("", t[1..]))
    else if t[0] != '+' || |t| < 2 then None
    else
      var tail := Unfield(t[2..]);
      if tail.None? then None else Some(([t[1]] + tail.value.0, tail.value.1))
  }

  lemma {:induction false} FieldReads(s: string, rest: string)
    ensures Unfield(Field(s) + rest) == Some((s, rest))
  {
    var t := Field(s) + rest;
    if s == "" {
      assert t[1..] == rest;
    } else {
      FieldReads(s[1..], rest);
      assert t[2..] == Field(s[1..]) + rest;
      assert s == [s[0]] + s[1..];
    }
  }

  function OrderText(o: Order): string {
    match o
    case Asc => "a"
    case Desc => "d"
    case OtherOrder(text) => "o" + text
  }

  function OrderOf(t: string): Order {
    if t == "a" then Asc else if t == "d" then Desc else if t == "" then OtherOrder("") else OtherOrder(t[1..])
  }

  function EncodeFields(c: Cursor): string {
    Field(c.sort) + (Field(OrderText(c.order)) + (Field(c.lastValue) + (Field(c.lastId)
      + (if c.lastSecondary.None? then "" else Field(c.lastSecondary.value)))))
  }

  function DecodeFields(t: string): Option<Cursor> {
    var sort := Unfield(t);
    var order := if sort.None? then None else Unfield(sort.value.1);
    var value := if order.None? then None else Unfield(order.value.1);
    var id := if value.None? then None else Unfield(value.value.1);
    if id.None? then None
    else if id.value.1 == "" then
      Some(Cursor(sort.value.0, OrderOf(order.value.0), value.value.0, None, id.value.0))
    else
      var secondary := Unfield(id.value.1);
      if secondary.None? then None
      else Some(Cursor(sort.value.0, OrderOf(order.value.0), value.value.0, Some(secondary.value.0), id.value.0))
  }

  lemma FieldsLossless(c: Cursor)
    ensures EncodeFields(c) != "" && DecodeFields(EncodeFields(c)) == Some(c)
  {
    var last := if c.lastSecondary.None? then "" else Field(c.lastSecondary.value);
    FieldReads(c.sort, Field(OrderText(c.order)) + (Field(c.lastValue) + (Field(c.lastId) + last)));
    FieldReads(OrderText(c.order), Field(c.lastValue) + (Field(c.lastId) + last));
    FieldReads(c.lastValue, Field(c.lastId) + last);
    FieldReads(c.lastId, last);
    if c.lastSecondary.Some? {
      FieldReads(c.lastSecondary.value, "");
      assert last + "" == last;
    }
    assert OrderOf(OrderText(c.order)) == c.order;
  }

  /** So the inputs of NullRowMissed and NullPageStuck exist. */
  lemma SomeNullsLast() returns (f: Feed)
    ensures NullsLast(f)
  {
    var text, less := CursorText(EncodeFields, DecodeFields), (c: string, u: Value, v: Value) => ValueLess(u, v);
    f := Feed(map["k" := SortDefinition("k", "", None, None)], text, less, "k", Asc, 2);
    forall c ensures text.encode(c) != "" && text.decode(text.encode(c)) == Some(c) {
      FieldsLossless(c);
    }
    assert TotalOrders(less) by {
      forall c: string, u, v, w | less(c, u, v) && less(c, v, w) ensures less(c, u, w) {
        ValueLessTransitive(u, v, w);
      }
      forall c: string, u, v ensures !less(c, u, u) && (u == v || less(c, u, v) || less(c, v, u)) {
        ValueLessTotal(u, v);
      }
    }
    assert TextLess("1", "2");
  }
}
