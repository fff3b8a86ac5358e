/** Keyset plans: the cursor, the ORDER BY terms and the WHERE predicate built from a sort definition. */
module Keyset {
  import opened Core

  datatype Value = Text(text: string) | Time(at: int) | Null

  /** `asc`, `desc`, or any other text a query may carry. */
  datatype Order = Asc | Desc | OtherOrder(text: string)

  /** How a column's value travels inside a cursor; each direction may refuse. */
  datatype Codec = Codec(parse: string -> Option<Value>, serialize: Value -> Option<string>)

  ghost predicate Lossless(c: Codec) {
    forall v :: c.serialize(v).Some? ==> c.parse(c.serialize(v).value) == Some(v)
  }

  /** Both codecs of the repository accept one dynamic type and refuse nil. */
  predicate RefusesNull(c: Codec) {
    c.serialize(Null).None?
  }

  const STRING_CODEC := Codec(raw => Some(Text(raw)), (v: Value) => if v.Text? then Some(v.text) else None)

  /** An empty secondary column means there is none; a missing codec means the string codec. */
  datatype SortDefinition = SortDefinition(
    primaryColumn: string, secondaryColumn: string, primaryCodec: Option<Codec>, secondaryCodec: Option<Codec>)
  {
    function Normalized(): Definition {
      Definition(primaryColumn, secondaryColumn,
                 if primaryCodec.Some? then primaryCodec.value else STRING_CODEC,
                 if secondaryCodec.Some? then secondaryCodec.value else STRING_CODEC)
    }
  }

  datatype Definition = Definition(
    primaryColumn: string, secondaryColumn: string, primaryCodec: Codec, secondaryCodec: Codec)
  {
    predicate HasSecondary() {
      secondaryColumn != ""
    }
  }

  datatype Cursor = Cursor(sort: string, order: Order, lastValue: string, lastSecondary: Option<string>, lastId: string)

  /** The JSON and base64url text form of cursors. */
  datatype CursorText = CursorText(encode: Cursor -> string, decode: string -> Option<Cursor>)

  ghost predicate LosslessText(t: CursorText) {
    forall c :: t.encode(c) != "" && t.decode(t.encode(c)) == Some(c)
  }

  datatype Query = Query(sort: string, order: Order, limit: int, cursor: string)

  datatype Op = Less | Greater | Equal

  /** A WHERE clause; every comparison is against the next positional argument. */
  datatype Clause =
    | Compare(column: string, op: Op)
    | And(left: Clause, right: Clause)
    | Or(left: Clause, right: Clause)
  {
    function Holes(): nat {
      match this
      case Compare(_, _) => 1
      case And(l, r) => l.Holes() + r.Holes()
      case Or(l, r) => l.Holes() + r.Holes()
    }
  }

  datatype Term = Term(column: string, order: Order)

  datatype Plan = Plan(sort: string, order: Order, definition: Definition, cursor: Option<Cursor>) {
    function PrimaryValue(): Result<Value> {
      if cursor.None? then Ok(Null)
      else
        var v := definition.primaryCodec.parse(cursor.value.lastValue);
        if v.Some? then Ok(v.value) else Err(Validation)
    }

    function SecondaryValue(): Result<Value> {
      if cursor.None? || !definition.HasSecondary() || cursor.value.lastSecondary.None? then Ok(Null)
      else
        var v := definition.secondaryCodec.parse(cursor.value.lastSecondary.value);
        if v.Some? then Ok(v.value) else Err(Validation)
    }

    function OrderBy(): seq<Term> {
      var direction := if order == Desc then Desc else Asc;
      [Term(definition.primaryColumn, direction)]
      + (if definition.HasSecondary() then [Term(definition.secondaryColumn, direction)] else [])
      + [Term("id", direction)]
    }

    function WhereClause(): Result<Option<(Clause, seq<Value>)>> {
      if cursor.None? then Ok(None)
      else
        var op := if order == Desc then Less else Greater;
        var first, second := definition.primaryColumn, definition.secondaryColumn;
        var primary :- PrimaryValue();
        if !definition.HasSecondary() then
          Ok(Some((Or(Compare(first, op), And(Compare(first, Equal), Compare("id", op))),
                   [primary, primary, Text(cursor.value.lastId)])))
        else
          var secondary :- SecondaryValue();
          Ok(Some((Or(Or(Compare(first, op), And(Compare(first, Equal), Compare(second, op))),
                      And(And(Compare(first, Equal), Compare(second, Equal)), Compare("id", op))),
                   [primary, primary, secondary, primary, secondary, Text(cursor.value.lastId)])))
    }

    function EncodeNextCursor(text: CursorText, primary: Value, lastId: string,
                              secondary: Option<Value>): Result<string> {
      var primaryRaw := definition.primaryCodec.serialize(primary);
      if primaryRaw.None? then Err(Validation)
      else if !definition.HasSecondary() then Ok(text.encode(Cursor(sort, order, primaryRaw.value, None, lastId)))
      else if secondary.None? then Err(Validation)
      else
        var secondaryRaw := definition.secondaryCodec.serialize(secondary.value);
        if secondaryRaw.None? then Err(Validation)
        else Ok(text.encode(Cursor(sort, order, primaryRaw.value, secondaryRaw, lastId)))
    }
  }

  function NewPlan(query: Query, definitions: map<string, SortDefinition>, text: CursorText): Result<Plan> {
    if query.sort !in definitions then Err(Validation)
    else if query.order != Asc && query.order != Desc then Err(Validation)
    else
      var plan := Plan(query.sort, query.order, definitions[query.sort].Normalized(), None);
      if query.cursor == "" then Ok(plan)
      else
        var decoded := text.decode(query.cursor);
        if decoded.None? then Err(Validation)
        else if decoded.value.sort != plan.sort || decoded.value.order != plan.order then Err(Validation)
        else
          var full := plan.(cursor := decoded);
          var _ :- full.PrimaryValue();
          if !plan.definition.HasSecondary() then Ok(full)
          else if decoded.value.lastSecondary.None? then Err(Validation)
          else
            var _ :- full.SecondaryValue();
            Ok(full)
  }

  // ---------- rows, and the meaning of clauses and orders ----------

  datatype Row = Row(id: string, columns: map<string, Value>) {
    function Column(c: string): Value {
      if c == "id" then Text(id) else if c in columns then columns[c] else Null
    }
  }

  /** A nil value is no value. */
  function NonNil(v: Value): Option<Value> {
    if v == Null then None else Some(v)
  }

  /** How the database orders the values of each column. */
  type Collation = (string, Value, Value) -> bool

  ghost predicate TotalOrders(less: Collation) {
    && (forall c, v :: !less(c, v, v))
    && (forall c, u, v, w :: less(c, u, v) && less(c, v, w) ==> less(c, u, w))
    && (forall c, u, v :: u == v || less(c, u, v) || less(c, v, u))
  }

  /** A comparison is true only of values other than NULL. */
  ghost predicate Compares(c: string, op: Op, value: Value, arg: Value, less: Collation) {
    && value != Null && arg != Null
    && match op
       case Less => less(c, value, arg)
       case Greater => less(c, arg, value)
       case Equal => value == arg
  }

  /** The clause is true of the row (neither false nor, as with NULL, unknown): clauses have no NOT, so
      AND and OR are true as in two-valued logic. Evaluation consumes the arguments from left to right. */
  ghost predicate Holds(clause: Clause, args: seq<Value>, row: Row, less: Collation)
    requires |args| == clause.Holes()
  {
    match clause
    case Compare(c, op) => Compares(c, op, row.Column(c), args[0], less)
    case And(l, r) => Holds(l, args[..l.Holes()], row, less) && Holds(r, args[l.Holes()..], row, less)
    case Or(l, r) => Holds(l, args[..l.Holes()], row, less) || Holds(r, args[l.Holes()..], row, less)
  }

  ghost predicate Precedes(t: Term, u: Value, v: Value, less: Collation) {
    if t.order == Desc then less(t.column, v, u) else less(t.column, u, v)
  }

  /** Key a strictly precedes key b in the lexicographic order of the ORDER BY terms. */
  ghost predicate KeyBefore(terms: seq<Term>, a: seq<Value>, b: seq<Value>, less: Collation)
    requires |a| == |b| == |terms|
  {
    terms != []
    && (|| Precedes(terms[0], a[0], b[0], less)
        || (a[0] == b[0] && KeyBefore(terms[1..], a[1..], b[1..], less)))
  }

  /** Comparing the keys column by column, as far as they agree, never meets a NULL. */
  ghost predicate Comparable(a: seq<Value>, b: seq<Value>)
    requires |a| == |b|
  {
    a == [] || (a[0] != Null && b[0] != Null && (a[0] == b[0] ==> Comparable(a[1..], b[1..])))
  }

  /** Key b strictly follows key a by comparisons that NULL never passes. */
  ghost predicate Follows(terms: seq<Term>, a: seq<Value>, b: seq<Value>, less: Collation)
    requires |a| == |b| == |terms|
  {
    terms != []
    && a[0] != Null && b[0] != Null
    && (|| Precedes(terms[0], a[0], b[0], less)
        || (a[0] == b[0] && Follows(terms[1..], a[1..], b[1..], less)))
  }

  /** A row's sort key: its values in the ORDER BY columns. */
  function KeyOf(terms: seq<Term>, row: Row): (key: seq<Value>)
    ensures |key| == |terms|
  {
    if terms == [] then [] else [row.Column(terms[0].column)] + KeyOf(terms[1..], row)
  }

  /** The sort key a plan's cursor stands for. */
  ghost function CursorKey(p: Plan): seq<Value>
    requires p.cursor.Some? && p.PrimaryValue().Ok? && p.SecondaryValue().Ok?
  {
    [p.PrimaryValue().value]
    + (if p.definition.HasSecondary() then [p.SecondaryValue().value] else [])
    + [Text(p.cursor.value.lastId)]
  }

  lemma {:induction false} KeyBeforeTransitive(terms: seq<Term>, a: seq<Value>, b: seq<Value>, c: seq<Value>,
                                               less: Collation)
    requires TotalOrders(less) && |a| == |b| == |c| == |terms|
    requires KeyBefore(terms, a, b, less) && KeyBefore(terms, b, c, less)
    ensures KeyBefore(terms, a, c, less)
  {
    if a[0] == b[0] == c[0] {
      if KeyBefore(terms[1..], a[1..], b[1..], less) && KeyBefore(terms[1..], b[1..], c[1..], less) {
        KeyBeforeTransitive(terms[1..], a[1..], b[1..], c[1..], less);
      }
    }
  }

  lemma {:induction false} KeyBeforeIrreflexive(terms: seq<Term>, a: seq<Value>, less: Collation)
    requires TotalOrders(less) && |a| == |terms|
    ensures !KeyBefore(terms, a, a, less)
  {
    if terms != [] {
      KeyBeforeIrreflexive(terms[1..], a[1..], less);
    }
  }

  lemma {:induction false} KeyBeforeTotal(terms: seq<Term>, a: seq<Value>, b: seq<Value>, less: Collation)
    requires TotalOrders(less) && |a| == |b| == |terms|
    ensures a == b || KeyBefore(terms, a, b, less) || KeyBefore(terms, b, a, less)
  {
    if terms == [] {
      assert a == b;
    } else {
      KeyBeforeTotal(terms[1..], a[1..], b[1..], less);
      if a[0] == b[0] && a[1..] == b[1..] {
        assert a == [a[0]] + a[1..] && b == [b[0]] + b[1..];
      }
    }
  }

  lemma {:induction false} ComparableTransitive(terms: seq<Term>, a: seq<Value>, b: seq<Value>, c: seq<Value>,
                                                less: Collation)
    requires TotalOrders(less) && |a| == |b| == |c| == |terms|
    requires KeyBefore(terms, a, b, less) && KeyBefore(terms, b, c, less)
    requires Comparable(a, b) && Comparable(b, c)
    ensures Comparable(a, c)
  {
    if a[0] == c[0] {
      assert a[0] == b[0];
      ComparableTransitive(terms[1..], a[1..], b[1..], c[1..], less);
    }
  }

  lemma {:induction false} FollowsIff(terms: seq<Term>, a: seq<Value>, b: seq<Value>, less: Collation)
    requires TotalOrders(less) && |a| == |b| == |terms|
    ensures Follows(terms, a, b, less) <==> KeyBefore(terms, a, b, less) && Comparable(a, b)
  {
    if terms != [] {
      FollowsIff(terms[1..], a[1..], b[1..], less);
    }
  }

  lemma {:induction false} NullFreeComparable(a: seq<Value>, b: seq<Value>)
    requires |a| == |b| && Null !in a && Null !in b
    ensures Comparable(a, b)
  {
    if a != [] {
      NullFreeComparable(a[1..], b[1..]);
    }
  }

  // ---------- the three agree ----------

  /** An accepted plan with a cursor: the values parse, so WhereClause never fails. */
  ghost predicate Resumed(p: Plan) {
    && p.cursor.Some? && (p.order == Asc || p.order == Desc)
    && p.PrimaryValue().Ok? && p.SecondaryValue().Ok?
  }

  /** The columns, codecs and terms an accepted plan has from its definition. */
  ghost predicate PlanOf(p: Plan, query: Query, d: SortDefinition) {
    && p.sort == query.sort && p.order == query.order && (query.order == Asc || query.order == Desc)
    && p.definition.primaryColumn == d.primaryColumn && p.definition.secondaryColumn == d.secondaryColumn
    && p.definition.primaryCodec == (if d.primaryCodec.Some? then d.primaryCodec.value else STRING_CODEC)
    && p.definition.secondaryCodec == (if d.secondaryCodec.Some? then d.secondaryCodec.value else STRING_CODEC)
    && p.OrderBy() == (if d.secondaryColumn == "" then [Term(d.primaryColumn, query.order), Term("id", query.order)]
                       else [Term(d.primaryColumn, query.order), Term(d.secondaryColumn, query.order),
                             Term("id", query.order)])
  }

  /** The cursor belongs to this listing, and its values parse. */
  ghost predicate FittingCursor(c: Cursor, query: Query, d: Definition) {
    && c.sort == query.sort && c.order == query.order
    && d.primaryCodec.parse(c.lastValue).Some?
    && (d.HasSecondary() ==> c.lastSecondary.Some? && d.secondaryCodec.parse(c.lastSecondary.value).Some?)
  }

  /** Exactly which queries are accepted; all others are invalid. */
  lemma AcceptedIff(query: Query, definitions: map<string, SortDefinition>, text: CursorText)
    ensures NewPlan(query, definitions, text).Ok? <==>
            && query.sort in definitions && (query.order == Asc || query.order == Desc)
            && (query.cursor != "" ==>
                  && text.decode(query.cursor).Some?
                  && FittingCursor(text.decode(query.cursor).value, query, definitions[query.sort].Normalized()))
    ensures NewPlan(query, definitions, text).Err? ==> NewPlan(query, definitions, text).code == Validation
  {
  }

  lemma AcceptedPlan(query: Query, definitions: map<string, SortDefinition>, text: CursorText)
    requires NewPlan(query, definitions, text).Ok?
    ensures var p := NewPlan(query, definitions, text).value;
            && query.sort in definitions && p.definition == definitions[query.sort].Normalized()
            && p.sort == query.sort && p.order == query.order
            && p.WhereClause().Ok?
            && (forall i :: 0 <= i < |p.OrderBy()| ==> p.OrderBy()[i].order == query.order)
            && (query.cursor == "" ==> p.cursor.None? && p.WhereClause() == Ok(None))
            && (query.cursor != "" ==> Resumed(p) && p.cursor == text.decode(query.cursor))
  {
  }

  lemma PlanFollowsDefinition(query: Query, definitions: map<string, SortDefinition>, text: CursorText)
    requires NewPlan(query, definitions, text).Ok?
    ensures PlanOf(NewPlan(query, definitions, text).value, query, definitions[query.sort])
  {
  }

  /** Exactly from which values a cursor can be made. */
  lemma EncodesIff(p: Plan, text: CursorText, primary: Value, lastId: string, secondary: Option<Value>)
    ensures p.EncodeNextCursor(text, primary, lastId, secondary).Ok? <==>
            && p.definition.primaryCodec.serialize(primary).Some?
            && (p.definition.HasSecondary() ==>
                  secondary.Some? && p.definition.secondaryCodec.serialize(secondary.value).Some?)
    ensures p.EncodeNextCursor(text, primary, lastId, secondary).Err? ==>
              p.EncodeNextCursor(text, primary, lastId, secondary).code == Validation
  {
  }

  /** The clause has one placeholder per argument, and holds of a row exactly when the row comes strictly
      after the cursor in the order of OrderBy - ascending or descending, with or without a secondary
      column - and no NULL stands in the columns that decide so. */
  lemma WhereIsAfterCursor(p: Plan, row: Row, less: Collation)
    requires Resumed(p) && TotalOrders(less)
    ensures p.WhereClause().Ok? && p.WhereClause().value.Some?
    ensures var (clause, args) := p.WhereClause().value.value;
            && |args| == clause.Holes()
            && |CursorKey(p)| == |p.OrderBy()|
            && (Holds(clause, args, row, less) <==>
                  && KeyBefore(p.OrderBy(), CursorKey(p), KeyOf(p.OrderBy(), row), less)
                  && Comparable(CursorKey(p), KeyOf(p.OrderBy(), row)))
  {
    FollowsIff(p.OrderBy(), CursorKey(p), KeyOf(p.OrderBy(), row), less);
    if p.definition.HasSecondary() {
      WhereWithSecondary(p, row, less);
    } else {
      WhereWithoutSecondary(p, row, less);
    }
  }

  lemma KeyOfTerms(p: Plan, row: Row)
    ensures var terms := p.OrderBy();
            KeyOf(terms, row) == if p.definition.HasSecondary()
                                 then [row.Column(terms[0].column), row.Column(terms[1].column),
                                       row.Column(terms[2].column)]
                                 else [row.Column(terms[0].column), row.Column(terms[1].column)]
  {
    var terms := p.OrderBy();
    if p.definition.HasSecondary() {
      assert terms[1..] == [terms[1], terms[2]] && [terms[1], terms[2]][1..] == [terms[2]] && [terms[2]][1..] == [];
      assert KeyOf(terms, row) == [row.Column(terms[0].column)] + KeyOf([terms[1], terms[2]], row);
      assert KeyOf([terms[1], terms[2]], row) == [row.Column(terms[1].column)] + KeyOf([terms[2]], row);
    } else {
      assert terms[1..] == [terms[1]] && [terms[1]][1..] == [];
      assert KeyOf(terms, row) == [row.Column(terms[0].column)] + KeyOf([terms[1]], row);
    }
  }

  lemma WhereWithoutSecondary(p: Plan, row: Row, less: Collation)
    requires Resumed(p) && !p.definition.HasSecondary()
    ensures p.WhereClause().Ok? && p.WhereClause().value.Some?
    ensures var (clause, args) := p.WhereClause().value.value;
            && |args| == clause.Holes()
            && |CursorKey(p)| == |p.OrderBy()|
            && (Holds(clause, args, row, less) <==> Follows(p.OrderBy(), CursorKey(p), KeyOf(p.OrderBy(), row), less))
  {
    var terms, cursor, key := p.OrderBy(), CursorKey(p), KeyOf(p.OrderBy(), row);
    var t0, t1 := terms[0], terms[1];
    assert terms == [t0, t1];
    assert terms[1..] == [t1] && terms[1..][1..] == [];
    KeyOfTerms(p, row);
    assert Follows(terms[1..], cursor[1..], key[1..], less) <==> Precedes(t1, cursor[1], key[1], less);
    var (clause, args) := p.WhereClause().value.value;
    assert args[1..][..1] == [args[1]] && args[1..][1..] == [args[2]];
    assert Holds(clause.right, args[1..], row, less)
      <==> Holds(clause.right.left, [args[1]], row, less) && Holds(clause.right.right, [args[2]], row, less);
  }

  lemma WhereWithSecondary(p: Plan, row: Row, less: Collation)
    requires Resumed(p) && p.definition.HasSecondary()
    ensures p.WhereClause().Ok? && p.WhereClause().value.Some?
    ensures var (clause, args) := p.WhereClause().value.value;
            && |args| == clause.Holes()
            && |CursorKey(p)| == |p.OrderBy()|
            && (Holds(clause, args, row, less) <==> Follows(p.OrderBy(), CursorKey(p), KeyOf(p.OrderBy(), row), less))
  {
    var terms, cursor, key := p.OrderBy(), CursorKey(p), KeyOf(p.OrderBy(), row);
    var t0, t1, t2 := terms[0], terms[1], terms[2];
    assert terms == [t0, t1, t2];
    assert terms[1..] == [t1, t2] && [t1, t2][1..] == [t2] && [t2][1..] == [];
    KeyOfTerms(p, row);
    var a, b := cursor[1..], key[1..];
    assert Follows([t1, t2][1..], a[1..], b[1..], less) <==> Precedes(t2, a[1], b[1], less);
    assert Follows([t1, t2], a, b, less)
      <==> a[0] != Null && b[0] != Null
           && (Precedes(t1, a[0], b[0], less)
             || (a[0] == b[0] && b[1] != Null && a[1] != Null && Precedes(t2, a[1], b[1], less)));
    SplitClause(p, row, less);
  }

  /** The six arguments go to the six comparisons in turn. */
  lemma SplitClause(p: Plan, row: Row, less: Collation)
    requires Resumed(p) && p.definition.HasSecondary()
    ensures var (clause, args) := p.WhereClause().value.value;
            var terms, cursor := p.OrderBy(), CursorKey(p);
            var first, second := row.Column(terms[0].column), row.Column(terms[1].column);
            && |args| == clause.Holes()
            && (Holds(clause, args, row, less) <==>
                  && first != Null && cursor[0] != Null
                  && (|| Precedes(terms[0], cursor[0], first, less)
                      || (&& first == cursor[0] && second != Null && cursor[1] != Null
                          && (|| Precedes(terms[1], cursor[1], second, less)
                              || (second == cursor[1]
                                && Precedes(terms[2], cursor[2], row.Column(terms[2].column), less))))))
  {
    var (clause, args) := p.WhereClause().value.value;
    assert clause.left.right.Holes() == 2 && clause.right.left.Holes() == 2;
    assert args[..3] == [args[0], args[1], args[2]] && args[3..] == [args[3], args[4], args[5]];
    LeadingColumns(clause.left, args[0], args[1], args[2], row, less);
    TiedColumns(clause.right, args[3], args[4], args[5], row, less);
  }

  lemma LeadingColumns(c: Clause, x: Value, y: Value, z: Value, row: Row, less: Collation)
    requires c.Or? && c.left.Compare? && c.right.And? && c.right.left.Compare? && c.right.right.Compare?
    ensures c.Holes() == 3
    ensures Holds(c, [x, y, z], row, less) <==>
            || Compares(c.left.column, c.left.op, row.Column(c.left.column), x, less)
            || (&& Compares(c.right.left.column, c.right.left.op, row.Column(c.right.left.column), y, less)
                && Compares(c.right.right.column, c.right.right.op, row.Column(c.right.right.column), z, less))
  {
    assert c.right.Holes() == 2;
    assert [x, y, z][..1] == [x] && [x, y, z][1..] == [y, z] && [y, z][..1] == [y] && [y, z][1..] == [z];
    assert Holds(c, [x, y, z], row, less) <==> Holds(c.left, [x], row, less) || Holds(c.right, [y, z], row, less);
    assert Holds(c.right, [y, z], row, less) <==>
        Holds(c.right.left, [y], row, less) && Holds(c.right.right, [z], row, less);
  }

  lemma TiedColumns(c: Clause, x: Value, y: Value, z: Value, row: Row, less: Collation)
    requires c.And? && c.left.And? && c.left.left.Compare? && c.left.right.Compare? && c.right.Compare?
    ensures c.Holes() == 3
    ensures Holds(c, [x, y, z], row, less) <==>
            && Compares(c.left.left.column, c.left.left.op, row.Column(c.left.left.column), x, less)
            && Compares(c.left.right.column, c.left.right.op, row.Column(c.left.right.column), y, less)
            && Compares(c.right.column, c.right.op, row.Column(c.right.column), z, less)
  {
    assert c.left.Holes() == 2;
    assert [x, y, z][..2] == [x, y] && [x, y, z][2..] == [z] && [x, y][..1] == [x] && [x, y][1..] == [y];
    assert Holds(c, [x, y, z], row, less) <==> Holds(c.left, [x, y], row, less) && Holds(c.right, [z], row, less);
    assert Holds(c.left, [x, y], row, less) <==>
        Holds(c.left.left, [x], row, less) && Holds(c.left.right, [y], row, less);
  }

  /** With no NULL in the cursor, what a row must not have NULL is its primary column and, where that
      agrees with the cursor, its secondary column. */
  lemma WhereByColumns(p: Plan, row: Row, less: Collation)
    requires Resumed(p) && TotalOrders(less) && Null !in CursorKey(p)
    ensures p.WhereClause().Ok? && p.WhereClause().value.Some?
    ensures var (clause, args) := p.WhereClause().value.value;
            var first, second := row.Column(p.definition.primaryColumn), row.Column(p.definition.secondaryColumn);
            && |args| == clause.Holes()
            && |CursorKey(p)| == |p.OrderBy()|
            && (Holds(clause, args, row, less) <==>
                  && KeyBefore(p.OrderBy(), CursorKey(p), KeyOf(p.OrderBy(), row), less)
                  && first != Null
                  && (p.definition.HasSecondary() && first == CursorKey(p)[0] ==> second != Null))
  {
    WhereIsAfterCursor(p, row, less);
    KeyOfTerms(p, row);
    var cursor, key := CursorKey(p), KeyOf(p.OrderBy(), row);
    assert Comparable(cursor[1..], key[1..]) <==>
        key[1] != Null && (cursor[1] == key[1] ==> Comparable(cursor[1..][1..], key[1..][1..]));
    if p.definition.HasSecondary() {
      assert cursor[1..][1..] == [cursor[2]] && key[1..][1..] == [key[2]];
      assert Comparable([cursor[2]], [key[2]]) by {
        assert [cursor[2]][1..] == [] && [key[2]][1..] == [];
      }
    } else {
      assert cursor[1..][1..] == [] && key[1..][1..] == [];
    }
  }

  // ---------- cursor round trip ----------

  lemma StringCodecLossless()
    ensures Lossless(STRING_CODEC) && RefusesNull(STRING_CODEC)
  {
  }

  /** A cursor encoded for a row is accepted by NewPlan under the same sort and order, and stands for
      exactly that row's sort key. */
  lemma CursorRoundTrip(p: Plan, query: Query, definitions: map<string, SortDefinition>, text: CursorText, last: Row,
                        encoded: string)
    requires LosslessText(text) && Lossless(p.definition.primaryCodec) && Lossless(p.definition.secondaryCodec)
    requires query.sort in definitions && p.sort == query.sort && p.order == query.order
    requires p.definition == definitions[query.sort].Normalized() && (p.order == Asc || p.order == Desc)
    requires p.EncodeNextCursor(text, last.Column(p.definition.primaryColumn), last.id,
                                NonNil(last.Column(p.definition.secondaryColumn))) == Ok(encoded)
    ensures encoded != "" && NewPlan(query.(cursor := encoded), definitions, text).Ok?
    ensures var next := NewPlan(query.(cursor := encoded), definitions, text).value;
            && Resumed(next) && next.sort == p.sort && next.order == p.order && next.definition == p.definition
            && CursorKey(next) == KeyOf(p.OrderBy(), last)
  {
    KeyOfTerms(p, last);
  }
}
