/**
 Keyset pagination over an indexed relation
 (packages/indexing/src/insertion-order.ts). Stream ids, timestamps and field values are
 represented by their position in the database's order.
 */
module InsertionOrder {
  import opened Wrappers
  import opened Knex

  datatype Row = Row(id: int, createdAt: int, content: map<string, int>)

  datatype SortOrder = ASC | DESC

  function ReverseOrder(order: SortOrder): SortOrder {
    match order case ASC => DESC case DESC => ASC
  }

  datatype SortKey = SortKey(key: string, order: SortOrder)

  /** The sort keys of a query in their order; their names are distinct. */
  type Sorting = seq<SortKey>

  datatype CursorField = CursorField(key: string, value: int)

  datatype Cursor = TimestampCursor(id: int, value: int) | ContentCursor(id: int, values: seq<CursorField>)

  // ---------------------------------------------------------------- queries and the database

  datatype Sign = Greater | Less | Equal

  datatype Atom =
    | CreatedAtAtom(sign: Sign, value: int)
    | IdAtom(sign: Sign, value: int)
    | FieldAtom(key: string, sign: Sign, value: int)

  predicate Compares(a: int, sign: Sign, b: int) {
    match sign case Greater => a > b case Less => a < b case Equal => a == b
  }

  function AtomTruth(row: Row, atom: Atom): Truth {
    match atom
    case CreatedAtAtom(sign, v) => if Compares(row.createdAt, sign, v) then Yes else No
    case IdAtom(sign, v) => if Compares(row.id, sign, v) then Yes else No
    case FieldAtom(key, sign, v) =>
      if key !in row.content then Unknown else if Compares(row.content[key], sign, v) then Yes else No
  }

  function Reads(row: Row): Reading<Atom> {
    atom => AtomTruth(row, atom)
  }

  datatype OrderTerm = ByCreatedAt(order: SortOrder) | ByField(key: string, order: SortOrder) | ById(order: SortOrder)

  datatype Query = Query(where: Builder<Atom>, orderBy: seq<OrderTerm>)

  predicate Selects(b: Builder<Atom>, row: Row) {
    var t := Eval(Reads(row), b);
    t.None? || t.value.Yes?
  }

  /** What a row is ordered by; NULL when it lacks the field. */
  function Rank(term: OrderTerm, row: Row): Option<int> {
    match term
    case ByCreatedAt(_) => Some(row.createdAt)
    case ByField(key, _) => if key in row.content then Some(row.content[key]) else None
    case ById(_) => Some(row.id)
  }

  /** NULL sorts above every value. */
  predicate Below(x: Option<int>, y: Option<int>) {
    x.Some? && (y.None? || x.value < y.value)
  }

  /** `a` comes strictly before `b`: lexicographic over the order terms. */
  predicate Precedes(terms: seq<OrderTerm>, a: Row, b: Row) {
    && terms != []
    && var x, y := Rank(terms[0], a), Rank(terms[0], b);
       if x == y then Precedes(terms[1..], a, b)
       else if terms[0].order.ASC? then Below(x, y) else Below(y, x)
  }

  function Filter(b: Builder<Atom>, rows: seq<Row>): seq<Row> {
    if rows == [] then [] else (if Selects(b, rows[0]) then [rows[0]] else []) + Filter(b, rows[1..])
  }

  function Insert(terms: seq<OrderTerm>, row: Row, sorted: seq<Row>): seq<Row> {
    if sorted == [] || Precedes(terms, row, sorted[0]) then [row] + sorted
    else [sorted[0]] + Insert(terms, row, sorted[1..])
  }

  function Sort(terms: seq<OrderTerm>, rows: seq<Row>): seq<Row> {
    if rows == [] then [] else Insert(terms, rows[0], Sort(terms, rows[1..]))
  }

  function Take<T>(s: seq<T>, n: nat): seq<T> {
    if |s| <= n then s else s[..n]
  }

  /** The answer of the database to `select ... where ... order by ... limit`. */
  function Select(rows: seq<Row>, query: Query, limit: nat): seq<Row> {
    Take(Sort(query.orderBy, Filter(query.where, rows)), limit)
  }

  // ---------------------------------------------------------------- building the query

  function GetComparisonSign(order: SortOrder, reverse: bool): Sign {
    if order.ASC? then (if reverse then Less else Greater) else if reverse then Greater else Less
  }

  function OrderOf(sorting: Sorting, key: string): SortOrder {
    if sorting == [] then ASC else if sorting[0].key == key then sorting[0].order else OrderOf(sorting[1..], key)
  }

  /** Strict next value, or current value with stream ID tie-breaker. */
  function AfterGroup(qb: Builder<Atom>, strictly: Atom, same: Atom, id: int): Builder<Atom> {
    WhereRaw(OrWhereRaw(WhereRaw(qb, strictly), same), IdAtom(Greater, id))
  }

  /** `strictly OR same AND stream_id > id`, in one group. */
  function AfterClause(strictly: Atom, same: Atom, id: int): Clause<Atom> {
    Clause(And, false, Group(AfterGroup([], strictly, same, id)))
  }

  function FieldClause(id: int, field: CursorField, isReverseOrder: bool, sorting: Sorting): Clause<Atom> {
    AfterClause(FieldAtom(field.key, GetComparisonSign(OrderOf(sorting, field.key), isReverseOrder), field.value),
                FieldAtom(field.key, Equal, field.value), id)
  }

  /** The conditions that `applyCursor` adds. */
  function CursorClauses(cursor: Cursor, isReverseOrder: bool, sorting: Sorting): Builder<Atom> {
    match cursor
    case TimestampCursor(id, value) =>
      [AfterClause(CreatedAtAtom(if isReverseOrder then Less else Greater, value), CreatedAtAtom(Equal, value), id)]
    case ContentCursor(id, values) =>
      seq(|values|, k requires 0 <= k < |values| => FieldClause(id, values[k], isReverseOrder, sorting))
  }

  /** The terms that `applySorting` orders by. */
  function OrderTerms(isReverseOrder: bool, sorting: Sorting): seq<OrderTerm> {
    (if sorting == [] then [ByCreatedAt(if isReverseOrder then DESC else ASC)]
     else seq(|sorting|, k requires 0 <= k < |sorting| =>
            ByField(sorting[k].key, if isReverseOrder then ReverseOrder(sorting[k].order) else sorting[k].order)))
    + [ById(ASC)]
  }

  function BuiltQuery(isReverseOrder: bool, cursor: Option<Cursor>, sorting: Sorting): Query {
    Query(if cursor.None? then [] else CursorClauses(cursor.value, isReverseOrder, sorting),
          OrderTerms(isReverseOrder, sorting))
  }

  method ApplyCursor(builder: Query, cursor: Cursor, isReverseOrder: bool, sorting: Sorting) returns (r: Query)
    ensures r == builder.(where := builder.where + CursorClauses(cursor, isReverseOrder, sorting))
  {
    r := builder;
    match cursor {
      case TimestampCursor(id, value) =>
        var sign := if isReverseOrder then Less else Greater;
        var after := qb => AfterGroup(qb, CreatedAtAtom(sign, value), CreatedAtAtom(Equal, value), id);
        r := r.(where := Where(r.where, after));
      case ContentCursor(id, values) =>
        ghost var clauses := CursorClauses(cursor, isReverseOrder, sorting);
        assert builder.where + clauses[..0] == builder.where;
        for k := 0 to |values|
          invariant r == builder.(where := builder.where + clauses[..k])
        {
          r := ApplyCursorField(r, id, values[k], isReverseOrder, sorting);
          assert builder.where + clauses[..k + 1] == builder.where + clauses[..k] + [clauses[k]];
        }
        assert clauses[..|values|] == clauses;
    }
  }

  method ApplyCursorField(builder: Query, id: int, field: CursorField, isReverseOrder: bool, sorting: Sorting)
    returns (r: Query)
    ensures r == builder.(where := builder.where + [FieldClause(id, field, isReverseOrder, sorting)])
  {
    var sign := GetComparisonSign(OrderOf(sorting, field.key), isReverseOrder);
    r := builder.(where := Where(builder.where,
      qb => AfterGroup(qb, FieldAtom(field.key, sign, field.value), FieldAtom(field.key, Equal, field.value), id)));
  }

  method ApplySorting(builder: Query, isReverseOrder: bool, sorting: Sorting) returns (r: Query)
    ensures r == builder.(orderBy := builder.orderBy + OrderTerms(isReverseOrder, sorting))
  {
    r := builder;
    ghost var terms := OrderTerms(isReverseOrder, sorting);
    if sorting == [] {
      r := r.(orderBy := r.orderBy + [ByCreatedAt(if isReverseOrder then DESC else ASC)]);
    } else {
      for k := 0 to |sorting|
        invariant r == builder.(orderBy := builder.orderBy + terms[..k])
      {
        var order := sorting[k].order;
        var actual := if isReverseOrder then ReverseOrder(order) else order;
        r := r.(orderBy := r.orderBy + [ByField(sorting[k].key, actual)]);
        assert terms[..k + 1] == terms[..k] + [terms[k]];
      }
    }
    r := r.(orderBy := r.orderBy + [ById(ASC)]);
    assert terms == terms[..|terms| - 1] + [ById(ASC)];
  }

  method MakeQuery(isReverseOrder: bool, cursor: Option<Cursor>, sorting: Sorting) returns (builder: Query)
    ensures builder == BuiltQuery(isReverseOrder, cursor, sorting)
  {
    builder := Query([], []);
    if cursor.Some? {
      builder := ApplyCursor(builder, cursor.value, isReverseOrder, sorting);
    }
    builder := ApplySorting(builder, isReverseOrder, sorting);
  }

  // ---------------------------------------------------------------- pages

  function CursorFields(row: Row, sorting: Sorting): seq<CursorField> {
    if sorting == [] then [] else
    var key := sorting[0].key;
    (if key in row.content then [CursorField(key, row.content[key])] else []) + CursorFields(row, sorting[1..])
  }

  /** `Cursor.stringify`, up to its encoding: null fields are left out. */
  function CursorOf(row: Row, sorting: Sorting): Cursor {
    if sorting == [] then TimestampCursor(row.id, row.createdAt) else ContentCursor(row.id, CursorFields(row, sorting))
  }

  function CursorOfFirst(entries: seq<Row>, sorting: Sorting): Option<Cursor> {
    if entries == [] then None else Some(CursorOf(entries[0], sorting))
  }

  function CursorOfLast(entries: seq<Row>, sorting: Sorting): Option<Cursor> {
    if entries == [] then None else Some(CursorOf(entries[|entries| - 1], sorting))
  }

  /** The rows of a page, each with its own cursor. */
  datatype Page = Page(entries: seq<Row>, cursors: seq<Cursor>, hasNextPage: bool, hasPreviousPage: bool,
                       startCursor: Option<Cursor>, endCursor: Option<Cursor>)

  function CursorsOf(entries: seq<Row>, sorting: Sorting): (r: seq<Cursor>)
    ensures |r| == |entries| && forall k :: 0 <= k < |r| ==> r[k] == CursorOf(entries[k], sorting)
  {
    seq(|entries|, k requires 0 <= k < |entries| => CursorOf(entries[k], sorting))
  }

  function Reverse<T>(s: seq<T>): seq<T> {
    seq(|s|, k requires 0 <= k < |s| => s[|s| - 1 - k])
  }

  /** The rows a query from a cursor would return without a limit. */
  function Remaining(rows: seq<Row>, isReverseOrder: bool, cursor: Option<Cursor>, sorting: Sorting): seq<Row> {
    var query := BuiltQuery(isReverseOrder, cursor, sorting);
    Sort(query.orderBy, Filter(query.where, rows))
  }

  method ForwardPage(rows: seq<Row>, sorting: Sorting, first: nat, after: Option<Cursor>) returns (page: Page)
    ensures var rest := Remaining(rows, false, after, sorting);
      && page.entries == Take(rest, first)
      && (page.hasNextPage <==> |rest| > first) && !page.hasPreviousPage
    ensures page.cursors == CursorsOf(page.entries, sorting)
    ensures page.endCursor == CursorOfLast(page.entries, sorting)
    ensures page.startCursor == CursorOfFirst(page.entries, sorting)
  {
    var query := MakeQuery(false, after, sorting);
    var response := Select(rows, query, first + 1);
    var entries := Take(response, first);
    page := Page(entries, CursorsOf(entries, sorting), |response| > first, false,
                 CursorOfFirst(entries, sorting), CursorOfLast(entries, sorting));
  }

  method ReverseInPlace(a: array<Row>)
    modifies a
    ensures a[..] == Reverse(old(a[..]))
  {
    for i := 0 to a.Length / 2
      invariant forall k :: 0 <= k < i ==> a[k] == old(a[a.Length - 1 - k]) && a[a.Length - 1 - k] == old(a[k])
      invariant forall k :: i <= k < a.Length - i ==> a[k] == old(a[k])
    {
      a[i], a[a.Length - 1 - i] := a[a.Length - 1 - i], a[i];
    }
  }

  method BackwardQuery(rows: seq<Row>, sorting: Sorting, last: nat, before: Option<Cursor>)
    returns (response: array<Row>)
    ensures fresh(response)
    ensures response[..] == Reverse(Take(Remaining(rows, true, before, sorting), last + 1))
  {
    var query := MakeQuery(true, before, sorting);
    var selected := Select(rows, query, last + 1);
    response := new Row[|selected|](k requires 0 <= k < |selected| => selected[k]);
    assert response[..] == selected;
    ReverseInPlace(response);
  }

  lemma SliceOfReverse<T>(rest: seq<T>, last: nat)
    ensures var response := Reverse(Take(rest, last + 1));
      (if |response| <= last then response else response[|response| - last..]) == Reverse(Take(rest, last))
  {
  }

  method BackwardPage(rows: seq<Row>, sorting: Sorting, last: nat, before: Option<Cursor>) returns (page: Page)
    ensures var rest := Remaining(rows, true, before, sorting);
      && page.entries == Reverse(Take(rest, last))
      && (page.hasPreviousPage <==> |rest| > last) && !page.hasNextPage
    ensures page.cursors == CursorsOf(page.entries, sorting)
    ensures page.endCursor == CursorOfLast(page.entries, sorting)
    ensures page.startCursor == CursorOfFirst(page.entries, sorting)
  {
    var response := BackwardQuery(rows, sorting, last, before);
    SliceOfReverse(Remaining(rows, true, before, sorting), last);
    // slice(-limit): the last `limit` elements
    var entries := if response.Length <= last then response[..] else response[..][response.Length - last..];
    page := Page(entries, CursorsOf(entries, sorting), false, response.Length > last,
                 CursorOfFirst(entries, sorting), CursorOfLast(entries, sorting));
  }
}
