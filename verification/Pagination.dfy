/**
 Following cursors reads the whole filtered relation, every row once and in order, in both
 directions.
 */
module Pagination {
  import opened Wrappers
  import opened Knex
  import opened InsertionOrder

  ghost predicate UniqueIds(rows: seq<Row>) {
    forall i, j :: 0 <= i < j < |rows| ==> rows[i].id != rows[j].id
  }

  ghost predicate StrictlySorted(terms: seq<OrderTerm>, s: seq<Row>) {
    forall i, j :: 0 <= i < j < |s| ==> Precedes(terms, s[i], s[j])
  }

  /** Insertion order, or one custom key that no row leaves null. */
  ghost predicate Simple(sorting: Sorting, rows: seq<Row>) {
    |sorting| <= 1 && AllPresent(sorting, rows)
  }

  ghost predicate AllPresent(sorting: Sorting, rows: seq<Row>) {
    forall k, i :: 0 <= k < |sorting| && 0 <= i < |rows| ==> sorting[k].key in rows[i].content
  }

  // ---------------------------------------------------------------- the order is total

  lemma {:induction false} PrecedesTransitive(terms: seq<OrderTerm>, a: Row, b: Row, c: Row)
    requires Precedes(terms, a, b) && Precedes(terms, b, c)
    ensures Precedes(terms, a, c)
  {
    if Rank(terms[0], a) == Rank(terms[0], b) == Rank(terms[0], c) {
      PrecedesTransitive(terms[1..], a, b, c);
    }
  }

  lemma {:induction false} PrecedesIrreflexive(terms: seq<OrderTerm>, a: Row)
    ensures !Precedes(terms, a, a)
  {
    if terms != [] {
      PrecedesIrreflexive(terms[1..], a);
    }
  }

  lemma {:induction false} PrecedesTotal(terms: seq<OrderTerm>, a: Row, b: Row)
    requires terms != [] && terms[|terms| - 1].ById? && a.id != b.id
    ensures Precedes(terms, a, b) || Precedes(terms, b, a)
  {
    if Rank(terms[0], a) == Rank(terms[0], b) {
      PrecedesTotal(terms[1..], a, b);
    }
  }

  // ---------------------------------------------------------------- what the order is

  function ValueOf(row: Row, key: string): Option<int> {
    if key in row.content then Some(row.content[key]) else None
  }

  /** From the lower value to the higher one, or the other way round; NULL is higher than every value. */
  predicate Rises(x: Option<int>, y: Option<int>, downwards: bool) {
    if downwards then y.Some? && (x.None? || x.value > y.value) else x.Some? && (y.None? || x.value < y.value)
  }

  /** The first sort key in which two rows differ decides; rows that agree in all come by ascending stream id. */
  predicate FirstKeyDecides(sorting: Sorting, a: Row, b: Row, isReverseOrder: bool) {
    if sorting == [] then a.id < b.id
    else if ValueOf(a, sorting[0].key) == ValueOf(b, sorting[0].key) then
      FirstKeyDecides(sorting[1..], a, b, isReverseOrder)
    else Rises(ValueOf(a, sorting[0].key), ValueOf(b, sorting[0].key), sorting[0].order.DESC? != isReverseOrder)
  }

  /** Without sort keys: from the oldest row to the newest, or the other way round, by ascending stream id on a tie. */
  predicate InsertedFirst(a: Row, b: Row, isReverseOrder: bool) {
    if a.createdAt == b.createdAt then a.id < b.id
    else if isReverseOrder then a.createdAt > b.createdAt
    else a.createdAt < b.createdAt
  }

  /** Do the rows come in this order? */
  ghost predicate Ordered(sorting: Sorting, s: seq<Row>, isReverseOrder: bool) {
    forall i, j :: 0 <= i < j < |s| ==>
      if sorting == [] then InsertedFirst(s[i], s[j], isReverseOrder)
      else FirstKeyDecides(sorting, s[i], s[j], isReverseOrder)
  }

  function KeyTerms(sorting: Sorting, isReverseOrder: bool): seq<OrderTerm> {
    seq(|sorting|, k requires 0 <= k < |sorting| =>
      ByField(sorting[k].key, if isReverseOrder then ReverseOrder(sorting[k].order) else sorting[k].order))
    + [ById(ASC)]
  }

  lemma {:induction false} KeyTermsDecide(sorting: Sorting, a: Row, b: Row, isReverseOrder: bool)
    ensures Precedes(KeyTerms(sorting, isReverseOrder), a, b) <==> FirstKeyDecides(sorting, a, b, isReverseOrder)
  {
    var terms := KeyTerms(sorting, isReverseOrder);
    if sorting == [] {
      assert terms == [ById(ASC)] && terms[1..] == [];
    } else {
      assert terms[1..] == KeyTerms(sorting[1..], isReverseOrder);
      KeyTermsDecide(sorting[1..], a, b, isReverseOrder);
    }
  }

  /** A listing sorted by the terms of the query is in the order that the sort keys ask for. */
  lemma SortedIsOrdered(sorting: Sorting, s: seq<Row>, isReverseOrder: bool)
    ensures StrictlySorted(OrderTerms(isReverseOrder, sorting), s) <==> Ordered(sorting, s, isReverseOrder)
  {
    var terms := OrderTerms(isReverseOrder, sorting);
    forall i, j | 0 <= i < j < |s|
      ensures Precedes(terms, s[i], s[j]) <==>
        if sorting == [] then InsertedFirst(s[i], s[j], isReverseOrder)
        else FirstKeyDecides(sorting, s[i], s[j], isReverseOrder)
    {
      if sorting == [] {
        assert terms[1..] == KeyTerms([], isReverseOrder) && terms[0].ByCreatedAt?;
        KeyTermsDecide([], s[i], s[j], isReverseOrder);
      } else {
        assert terms == KeyTerms(sorting, isReverseOrder);
        KeyTermsDecide(sorting, s[i], s[j], isReverseOrder);
      }
    }
  }

  // ---------------------------------------------------------------- sorting

  lemma SameElements<T>(s: seq<T>, t: seq<T>)
    requires multiset(s) == multiset(t)
    ensures |s| == |t| && forall x :: x in s <==> x in t
  {
    assert |multiset(s)| == |s| && |multiset(t)| == |t|;
    assert forall x :: x in s <==> x in multiset(s);
    assert forall x :: x in t <==> x in multiset(t);
  }

  lemma HeadThenSorted(terms: seq<OrderTerm>, head: Row, rest: seq<Row>)
    requires StrictlySorted(terms, rest) && forall x :: x in rest ==> Precedes(terms, head, x)
    ensures StrictlySorted(terms, [head] + rest)
  {
  }

  lemma {:induction false} InsertSorts(terms: seq<OrderTerm>, row: Row, s: seq<Row>)
    requires terms != [] && terms[|terms| - 1].ById?
    requires StrictlySorted(terms, s) && forall i :: 0 <= i < |s| ==> s[i].id != row.id
    ensures StrictlySorted(terms, Insert(terms, row, s))
    ensures multiset(Insert(terms, row, s)) == multiset{row} + multiset(s)
  {
    if s == [] || Precedes(terms, row, s[0]) {
      forall i | 0 <= i < |s| ensures Precedes(terms, row, s[i]) {
        if i > 0 {
          PrecedesTransitive(terms, row, s[0], s[i]);
        }
      }
      HeadThenSorted(terms, row, s);
    } else {
      var rest := Insert(terms, row, s[1..]);
      InsertSorts(terms, row, s[1..]);
      PrecedesTotal(terms, s[0], row);
      assert s == [s[0]] + s[1..];
      SameElements(rest, [row] + s[1..]);
      HeadThenSorted(terms, s[0], rest);
    }
  }

  lemma {:induction false} SortSorts(terms: seq<OrderTerm>, rows: seq<Row>)
    requires terms != [] && terms[|terms| - 1].ById? && UniqueIds(rows)
    ensures StrictlySorted(terms, Sort(terms, rows))
    ensures multiset(Sort(terms, rows)) == multiset(rows)
    ensures |Sort(terms, rows)| == |rows|
    ensures forall x :: x in Sort(terms, rows) <==> x in rows
  {
    if rows != [] {
      var rest := Sort(terms, rows[1..]);
      SortSorts(terms, rows[1..]);
      forall i | 0 <= i < |rest| ensures rest[i].id != rows[0].id {
        assert rest[i] in rows[1..];
      }
      InsertSorts(terms, rows[0], rest);
      assert rows == [rows[0]] + rows[1..];
    }
    SameElements(Sort(terms, rows), rows);
  }

  /** A strictly sorted listing is determined by the rows in it. */
  lemma {:induction false} SortedIsUnique(terms: seq<OrderTerm>, s: seq<Row>, t: seq<Row>)
    requires StrictlySorted(terms, s) && StrictlySorted(terms, t)
    requires forall x :: x in s <==> x in t
    ensures s == t
  {
    if s == [] {
      assert forall i :: 0 <= i < |t| ==> t[i] in s;
    } else {
      HeadsAgree(terms, s, t);
      HeadPrecedesTail(terms, s);
      HeadPrecedesTail(terms, t);
      assert forall x :: x in s <==> x == s[0] || x in s[1..];
      assert forall x :: x in t <==> x == t[0] || x in t[1..];
      SortedIsUnique(terms, s[1..], t[1..]);
    }
  }

  lemma HeadPrecedesTail(terms: seq<OrderTerm>, s: seq<Row>)
    requires StrictlySorted(terms, s) && s != []
    ensures s[0] !in s[1..]
  {
    PrecedesIrreflexive(terms, s[0]);
  }

  lemma HeadsAgree(terms: seq<OrderTerm>, s: seq<Row>, t: seq<Row>)
    requires StrictlySorted(terms, s) && StrictlySorted(terms, t)
    requires forall x :: x in s <==> x in t
    requires s != []
    ensures t != [] && s[0] == t[0]
  {
    assert s[0] in t && t[0] in s;
    if s[0] != t[0] {
      assert Precedes(terms, s[0], t[0]) && Precedes(terms, t[0], s[0]);
      PrecedesTransitive(terms, s[0], t[0], s[0]);
      PrecedesIrreflexive(terms, s[0]);
    }
  }

  lemma {:induction false} FilterKeeps(b: Builder<Atom>, rows: seq<Row>)
    requires UniqueIds(rows)
    ensures forall x :: x in Filter(b, rows) <==> x in rows && Selects(b, x)
    ensures UniqueIds(Filter(b, rows))
  {
    if rows != [] {
      FilterKeeps(b, rows[1..]);
      assert rows == [rows[0]] + rows[1..];
      var rest := Filter(b, rows[1..]);
      forall i | 0 <= i < |rest| ensures rest[i].id != rows[0].id {
        assert rest[i] in rows[1..];
      }
    }
  }

  // ---------------------------------------------------------------- the cursor condition

  lemma AfterClauseMeans(row: Row, strictly: Atom, same: Atom, id: int)
    ensures var read := Reads(row);
      ClauseTruth(read, AfterClause(strictly, same, id))
      == Some(Disj(AtomTruth(row, strictly), Conj(AtomTruth(row, same), AtomTruth(row, IdAtom(Greater, id)))))
  {
    var read := Reads(row);
    var a, b := Clause(And, false, Raw(strictly)), Clause(Or, false, Raw(same));
    var c := Clause(And, false, Raw(IdAtom(Greater, id)));
    var group := AfterGroup([], strictly, same, id);
    assert group == [a, b, c];
    assert group[1..] == [b, c] && [b, c][1..] == [c] && [c][1..] == [];
    var ta, tb, tc := AtomTruth(row, strictly), AtomTruth(row, same), AtomTruth(row, IdAtom(Greater, id));
    assert Run(read, Some(Conj(tb, tc)), []) == Some(Conj(tb, tc));
    assert Run(read, Some(tb), [c]) == Some(Conj(tb, tc));
    assert Run(read, Some(ta), [b, c]) == Some(Disj(ta, Conj(tb, tc)));
    assert Run(read, None, group) == Some(Disj(ta, Conj(tb, tc)));
    assert Eval(read, group) == Some(Disj(ta, Conj(tb, tc)));
  }

  ghost predicate AllYes(row: Row, b: Builder<Atom>) {
    forall k :: 0 <= k < |b| ==> ClauseTruth(Reads(row), b[k]) == Some(Yes)
  }

  lemma {:induction false} ConjAllYes(ts: seq<Truth>)
    ensures ConjAll(ts).Yes? <==> forall k :: 0 <= k < |ts| ==> ts[k].Yes?
  {
    if ts != [] {
      ConjAllYes(ts[1..]);
      assert forall k :: 1 <= k < |ts| ==> ts[k] == ts[1..][k - 1];
    }
  }

  /** The conditions of a cursor are joined by AND. */
  lemma CursorConditionsAreJoined(row: Row, cursor: Cursor, isReverseOrder: bool, sorting: Sorting)
    ensures Selects(CursorClauses(cursor, isReverseOrder, sorting), row)
       <==> AllYes(row, CursorClauses(cursor, isReverseOrder, sorting))
  {
    var read := Reads(row);
    var b := CursorClauses(cursor, isReverseOrder, sorting);
    forall k | 0 <= k < |b| ensures ClauseTruth(read, b[k]).Some? && b[k].connective == And {
      if cursor.TimestampCursor? {
        AfterClauseMeans(row, CreatedAtAtom(if isReverseOrder then Less else Greater, cursor.value),
                         CreatedAtAtom(Equal, cursor.value), cursor.id);
      } else {
        FieldClauseMeans(row, cursor.id, cursor.values[k], isReverseOrder, sorting);
      }
    }
    if b != [] {
      var ts := seq(|b|, k requires 0 <= k < |b| => ClauseTruth(read, b[k]).value);
      EvalFolds(read, And, b, ts);
      ConjAllYes(ts);
      assert AllYes(row, b) <==> forall k :: 0 <= k < |ts| ==> ts[k].Yes?;
    } else {
      assert Eval(read, b) == None;
    }
  }

  lemma FieldClauseMeans(row: Row, id: int, field: CursorField, isReverseOrder: bool, sorting: Sorting)
    ensures var t := ClauseTruth(Reads(row), FieldClause(id, field, isReverseOrder, sorting));
      && t.Some?
      && (field.key in row.content ==>
            (t.value.Yes? <==> Beyond(row, id, field, isReverseOrder, OrderOf(sorting, field.key))))
  {
    var sign := GetComparisonSign(OrderOf(sorting, field.key), isReverseOrder);
    AfterClauseMeans(row, FieldAtom(field.key, sign, field.value), FieldAtom(field.key, Equal, field.value), id);
  }

  /** The row is beyond the cursor in one key: strictly, or by its id on an equal value. */
  predicate Beyond(row: Row, id: int, field: CursorField, isReverseOrder: bool, order: SortOrder)
    requires field.key in row.content
  {
    var v := row.content[field.key];
    || (if order.ASC? != isReverseOrder then field.value < v else v < field.value)
    || (v == field.value && id < row.id)
  }

  /** With at most one sort key the cursor of `c` selects exactly the rows after `c`. */
  lemma CursorSelectsWhatFollows(c: Row, row: Row, isReverseOrder: bool, sorting: Sorting)
    requires Simple(sorting, [c, row])
    ensures Selects(CursorClauses(CursorOf(c, sorting), isReverseOrder, sorting), row)
       <==> Precedes(OrderTerms(isReverseOrder, sorting), c, row)
  {
    var cursor := CursorOf(c, sorting);
    var b := CursorClauses(cursor, isReverseOrder, sorting);
    var terms := OrderTerms(isReverseOrder, sorting);
    CursorConditionsAreJoined(row, cursor, isReverseOrder, sorting);
    assert terms[1..] == [ById(ASC)] && terms[1..][1..] == [];
    assert Precedes(terms[1..], c, row) <==> c.id < row.id;
    if sorting == [] {
      AfterClauseMeans(row, CreatedAtAtom(if isReverseOrder then Less else Greater, cursor.value),
                       CreatedAtAtom(Equal, cursor.value), cursor.id);
      assert AllYes(row, b) <==> ClauseTruth(Reads(row), b[0]) == Some(Yes);
    } else {
      var key := sorting[0].key;
      assert [c, row][0] == c && [c, row][1] == row;
      var field := CursorField(key, c.content[key]);
      assert sorting[1..] == [] && CursorFields(c, []) == [];
      assert CursorFields(c, sorting) == [field];
      FieldClauseMeans(row, c.id, field, isReverseOrder, sorting);
      assert b == [FieldClause(c.id, field, isReverseOrder, sorting)];
      assert AllYes(row, b) <==> ClauseTruth(Reads(row), b[0]) == Some(Yes);
      assert terms[0] == ByField(key, if isReverseOrder then ReverseOrder(sorting[0].order) else sorting[0].order);
    }
  }

  // ---------------------------------------------------------------- several sort keys

  ghost predicate DistinctKeys(sorting: Sorting) {
    forall k, l :: 0 <= k < l < |sorting| ==> sorting[k].key != sorting[l].key
  }

  predicate Has(sorting: Sorting, row: Row) {
    forall k :: 0 <= k < |sorting| ==> sorting[k].key in row.content
  }

  /** The row is beyond the cursor row `c` in this sort key, with the stream id to break ties. */
  predicate BeyondIn(sortKey: SortKey, c: Row, row: Row, isReverseOrder: bool) {
    && sortKey.key in c.content && sortKey.key in row.content
    && Beyond(row, c.id, CursorField(sortKey.key, c.content[sortKey.key]), isReverseOrder, sortKey.order)
  }

  lemma {:induction false} OrderOfKey(sorting: Sorting, k: nat)
    requires DistinctKeys(sorting) && k < |sorting|
    ensures OrderOf(sorting, sorting[k].key) == sorting[k].order
  {
    if k > 0 {
      OrderOfKey(sorting[1..], k - 1);
    }
  }

  lemma {:induction false} AllFieldsInCursor(c: Row, sorting: Sorting)
    requires Has(sorting, c)
    ensures |CursorFields(c, sorting)| == |sorting|
    ensures forall k :: 0 <= k < |sorting| ==>
      CursorFields(c, sorting)[k] == CursorField(sorting[k].key, c.content[sorting[k].key])
  {
    if sorting != [] {
      assert sorting[0].key in c.content;
      assert forall k :: 0 <= k < |sorting[1..]| ==> sorting[1..][k] == sorting[k + 1];
      AllFieldsInCursor(c, sorting[1..]);
    }
  }

  /** With several keys the cursor asks for each of them separately. */
  lemma CursorSelectsPerKey(c: Row, row: Row, isReverseOrder: bool, sorting: Sorting)
    requires sorting != [] && DistinctKeys(sorting) && Has(sorting, c) && Has(sorting, row)
    ensures Selects(CursorClauses(CursorOf(c, sorting), isReverseOrder, sorting), row)
       <==> forall k :: 0 <= k < |sorting| ==> BeyondIn(sorting[k], c, row, isReverseOrder)
  {
    var cursor := CursorOf(c, sorting);
    var b := CursorClauses(cursor, isReverseOrder, sorting);
    CursorConditionsAreJoined(row, cursor, isReverseOrder, sorting);
    AllFieldsInCursor(c, sorting);
    forall k | 0 <= k < |sorting|
      ensures ClauseTruth(Reads(row), b[k]) == Some(Yes) <==> BeyondIn(sorting[k], c, row, isReverseOrder)
    {
      OrderOfKey(sorting, k);
      FieldClauseMeans(row, c.id, cursor.values[k], isReverseOrder, sorting);
    }
  }

  lemma {:induction false} BeyondEveryKeyFollows(c: Row, row: Row, isReverseOrder: bool, sorting: Sorting)
    requires sorting != [] && Has(sorting, c) && Has(sorting, row)
    requires forall k :: 0 <= k < |sorting| ==> BeyondIn(sorting[k], c, row, isReverseOrder)
    ensures Precedes(OrderTerms(isReverseOrder, sorting), c, row)
  {
    var terms := OrderTerms(isReverseOrder, sorting);
    assert BeyondIn(sorting[0], c, row, isReverseOrder);
    if Rank(terms[0], c) == Rank(terms[0], row) {
      if |sorting| == 1 {
        assert terms[1..] == [ById(ASC)];
      } else {
        assert terms[1..] == OrderTerms(isReverseOrder, sorting[1..]);
        assert forall k :: 0 <= k < |sorting[1..]| ==> sorting[1..][k] == sorting[k + 1];
        BeyondEveryKeyFollows(c, row, isReverseOrder, sorting[1..]);
      }
    }
  }

  /** Every row returned from a cursor comes strictly after it, for any number of sort keys. */
  lemma ReturnedRowsFollowTheCursor(c: Row, row: Row, isReverseOrder: bool, sorting: Sorting)
    requires sorting != [] && DistinctKeys(sorting) && Has(sorting, c) && Has(sorting, row)
    requires Selects(CursorClauses(CursorOf(c, sorting), isReverseOrder, sorting), row)
    ensures Precedes(OrderTerms(isReverseOrder, sorting), c, row)
  {
    CursorSelectsPerKey(c, row, isReverseOrder, sorting);
    BeyondEveryKeyFollows(c, row, isReverseOrder, sorting);
  }

  predicate BeyondAll(sorting: Sorting, c: Row, row: Row, isReverseOrder: bool) {
    forall k :: 0 <= k < |sorting| ==> BeyondIn(sorting[k], c, row, isReverseOrder)
  }

  lemma BeyondTransitive(sorting: Sorting, a: Row, b: Row, c: Row, isReverseOrder: bool)
    requires BeyondAll(sorting, a, b, isReverseOrder) && BeyondAll(sorting, b, c, isReverseOrder)
    ensures BeyondAll(sorting, a, c, isReverseOrder)
  {
    forall k | 0 <= k < |sorting| ensures BeyondIn(sorting[k], a, c, isReverseOrder) {
      assert BeyondIn(sorting[k], a, b, isReverseOrder) && BeyondIn(sorting[k], b, c, isReverseOrder);
    }
  }

  /**
   No row is null in a sort key, and going on in the order of the query never goes back in any single key
   (nor to a smaller stream id on an equal value).
   */
  ghost predicate KeysAgree(rows: seq<Row>, isReverseOrder: bool, sorting: Sorting) {
    && DistinctKeys(sorting) && AllPresent(sorting, rows)
    && forall c, row :: c in rows && row in rows && Precedes(OrderTerms(isReverseOrder, sorting), c, row) ==>
         BeyondAll(sorting, c, row, isReverseOrder)
  }

  /** At most one sort key always agrees with itself. */
  lemma OneKeyAgrees(rows: seq<Row>, isReverseOrder: bool, sorting: Sorting)
    requires Simple(sorting, rows)
    ensures KeysAgree(rows, isReverseOrder, sorting)
  {
    var terms := OrderTerms(isReverseOrder, sorting);
    assert terms[1..] == [ById(ASC)] && terms[1..][1..] == [];
    forall c, row | c in rows && row in rows && Precedes(terms, c, row)
      ensures BeyondAll(sorting, c, row, isReverseOrder) {
      assert Precedes(terms[1..], c, row) <==> c.id < row.id;
    }
  }

  /** A selected row is beyond the cursor in every key, and after it. */
  lemma SelectedIsBeyond(rows: seq<Row>, c: Row, row: Row, isReverseOrder: bool, sorting: Sorting)
    requires DistinctKeys(sorting) && AllPresent(sorting, rows) && c in rows && row in rows
    ensures Selects(CursorClauses(CursorOf(c, sorting), isReverseOrder, sorting), row) ==>
              BeyondAll(sorting, c, row, isReverseOrder) && Precedes(OrderTerms(isReverseOrder, sorting), c, row)
    ensures sorting != [] && BeyondAll(sorting, c, row, isReverseOrder) ==>
              Selects(CursorClauses(CursorOf(c, sorting), isReverseOrder, sorting), row)
  {
    if sorting == [] {
      CursorSelectsWhatFollows(c, row, isReverseOrder, sorting);
    } else {
      assert Has(sorting, c) && Has(sorting, row);
      CursorSelectsPerKey(c, row, isReverseOrder, sorting);
      if BeyondAll(sorting, c, row, isReverseOrder) {
        BeyondEveryKeyFollows(c, row, isReverseOrder, sorting);
      }
    }
  }

  /** When the keys agree, the cursor of a row selects exactly the rows after it, for any number of keys. */
  lemma CursorSelectsLater(rows: seq<Row>, c: Row, row: Row, isReverseOrder: bool, sorting: Sorting)
    requires KeysAgree(rows, isReverseOrder, sorting) && c in rows && row in rows
    ensures Selects(CursorClauses(CursorOf(c, sorting), isReverseOrder, sorting), row)
       <==> Precedes(OrderTerms(isReverseOrder, sorting), c, row)
  {
    SelectedIsBeyond(rows, c, row, isReverseOrder, sorting);
    if sorting == [] {
      CursorSelectsWhatFollows(c, row, isReverseOrder, sorting);
    }
  }

  // ---------------------------------------------------------------- pages are slices of one listing

  /** The whole filtered relation in the order of the query. */
  function Listing(rows: seq<Row>, isReverseOrder: bool, sorting: Sorting): seq<Row> {
    Sort(OrderTerms(isReverseOrder, sorting), rows)
  }

  /** The cursor that stands after the first `n` rows of the listing `all`. */
  ghost predicate CursorAt(all: seq<Row>, sorting: Sorting, cursor: Option<Cursor>, n: nat) {
    n <= |all| && cursor == if n == 0 then None else Some(CursorOf(all[n - 1], sorting))
  }

  /** From a cursor the database returns what the listing holds after it, in the same order. */
  lemma CursorResumes(rows: seq<Row>, isReverseOrder: bool, sorting: Sorting, cursor: Option<Cursor>, n: nat)
    requires UniqueIds(rows) && KeysAgree(rows, isReverseOrder, sorting)
    requires CursorAt(Listing(rows, isReverseOrder, sorting), sorting, cursor, n)
    ensures Remaining(rows, isReverseOrder, cursor, sorting) == Listing(rows, isReverseOrder, sorting)[n..]
  {
    var terms := OrderTerms(isReverseOrder, sorting);
    var where := BuiltQuery(isReverseOrder, cursor, sorting).where;
    var all := Listing(rows, isReverseOrder, sorting);
    var kept := Filter(where, rows);
    SortSorts(terms, rows);
    FilterKeeps(where, rows);
    SortSorts(terms, kept);
    forall x ensures x in kept <==> x in all[n..] {
      if x in rows {
        assert x in all;
        KeptIffLater(rows, isReverseOrder, sorting, cursor, n, x);
      } else {
        assert x !in all;
      }
    }
    SortedIsUnique(terms, Sort(terms, kept), all[n..]);
  }

  lemma KeptIffLater(rows: seq<Row>, isReverseOrder: bool, sorting: Sorting, cursor: Option<Cursor>, n: nat, x: Row)
    requires UniqueIds(rows) && KeysAgree(rows, isReverseOrder, sorting) && x in rows
    requires CursorAt(Listing(rows, isReverseOrder, sorting), sorting, cursor, n)
    requires StrictlySorted(OrderTerms(isReverseOrder, sorting), Listing(rows, isReverseOrder, sorting))
    requires forall y :: y in Listing(rows, isReverseOrder, sorting) <==> y in rows
    ensures Selects(BuiltQuery(isReverseOrder, cursor, sorting).where, x) <==>
      x in Listing(rows, isReverseOrder, sorting)[n..]
  {
    var terms := OrderTerms(isReverseOrder, sorting);
    var all := Listing(rows, isReverseOrder, sorting);
    assert x in all;
    if n == 0 {
      assert Eval(Reads(x), []) == None;
    } else {
      var c := all[n - 1];
      assert c in all && c in rows;
      CursorSelectsLater(rows, c, x, isReverseOrder, sorting);
      var i :| 0 <= i < |all| && all[i] == x;
      if i >= n {
        assert all[n..][i - n] == x;
      } else {
        assert x !in all[n..] && !Precedes(terms, c, x) by {
          NotLater(terms, all, n, i);
        }
      }
    }
  }

  lemma NotLater(terms: seq<OrderTerm>, all: seq<Row>, n: nat, i: nat)
    requires StrictlySorted(terms, all) && i < n <= |all|
    ensures all[i] !in all[n..] && !Precedes(terms, all[n - 1], all[i])
  {
    forall j | n <= j < |all| ensures all[j] != all[i] {
      PrecedesIrreflexive(terms, all[i]);
    }
    if Precedes(terms, all[n - 1], all[i]) {
      if i < n - 1 {
        PrecedesTransitive(terms, all[i], all[n - 1], all[i]);
      }
      PrecedesIrreflexive(terms, all[i]);
    }
  }

  function Concat<T>(pages: seq<seq<T>>): seq<T> {
    if pages == [] then [] else pages[0] + Concat(pages[1..])
  }

  lemma {:induction false} ConcatAppend<T>(pages: seq<seq<T>>, page: seq<T>)
    ensures Concat(pages + [page]) == Concat(pages) + page
  {
    if pages == [] {
      assert [page][1..] == [];
      assert pages + [page] == [page];
    } else {
      ConcatAppend(pages[1..], page);
      assert (pages + [page])[1..] == pages[1..] + [page];
    }
  }

  /** Where the page that starts behind the first `n` of `total` rows ends. */
  function PageEnd(total: nat, n: nat, size: nat): nat {
    if n + size < total then n + size else total
  }

  lemma TakeIsSlice<T>(all: seq<T>, n: nat, size: nat)
    requires n <= |all|
    ensures Take(all[n..], size) == all[n..PageEnd(|all|, n, size)]
  {
  }

  lemma FirstOfReverse<T>(all: seq<T>, n: nat, m: nat)
    requires n <= m <= |all|
    ensures |Reverse(all[n..m])| == m - n && (n < m ==> Reverse(all[n..m])[0] == all[m - 1])
  {
  }

  /** A forward page is the next slice of the listing, and its cursor stands behind it. */
  method NextPage(rows: seq<Row>, sorting: Sorting, first: nat, after: Option<Cursor>, ghost all: seq<Row>,
                  ghost n: nat)
    returns (page: Page)
    requires UniqueIds(rows) && KeysAgree(rows, false, sorting) && first > 0
    requires all == Listing(rows, false, sorting) && CursorAt(all, sorting, after, n)
    ensures page.entries == all[n..PageEnd(|all|, n, first)]
    ensures page.hasNextPage <==> n + first < |all|
    ensures page.hasNextPage ==> CursorAt(all, sorting, page.endCursor, n + first)
  {
    CursorResumes(rows, false, sorting, after, n);
    TakeIsSlice(all, n, first);
    page := ForwardPage(rows, sorting, first, after);
  }

  /** A backward page is the next slice of the descending listing, turned around. */
  method PreviousPage(rows: seq<Row>, sorting: Sorting, last: nat, before: Option<Cursor>, ghost all: seq<Row>,
                      ghost n: nat)
    returns (page: Page)
    requires UniqueIds(rows) && KeysAgree(rows, true, sorting) && last > 0
    requires all == Listing(rows, true, sorting) && CursorAt(all, sorting, before, n)
    ensures page.entries == Reverse(all[n..PageEnd(|all|, n, last)])
    ensures page.hasPreviousPage <==> n + last < |all|
    ensures page.hasPreviousPage ==> CursorAt(all, sorting, page.startCursor, n + last)
  {
    CursorResumes(rows, true, sorting, before, n);
    TakeIsSlice(all, n, last);
    FirstOfReverse(all, n, PageEnd(|all|, n, last));
    page := BackwardPage(rows, sorting, last, before);
  }

  /** The listing holds every row exactly once. */
  lemma ListingIsComplete(rows: seq<Row>, isReverseOrder: bool, sorting: Sorting, all: seq<Row>)
    requires UniqueIds(rows) && all == Listing(rows, isReverseOrder, sorting)
    ensures |all| == |rows| && multiset(all) == multiset(rows)
  {
    SortSorts(OrderTerms(isReverseOrder, sorting), rows);
  }

  lemma ListingIsOrdered(rows: seq<Row>, isReverseOrder: bool, sorting: Sorting)
    requires UniqueIds(rows)
    ensures Ordered(sorting, Listing(rows, isReverseOrder, sorting), isReverseOrder)
  {
    SortSorts(OrderTerms(isReverseOrder, sorting), rows);
    SortedIsOrdered(sorting, Listing(rows, isReverseOrder, sorting), isReverseOrder);
  }

  ghost predicate Full<T>(pages: seq<seq<T>>, start: nat, end: nat, size: nat) {
    forall k :: start <= k < end && k < |pages| ==> |pages[k]| == size
  }

  /**
   Follow `endCursor` until `hasNextPage` is false: the pages hold the whole listing, in order, and
   their sizes add up to the number of rows.
   */
  method ReadForward(rows: seq<Row>, sorting: Sorting, first: nat, ghost all: seq<Row>) returns (pages: seq<seq<Row>>)
    requires UniqueIds(rows) && KeysAgree(rows, false, sorting) && first > 0
    requires all == Listing(rows, false, sorting)
    ensures Concat(pages) == all
    ensures |Concat(pages)| == |rows| && multiset(Concat(pages)) == multiset(rows)
    ensures Ordered(sorting, Concat(pages), false)
    ensures pages != [] && Full(pages, 0, |pages| - 1, first) && |pages[|pages| - 1]| <= first
  {
    var after: Option<Cursor> := None;
    var more := true;
    pages := [];
    ghost var n: nat := 0;
    while more
      invariant n <= |all| && Concat(pages) == all[..n]
      invariant if more then CursorAt(all, sorting, after, n) else n == |all|
      invariant more ==> Full(pages, 0, |pages|, first)
      invariant !more ==> pages != [] && Full(pages, 0, |pages| - 1, first) && |pages[|pages| - 1]| <= first
      decreases more, |all| - n
    {
      var page := NextPage(rows, sorting, first, after, all, n);
      ForwardGrows(all, n, PageEnd(|all|, n, first), pages, page.entries);
      pages := pages + [page.entries];
      n := PageEnd(|all|, n, first);
      after, more := page.endCursor, page.hasNextPage;
    }
    assert all[..n] == all;
    ListingIsComplete(rows, false, sorting, all);
    ListingIsOrdered(rows, false, sorting);
  }

  lemma ForwardGrows<T>(all: seq<T>, n: nat, m: nat, pages: seq<seq<T>>, page: seq<T>)
    requires n <= m <= |all| && Concat(pages) == all[..n] && page == all[n..m]
    ensures Concat(pages + [page]) == all[..m]
  {
    ConcatAppend(pages, page);
    assert all[..n] + page == all[..m];
  }

  /**
   Follow `startCursor` until `hasPreviousPage` is false. Each page is put in front of the ones read
   before, and together they are the reverse of the descending listing.
   */
  method ReadBackward(rows: seq<Row>, sorting: Sorting, last: nat, ghost all: seq<Row>) returns (pages: seq<seq<Row>>)
    requires UniqueIds(rows) && KeysAgree(rows, true, sorting) && last > 0
    requires all == Listing(rows, true, sorting)
    ensures Concat(pages) == Reverse(all)
    ensures |Concat(pages)| == |rows| && multiset(Concat(pages)) == multiset(rows)
    ensures Ordered(sorting, Reverse(Concat(pages)), true)
    ensures pages != [] && Full(pages, 1, |pages|, last) && |pages[0]| <= last
  {
    var before: Option<Cursor> := None;
    var more := true;
    pages := [];
    ghost var n: nat := 0;
    while more
      invariant n <= |all| && Concat(pages) == Reverse(all[..n])
      invariant if more then CursorAt(all, sorting, before, n) else n == |all|
      invariant more ==> Full(pages, 0, |pages|, last)
      invariant !more ==> pages != [] && Full(pages, 1, |pages|, last) && |pages[0]| <= last
      decreases more, |all| - n
    {
      var page := PreviousPage(rows, sorting, last, before, all, n);
      BackwardGrows(all, n, PageEnd(|all|, n, last), pages, page.entries);
      PageInFront(pages, page.entries, last);
      pages := [page.entries] + pages;
      n := PageEnd(|all|, n, last);
      before, more := page.startCursor, page.hasPreviousPage;
    }
    AllAreRead(all, n, pages);
    ListingIsComplete(rows, true, sorting, all);
    ListingIsOrdered(rows, true, sorting);
    assert Reverse(Reverse(all)) == all;
  }

  lemma PageInFront<T>(pages: seq<seq<T>>, page: seq<T>, size: nat)
    requires Full(pages, 0, |pages|, size)
    ensures Full([page] + pages, 1, |pages| + 1, size)
    ensures |page| == size ==> Full([page] + pages, 0, |pages| + 1, size)
  {
    assert forall k :: 1 <= k < 1 + |pages| ==> ([page] + pages)[k] == pages[k - 1];
  }

  lemma BackwardGrows<T>(all: seq<T>, n: nat, m: nat, pages: seq<seq<T>>, page: seq<T>)
    requires n <= m <= |all| && Concat(pages) == Reverse(all[..n]) && page == Reverse(all[n..m])
    ensures Concat([page] + pages) == Reverse(all[..m])
  {
    assert ([page] + pages)[1..] == pages;
    assert all[..m] == all[..n] + all[n..m];
    ReverseOfBoth(all[..n], all[n..m]);
  }

  lemma ReverseOfBoth<T>(s: seq<T>, t: seq<T>)
    ensures Reverse(s + t) == Reverse(t) + Reverse(s)
  {
  }

  lemma AllAreRead<T>(all: seq<T>, n: nat, pages: seq<seq<T>>)
    requires n == |all| && Concat(pages) == Reverse(all[..n])
    ensures Concat(pages) == Reverse(all) && |Concat(pages)| == |all| && multiset(Concat(pages)) == multiset(all)
  {
    assert all[..n] == all;
    ReverseKeeps(all);
  }

  lemma {:induction false} ReverseKeeps<T>(s: seq<T>)
    ensures multiset(Reverse(s)) == multiset(s)
  {
    if s != [] {
      ReverseKeeps(s[1..]);
      assert Reverse(s) == Reverse(s[1..]) + [s[0]];
      assert s == [s[0]] + s[1..];
    }
  }

  // ---------------------------------------------------------------- when several keys lose rows

  lemma RemainingIsSelected(rows: seq<Row>, isReverseOrder: bool, cursor: Option<Cursor>, sorting: Sorting)
    requires UniqueIds(rows)
    ensures var rest := Remaining(rows, isReverseOrder, cursor, sorting);
      forall x :: x in rest <==> x in rows && Selects(BuiltQuery(isReverseOrder, cursor, sorting).where, x)
  {
    var query := BuiltQuery(isReverseOrder, cursor, sorting);
    FilterKeeps(query.where, rows);
    SortSorts(query.orderBy, Filter(query.where, rows));
  }

  /**
   Every cursor of the listing gets the rest of the listing from the database, and so nothing is lost,
   exactly when the keys agree.
   */
  lemma SeveralKeysLoseNothingIff(rows: seq<Row>, isReverseOrder: bool, sorting: Sorting)
    requires UniqueIds(rows) && DistinctKeys(sorting) && AllPresent(sorting, rows)
    ensures var all := Listing(rows, isReverseOrder, sorting);
      KeysAgree(rows, isReverseOrder, sorting) <==>
        forall cursor, n: nat :: CursorAt(all, sorting, cursor, n) ==>
          Remaining(rows, isReverseOrder, cursor, sorting) == all[n..]
  {
    var terms, all := OrderTerms(isReverseOrder, sorting), Listing(rows, isReverseOrder, sorting);
    SortSorts(terms, rows);
    if KeysAgree(rows, isReverseOrder, sorting) {
      forall cursor, n: nat | CursorAt(all, sorting, cursor, n)
        ensures Remaining(rows, isReverseOrder, cursor, sorting) == all[n..]
      {
        CursorResumes(rows, isReverseOrder, sorting, cursor, n);
      }
    } else {
      var cursor, n := LosingCursor(rows, isReverseOrder, sorting, all);
    }
  }

  /** When the keys disagree, some cursor of the listing does not get all of the rest. */
  lemma LosingCursor(rows: seq<Row>, isReverseOrder: bool, sorting: Sorting, all: seq<Row>)
    returns (cursor: Option<Cursor>, n: nat)
    requires UniqueIds(rows) && DistinctKeys(sorting) && AllPresent(sorting, rows)
    requires all == Listing(rows, isReverseOrder, sorting) && !KeysAgree(rows, isReverseOrder, sorting)
    ensures CursorAt(all, sorting, cursor, n) && Remaining(rows, isReverseOrder, cursor, sorting) != all[n..]
  {
    var c, row := Disagreement(rows, isReverseOrder, sorting);
    n := LaterInListing(rows, isReverseOrder, sorting, c, row);
    cursor := Some(CursorOf(c, sorting));
    NotRemaining(rows, c, row, isReverseOrder, sorting);
  }

  lemma LaterInListing(rows: seq<Row>, isReverseOrder: bool, sorting: Sorting, c: Row, row: Row) returns (n: nat)
    requires UniqueIds(rows) && c in rows && row in rows && Precedes(OrderTerms(isReverseOrder, sorting), c, row)
    ensures var all := Listing(rows, isReverseOrder, sorting);
      0 < n <= |all| && all[n - 1] == c && row in all[n..]
  {
    var all := Listing(rows, isReverseOrder, sorting);
    SortSorts(OrderTerms(isReverseOrder, sorting), rows);
    var i, j := Positions(OrderTerms(isReverseOrder, sorting), all, c, row);
    n := i + 1;
    assert all[n..][j - n] == row;
  }

  /** A row that is not beyond the cursor in every key is not returned. */
  lemma NotRemaining(rows: seq<Row>, c: Row, row: Row, isReverseOrder: bool, sorting: Sorting)
    requires UniqueIds(rows) && DistinctKeys(sorting) && AllPresent(sorting, rows) && c in rows && row in rows
    requires !BeyondAll(sorting, c, row, isReverseOrder)
    ensures row !in Remaining(rows, isReverseOrder, Some(CursorOf(c, sorting)), sorting)
  {
    RemainingIsSelected(rows, isReverseOrder, Some(CursorOf(c, sorting)), sorting);
    SelectedIsBeyond(rows, c, row, isReverseOrder, sorting);
  }

  lemma Disagreement(rows: seq<Row>, isReverseOrder: bool, sorting: Sorting) returns (c: Row, row: Row)
    requires DistinctKeys(sorting) && AllPresent(sorting, rows) && !KeysAgree(rows, isReverseOrder, sorting)
    ensures c in rows && row in rows && Precedes(OrderTerms(isReverseOrder, sorting), c, row)
    ensures !BeyondAll(sorting, c, row, isReverseOrder)
  {
    c, row :| c in rows && row in rows && Precedes(OrderTerms(isReverseOrder, sorting), c, row)
              && !BeyondAll(sorting, c, row, isReverseOrder);
  }

  lemma Positions(terms: seq<OrderTerm>, all: seq<Row>, c: Row, row: Row) returns (i: nat, j: nat)
    requires StrictlySorted(terms, all) && c in all && row in all && Precedes(terms, c, row)
    ensures i < j < |all| && all[i] == c && all[j] == row
  {
    i :| 0 <= i < |all| && all[i] == c;
    j :| 0 <= j < |all| && all[j] == row;
    if j <= i {
      NotLater(terms, all, i + 1, j);
    }
  }

  /** One page of one row. */
  method OneRow(rows: seq<Row>, isReverseOrder: bool, cursor: Option<Cursor>, sorting: Sorting)
    returns (entries: seq<Row>, more: bool, next: Option<Cursor>)
    ensures entries == Take(Remaining(rows, isReverseOrder, cursor, sorting), 1)
    ensures more <==> |Remaining(rows, isReverseOrder, cursor, sorting)| > 1
    ensures next == if entries == [] then None else Some(CursorOf(entries[0], sorting))
  {
    if isReverseOrder {
      var page := BackwardPage(rows, sorting, 1, cursor);
      entries, more, next := page.entries, page.hasPreviousPage, page.startCursor;
    } else {
      var page := ForwardPage(rows, sorting, 1, cursor);
      entries, more, next := page.entries, page.hasNextPage, page.endCursor;
    }
  }

  /** Each row read is beyond the ones before it in every key. */
  ghost predicate BeyondEarlier(sorting: Sorting, read: seq<Row>, isReverseOrder: bool) {
    forall i, j :: 0 <= i < j < |read| ==> BeyondAll(sorting, read[i], read[j], isReverseOrder)
  }

  /** Rows of the relation, in order, each beyond the ones before it in every key. */
  ghost predicate IsReading(rows: seq<Row>, isReverseOrder: bool, sorting: Sorting, read: seq<Row>) {
    && (forall row :: row in read ==> row in rows)
    && StrictlySorted(OrderTerms(isReverseOrder, sorting), read)
    && BeyondEarlier(sorting, read, isReverseOrder)
  }

  /** The cursor behind the last row read. */
  function CursorBehind(read: seq<Row>, sorting: Sorting): Option<Cursor> {
    if read == [] then None else Some(CursorOf(read[|read| - 1], sorting))
  }

  lemma ReadAfterLast(rows: seq<Row>, isReverseOrder: bool, sorting: Sorting, read: seq<Row>, next: Row)
    requires DistinctKeys(sorting) && AllPresent(sorting, rows) && next in rows
    requires IsReading(rows, isReverseOrder, sorting, read)
    requires read != [] ==>
               Selects(CursorClauses(CursorOf(read[|read| - 1], sorting), isReverseOrder, sorting), next)
    ensures next !in read && IsReading(rows, isReverseOrder, sorting, read + [next])
  {
    var terms := OrderTerms(isReverseOrder, sorting);
    forall i | 0 <= i < |read|
      ensures Precedes(terms, read[i], next) && BeyondAll(sorting, read[i], next, isReverseOrder) {
      var last := read[|read| - 1];
      SelectedIsBeyond(rows, last, next, isReverseOrder, sorting);
      if i < |read| - 1 {
        PrecedesTransitive(terms, read[i], last, next);
        BeyondTransitive(sorting, read[i], last, next, isReverseOrder);
      }
    }
    if next in read {
      PrecedesIrreflexive(terms, next);
    }
  }

  /** A page of one row read behind the others. */
  lemma ReadingGoesOn(rows: seq<Row>, isReverseOrder: bool, sorting: Sorting, read: seq<Row>, entries: seq<Row>)
    requires UniqueIds(rows) && DistinctKeys(sorting) && AllPresent(sorting, rows)
    requires IsReading(rows, isReverseOrder, sorting, read)
    requires entries == Take(Remaining(rows, isReverseOrder, CursorBehind(read, sorting), sorting), 1)
    ensures IsReading(rows, isReverseOrder, sorting, read + entries)
    ensures entries != [] ==> entries[0] in rows && entries[0] !in read
  {
    if entries == [] {
      assert read + entries == read;
    } else {
      var rest := Remaining(rows, isReverseOrder, CursorBehind(read, sorting), sorting);
      RemainingIsSelected(rows, isReverseOrder, CursorBehind(read, sorting), sorting);
      assert entries == [rest[0]] && rest[0] in rest;
      ReadAfterLast(rows, isReverseOrder, sorting, read, entries[0]);
    }
  }

  /** When the keys agree, what was read is the beginning of the listing. */
  lemma ReadingIsPrefix(rows: seq<Row>, isReverseOrder: bool, sorting: Sorting, read: seq<Row>, entries: seq<Row>,
                        all: seq<Row>)
    requires UniqueIds(rows) && KeysAgree(rows, isReverseOrder, sorting)
    requires all == Listing(rows, isReverseOrder, sorting) && read <= all
    requires entries == Take(Remaining(rows, isReverseOrder, CursorBehind(read, sorting), sorting), 1)
    ensures read + entries <= all
    ensures |Remaining(rows, isReverseOrder, CursorBehind(read, sorting), sorting)| <= 1 ==> read + entries == all
  {
    assert CursorAt(all, sorting, CursorBehind(read, sorting), |read|);
    CursorResumes(rows, isReverseOrder, sorting, CursorBehind(read, sorting), |read|);
    assert all == read + all[|read|..];
  }

  /** When everything was read in steps that go on in every key, the keys agree. */
  lemma AllReadMeansAgreement(rows: seq<Row>, isReverseOrder: bool, sorting: Sorting, read: seq<Row>)
    requires DistinctKeys(sorting) && AllPresent(sorting, rows)
    requires IsReading(rows, isReverseOrder, sorting, read)
    requires forall row :: row in rows ==> row in read
    ensures KeysAgree(rows, isReverseOrder, sorting)
  {
    var terms := OrderTerms(isReverseOrder, sorting);
    forall c, row | c in rows && row in rows && Precedes(terms, c, row)
      ensures BeyondAll(sorting, c, row, isReverseOrder) {
      var i, j := Positions(terms, read, c, row);
    }
  }

  /** What there is still to read. */
  function Unread(rows: seq<Row>, read: seq<Row>): set<Row> {
    set row | row in rows && row !in read
  }

  lemma UnreadShrinks(rows: seq<Row>, read: seq<Row>, row: Row)
    requires row in rows && row !in read
    ensures Unread(rows, read + [row]) < Unread(rows, read)
  {
    assert row in Unread(rows, read);
  }

  /** What was read is the listing, or its beginning, when the keys agree. */
  ghost predicate IsBeginning(rows: seq<Row>, isReverseOrder: bool, sorting: Sorting, read: seq<Row>, more: bool) {
    KeysAgree(rows, isReverseOrder, sorting) ==>
      if more then read <= Listing(rows, isReverseOrder, sorting) else read == Listing(rows, isReverseOrder, sorting)
  }

  lemma OneMoreRow(rows: seq<Row>, isReverseOrder: bool, sorting: Sorting, read: seq<Row>, entries: seq<Row>,
                   again: bool)
    requires UniqueIds(rows) && DistinctKeys(sorting) && AllPresent(sorting, rows)
    requires IsReading(rows, isReverseOrder, sorting, read) && IsBeginning(rows, isReverseOrder, sorting, read, true)
    requires entries == Take(Remaining(rows, isReverseOrder, CursorBehind(read, sorting), sorting), 1)
    requires again <==> |Remaining(rows, isReverseOrder, CursorBehind(read, sorting), sorting)| > 1
    ensures IsReading(rows, isReverseOrder, sorting, read + entries)
    ensures IsBeginning(rows, isReverseOrder, sorting, read + entries, again)
    ensures again ==> Unread(rows, read + entries) < Unread(rows, read)
    ensures Unread(rows, read + entries) <= Unread(rows, read)
  {
    ReadingGoesOn(rows, isReverseOrder, sorting, read, entries);
    if KeysAgree(rows, isReverseOrder, sorting) {
      ReadingIsPrefix(rows, isReverseOrder, sorting, read, entries, Listing(rows, isReverseOrder, sorting));
    }
    if entries != [] {
      UnreadShrinks(rows, read, entries[0]);
      assert read + entries == read + [entries[0]];
    }
  }

  /**
   Main result, the converse: reading one row at a time, in either direction and for any number of keys,
   returns every row exactly when the keys agree.
   */
  method ReadOneByOne(rows: seq<Row>, isReverseOrder: bool, sorting: Sorting) returns (read: seq<Row>)
    requires UniqueIds(rows) && DistinctKeys(sorting) && AllPresent(sorting, rows)
    ensures StrictlySorted(OrderTerms(isReverseOrder, sorting), read) && Ordered(sorting, read, isReverseOrder)
    ensures forall row :: row in read ==> row in rows
    ensures (forall row :: row in rows ==> row in read) <==> KeysAgree(rows, isReverseOrder, sorting)
  {
    var cursor: Option<Cursor> := None;
    var more := true;
    read := [];
    while more
      invariant IsReading(rows, isReverseOrder, sorting, read)
      invariant IsBeginning(rows, isReverseOrder, sorting, read, more)
      invariant more ==> cursor == CursorBehind(read, sorting)
      decreases Unread(rows, read), more
    {
      var entries, again, next := OneRow(rows, isReverseOrder, cursor, sorting);
      OneMoreRow(rows, isReverseOrder, sorting, read, entries, again);
      assert again ==> next == CursorBehind(read + entries, sorting);
      read, cursor, more := read + entries, next, again;
    }
    ReadIffAgree(rows, isReverseOrder, sorting, read);
    SortedIsOrdered(sorting, read, isReverseOrder);
  }

  lemma ReadIffAgree(rows: seq<Row>, isReverseOrder: bool, sorting: Sorting, read: seq<Row>)
    requires UniqueIds(rows) && DistinctKeys(sorting) && AllPresent(sorting, rows)
    requires IsReading(rows, isReverseOrder, sorting, read) && IsBeginning(rows, isReverseOrder, sorting, read, false)
    ensures (forall row :: row in rows ==> row in read) <==> KeysAgree(rows, isReverseOrder, sorting)
  {
    SortSorts(OrderTerms(isReverseOrder, sorting), rows);
    if forall row :: row in rows ==> row in read {
      AllReadMeansAgreement(rows, isReverseOrder, sorting, read);
    }
  }

  /** Two keys, and the second falls while the first rises: from the first row nothing is returned. */
  lemma SecondKeyLosesARow()
    ensures var sorting := [SortKey("a", ASC), SortKey("b", ASC)];
      var first, second := Row(1, 1, map["a" := 1, "b" := 5]), Row(2, 2, map["a" := 2, "b" := 0]);
      && Precedes(OrderTerms(false, sorting), first, second)
      && Remaining([first, second], false, Some(CursorOf(first, sorting)), sorting) == []
  {
    var sorting := [SortKey("a", ASC), SortKey("b", ASC)];
    var first, second := Row(1, 1, map["a" := 1, "b" := 5]), Row(2, 2, map["a" := 2, "b" := 0]);
    assert sorting[0].key != sorting[1].key;
    CursorSelectsPerKey(first, second, false, sorting);
    CursorSelectsPerKey(first, first, false, sorting);
    assert !BeyondIn(sorting[1], first, second, false) && !BeyondIn(sorting[1], first, first, false);
    var where := BuiltQuery(false, Some(CursorOf(first, sorting)), sorting).where;
    assert [first, second][1..] == [second] && [second][1..] == [] && Filter(where, []) == [];
    assert Filter(where, [second]) == [] && Filter(where, [first, second]) == [];
    assert OrderTerms(false, sorting)[0] == ByField("a", ASC);
  }

  // ---------------------------------------------------------------- the two directions compared

  /** Only the stream id, the last of the terms, tells these rows apart. */
  ghost predicate Tied(terms: seq<OrderTerm>, a: Row, b: Row) {
    forall k :: 0 <= k < |terms| - 1 ==> Rank(terms[k], a) == Rank(terms[k], b)
  }

  /** The same ranks the other way round, except for the ascending stream id at the end. */
  ghost predicate Opposite(terms: seq<OrderTerm>, others: seq<OrderTerm>) {
    && |terms| == |others| > 0
    && terms[|terms| - 1] == others[|terms| - 1] == ById(ASC)
    && forall k :: 0 <= k < |terms| - 1 ==>
         && terms[k].order != others[k].order
         && forall row :: Rank(terms[k], row) == Rank(others[k], row)
  }

  /** Rows that are not tied change places; tied ones come by ascending stream id in both directions. */
  lemma {:induction false} OppositeOrders(terms: seq<OrderTerm>, others: seq<OrderTerm>, a: Row, b: Row)
    requires Opposite(terms, others)
    ensures Tied(terms, a, b) ==> (Precedes(terms, a, b) <==> a.id < b.id)
    ensures Tied(terms, a, b) ==> (Precedes(others, a, b) <==> a.id < b.id)
    ensures !Tied(terms, a, b) ==> (Precedes(terms, a, b) <==> Precedes(others, b, a))
  {
    if |terms| == 1 {
      assert terms[1..] == [] && others[1..] == [];
    } else {
      assert Opposite(terms[1..], others[1..]);
      OppositeOrders(terms[1..], others[1..], a, b);
      assert Tied(terms, a, b) <==> Rank(terms[0], a) == Rank(terms[0], b) && Tied(terms[1..], a, b) by {
        assert forall k :: 1 <= k < |terms| - 1 ==> terms[k] == terms[1..][k - 1];
        assert forall k :: 0 <= k < |terms[1..]| - 1 ==> terms[1..][k] == terms[k + 1];
      }
    }
  }

  lemma DirectionsAreOpposite(sorting: Sorting)
    ensures Opposite(OrderTerms(false, sorting), OrderTerms(true, sorting))
  {
  }

  /**
   Reading backward gives the listing that reading forward gives exactly when no two rows agree in all
   sort keys: on a tie both directions list the smaller stream id first.
   */
  lemma DirectionsAgreeIffNoTies(rows: seq<Row>, sorting: Sorting)
    requires UniqueIds(rows)
    ensures Reverse(Listing(rows, true, sorting)) == Listing(rows, false, sorting)
       <==> forall i, j :: 0 <= i < j < |rows| ==> !Tied(OrderTerms(false, sorting), rows[i], rows[j])
  {
    var up, down := Listing(rows, false, sorting), Listing(rows, true, sorting);
    SortSorts(OrderTerms(false, sorting), rows);
    SortSorts(OrderTerms(true, sorting), rows);
    if i, j :| 0 <= i < j < |rows| && Tied(OrderTerms(false, sorting), rows[i], rows[j]) {
      TieIsKept(rows[i], rows[j], sorting, up, down);
    } else {
      NoTiesReverse(rows, sorting, down);
      ReverseKeeps(down);
      SameElements(Reverse(down), down);
      SortedIsUnique(OrderTerms(false, sorting), Reverse(down), up);
    }
  }

  lemma NoTiesReverse(rows: seq<Row>, sorting: Sorting, down: seq<Row>)
    requires StrictlySorted(OrderTerms(true, sorting), down) && forall x :: x in down <==> x in rows
    requires forall i, j :: 0 <= i < j < |rows| ==> !Tied(OrderTerms(false, sorting), rows[i], rows[j])
    ensures StrictlySorted(OrderTerms(false, sorting), Reverse(down))
  {
    var terms := OrderTerms(false, sorting);
    forall i, j | 0 <= i < j < |down| ensures Precedes(terms, Reverse(down)[i], Reverse(down)[j]) {
      var a, b := Reverse(down)[i], Reverse(down)[j];
      assert a == down[|down| - 1 - i] && b == down[|down| - 1 - j] && a in rows && b in rows;
      PrecedesIrreflexive(OrderTerms(true, sorting), a);
      assert !Tied(terms, a, b) by {
        var k :| 0 <= k < |rows| && rows[k] == a;
        var l :| 0 <= l < |rows| && rows[l] == b;
        assert Tied(terms, a, b) <==> Tied(terms, b, a);
      }
      DirectionsAreOpposite(sorting);
      OppositeOrders(terms, OrderTerms(true, sorting), a, b);
    }
  }

  lemma TieIsKept(a: Row, b: Row, sorting: Sorting, up: seq<Row>, down: seq<Row>)
    requires Tied(OrderTerms(false, sorting), a, b) && a.id != b.id
    requires StrictlySorted(OrderTerms(false, sorting), up) && StrictlySorted(OrderTerms(true, sorting), down)
    requires a in down && b in down
    ensures Reverse(down) != up
    decreases a.id > b.id
  {
    if a.id > b.id {
      TieIsKept(b, a, sorting, up, down);
    } else {
      DirectionsAreOpposite(sorting);
      OppositeOrders(OrderTerms(false, sorting), OrderTerms(true, sorting), a, b);
      OppositeOrders(OrderTerms(false, sorting), OrderTerms(true, sorting), b, a);
      var i :| 0 <= i < |down| && down[i] == a;
      var j :| 0 <= j < |down| && down[j] == b;
      assert i < j;
      assert Reverse(down)[|down| - 1 - j] == b && Reverse(down)[|down| - 1 - i] == a;
    }
  }
}
