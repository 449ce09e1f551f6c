/**
 Parsing and converting a filter preserves its documented meaning under SQL three-valued logic, for
 every nesting of and, or and not, except that `notIn` is compiled as `in` and empty groups vanish.
 */
module QueryFilterMeaning {
  import opened Wrappers
  import opened Knex
  import opened QueryFilterParser
  import opened QueryFilterConverter

  // ---------------------------------------------------------------- the meaning of a parsed filter

  /** `nin` is read like `in`, as the conversion does. */
  function EntryTruth(db: Database, row: Row, entry: Entry): Truth {
    if entry.filter.None? then Yes else
    match entry.filter.value.op
    case NullOp(isNull) => NullTruth(row, entry.key, isNull)
    case CompareOp(sign, v) => CompareTruth(db, row, entry.key, sign, v)
    case InOp(vs) => InTruth(db, row, entry.key, entry.filter.value.tpe, vs)
    case NinOp(vs) => InTruth(db, row, entry.key, entry.filter.value.tpe, vs)
  }

  function EntryTruths(db: Database, row: Row, entries: seq<Entry>): seq<Truth> {
    seq(|entries|, k requires 0 <= k < |entries| => EntryTruth(db, row, entries[k]))
  }

  function ParsedTruth(db: Database, row: Row, f: QueryFilter): Truth
    decreases f
  {
    match f
    case WhereFilter(entries) => ConjAll(EntryTruths(db, row, entries))
    case AndFilter(fs) => ConjAll(seq(|fs|, k requires 0 <= k < |fs| => ParsedTruth(db, row, fs[k])))
    case OrFilter(fs) => DisjAll(seq(|fs|, k requires 0 <= k < |fs| => ParsedTruth(db, row, fs[k])))
    case NotFilter(g) => Not(ParsedTruth(db, row, g))
    case Undefined => Yes
  }

  /** What is printed for a filter: groups without any condition vanish with their negations. */
  function PrintedTruth(db: Database, row: Row, f: QueryFilter): Option<Truth>
    decreases f
  {
    match f
    case WhereFilter(entries) => if entries == [] then None else Some(ConjAll(EntryTruths(db, row, entries)))
    case AndFilter(fs) =>
      FoldPrinted(Connective.And, seq(|fs|, k requires 0 <= k < |fs| => PrintedTruth(db, row, fs[k])))
    case OrFilter(fs) =>
      FoldPrinted(Connective.Or, seq(|fs|, k requires 0 <= k < |fs| => PrintedTruth(db, row, fs[k])))
    case NotFilter(g) => NegatePrinted(true, PrintedTruth(db, row, g))
    case Undefined => None
  }

  function NegatePrinted(negated: bool, t: Option<Truth>): Option<Truth> {
    if t.None? then None else Some(Negate(negated, t.value))
  }

  /** Every group has a member. */
  ghost predicate NoEmptyGroup(f: QueryFilter)
    decreases f
  {
    match f
    case WhereFilter(entries) => entries != []
    case AndFilter(fs) => fs != [] && forall k :: 0 <= k < |fs| ==> NoEmptyGroup(fs[k])
    case OrFilter(fs) => fs != [] && forall k :: 0 <= k < |fs| ==> NoEmptyGroup(fs[k])
    case NotFilter(g) => NoEmptyGroup(g)
    case Undefined => false
  }

  lemma {:induction false} PrintedWithoutEmptyGroups(db: Database, row: Row, f: QueryFilter)
    requires NoEmptyGroup(f)
    ensures PrintedTruth(db, row, f) == Some(ParsedTruth(db, row, f))
    decreases f
  {
    match f
    case WhereFilter(_) =>
    case AndFilter(fs) => PrintedListWithoutEmptyGroups(db, row, fs, Connective.And);
    case OrFilter(fs) => PrintedListWithoutEmptyGroups(db, row, fs, Connective.Or);
    case NotFilter(g) => PrintedWithoutEmptyGroups(db, row, g);
  }

  lemma {:induction false} PrintedListWithoutEmptyGroups(db: Database, row: Row, fs: seq<QueryFilter>,
                                                         connective: Connective)
    requires fs != [] && forall k :: 0 <= k < |fs| ==> NoEmptyGroup(fs[k])
    ensures FoldPrinted(connective, seq(|fs|, k requires 0 <= k < |fs| => PrintedTruth(db, row, fs[k])))
         == Some(Fold(connective, seq(|fs|, k requires 0 <= k < |fs| => ParsedTruth(db, row, fs[k]))))
    decreases fs
  {
    var ts := seq(|fs|, k requires 0 <= k < |fs| => ParsedTruth(db, row, fs[k]));
    forall k | 0 <= k < |fs| ensures PrintedTruth(db, row, fs[k]) == Some(ts[k]) {
      PrintedWithoutEmptyGroups(db, row, fs[k]);
    }
    assert seq(|fs|, k requires 0 <= k < |fs| => PrintedTruth(db, row, fs[k])) == Printed(ts);
    FoldOfPrinted(connective, ts);
  }

  // ---------------------------------------------------------------- conversion preserves meaning

  lemma EvalSingle<A>(read: Reading<A>, c: Clause<A>)
    ensures Eval(read, [c]) == ClauseTruth(read, c)
  {
    var t := ClauseTruth(read, c);
    assert [c][1..] == [];
    assert Run(read, t, []) == t;
    assert Run(read, None, [c]) == t;
  }

  lemma EntryClauseMeans(db: Database, row: Row, entry: Entry, first: bool, negated: bool,
                         combinator: Option<Connective>)
    requires EntryClause(entry, first, negated, combinator).Success?
    ensures ClauseTruth(Reads(db, row), EntryClause(entry, first, negated, combinator).value)
         == Some(Negate(negated, EntryTruth(db, row, entry)))
  {
    var c := EntryClause(entry, first, negated, combinator).value;
    var inner := c.condition.clauses[0];
    EvalSingle(Reads(db, row), inner);
    if inner.condition.Group? {
      EvalSingle(Reads(db, row), inner.condition.clauses[0]);
    }
  }

  lemma EntriesMean(db: Database, row: Row, entries: seq<Entry>, negated: bool, combinator: Option<Connective>)
    requires entries != [] && WhereClauses(entries, negated, combinator).Success?
    ensures Eval(Reads(db, row), WhereClauses(entries, negated, combinator).value)
         == Some(Negate(negated, ConjAll(EntryTruths(db, row, entries))))
  {
    var ts := EntryTruths(db, row, entries);
    if |entries| == 1 {
      var b := EntryClauses(entries, true, negated, combinator).value;
      EntryClauseMeans(db, row, entries[0], true, negated, combinator);
      assert b == [b[0]];
      EvalSingle(Reads(db, row), b[0]);
      assert ts == [EntryTruth(db, row, entries[0])];
    } else {
      var b := EntryClauses(entries, true, false, Some(Connective.And)).value;
      forall k | 0 <= k < |b| ensures ClauseTruth(Reads(db, row), b[k]) == Some(ts[k]) {
        EntryClauseMeans(db, row, entries[k], k == 0, false, Some(Connective.And));
      }
      EvalFolds(Reads(db, row), Connective.And, b, ts);
      WrappedMeans(db, row, negated, b);
    }
  }

  lemma WrappedMeans(db: Database, row: Row, negated: bool, b: Builder<Atom>)
    ensures Eval(Reads(db, row), Wrapped(negated, b)) == NegatePrinted(negated, Eval(Reads(db, row), b))
  {
    if negated {
      EvalSingle(Reads(db, row), Wrapped(negated, b)[0]);
    }
  }

  /** Main result: what a converted filter adds is answered as the (negated) filter, and prints nothing when it does. */
  lemma {:induction false} ConversionPreservesMeaning(db: Database, row: Row, f: QueryFilter, negated: bool,
                                                      combinator: Option<Connective>)
    requires Clauses(f, negated, combinator).Success?
    ensures Eval(Reads(db, row), Clauses(f, negated, combinator).value)
         == NegatePrinted(negated, PrintedTruth(db, row, f))
    decreases f
  {
    match f
    case WhereFilter(entries) =>
      if entries == [] {
        assert Clauses(f, negated, combinator).value == [];
        assert Eval(Reads(db, row), []) == None;
      } else {
        EntriesMean(db, row, entries, negated, combinator);
      }
    case AndFilter(fs) => ListMeans(db, row, fs, Connective.And, negated);
    case OrFilter(fs) => ListMeans(db, row, fs, Connective.Or, negated);
    case NotFilter(g) => ConversionPreservesMeaning(db, row, g, !negated, combinator);
  }

  lemma {:induction false} ListMeans(db: Database, row: Row, fs: seq<QueryFilter>, connective: Connective,
                                     negated: bool)
    requires ListClauses(fs, connective).Success?
    ensures var ts := seq(|fs|, k requires 0 <= k < |fs| => PrintedTruth(db, row, fs[k]));
      Eval(Reads(db, row), Wrapped(negated, ListClauses(fs, connective).value))
      == NegatePrinted(negated, FoldPrinted(connective, ts))
    decreases fs
  {
    var ts := seq(|fs|, k requires 0 <= k < |fs| => PrintedTruth(db, row, fs[k]));
    var b := ListClauses(fs, connective).value;
    forall k | 0 <= k < |b| ensures ClauseTruth(Reads(db, row), b[k]) == ts[k] {
      ConversionPreservesMeaning(db, row, fs[k], false, Some(connective));
    }
    EvalPrints(Reads(db, row), connective, b, ts);
    WrappedMeans(db, row, negated, b);
  }

  // ---------------------------------------------------------------- parsing preserves meaning

  function InForNotInOp(op: FieldOp): FieldOp {
    if op.NotIn? then In(op.values) else op
  }

  function InForNotInField(field: FieldFilter): FieldFilter {
    FieldFilter(field.key, seq(|field.ops|, k requires 0 <= k < |field.ops| => InForNotInOp(field.ops[k])))
  }

  /** The filter with every `notIn` replaced by `in`. */
  function InForNotIn(f: ApiFilter): ApiFilter {
    match f
    case ApiWhere(fields) =>
      ApiWhere(seq(|fields|, k requires 0 <= k < |fields| => InForNotInField(fields[k])))
    case ApiAnd(fs) => ApiAnd(seq(|fs|, k requires 0 <= k < |fs| => InForNotIn(fs[k])))
    case ApiOr(fs) => ApiOr(seq(|fs|, k requires 0 <= k < |fs| => InForNotIn(fs[k])))
    case ApiNot(g) => ApiNot(InForNotIn(g))
    case Malformed => Malformed
  }

  lemma ParseOpMeans(db: Database, row: Row, key: string, op: FieldOp)
    requires ParseOp(op).Success?
    ensures EntryTruth(db, row, Entry(key, Some(ParseOp(op).value))) == OpTruth(db, row, key, InForNotInOp(op))
  {
  }

  lemma ConjAllOne(ts: seq<Truth>)
    requires |ts| == 1
    ensures ConjAll(ts) == ts[0]
  {
    assert ts[1..] == [];
  }

  lemma ConjAllTwo(ts: seq<Truth>)
    requires |ts| == 2
    ensures ConjAll(ts) == Conj(ts[0], ts[1])
  {
    ConjAllOne(ts[1..]);
  }

  lemma ParseFieldMeans(db: Database, row: Row, field: FieldFilter)
    requires ParseField(field).Success?
    ensures ParsedTruth(db, row, FieldQuery(ParseField(field).value)) == FieldTruth(db, row, InForNotInField(field))
  {
    var parsed := ParseField(field).value;
    var ops := CombinedOps(field.ops).value;
    var swapped := InForNotInField(field);
    var want := seq(|swapped.ops|, k requires 0 <= k < |swapped.ops| => OpTruth(db, row, field.key, swapped.ops[k]));
    assert FieldTruth(db, row, swapped) == ConjAll(want);
    forall k | 0 <= k < |ops|
      ensures EntryTruth(db, row, Entry(field.key, Some(parsed.filters[k]))) ==
        OpTruth(db, row, field.key, InForNotInOp(ops[k]))
    {
      ParseOpMeans(db, row, field.key, ops[k]);
    }
    if |ops| <= 1 {
      var entries := FieldQuery(parsed).entries;
      assert EntryTruths(db, row, entries) == [EntryTruth(db, row, entries[0])];
      ConjAllOne(EntryTruths(db, row, entries));
      if |ops| == 1 {
        ConjAllOne(want);
      }
    } else {
      RangeMeans(db, row, parsed);
      ConjAllTwo(want);
    }
  }

  lemma RangeMeans(db: Database, row: Row, parsed: ParsedField)
    requires |parsed.filters| == 2
    ensures ParsedTruth(db, row, FieldQuery(parsed))
         == Conj(EntryTruth(db, row, Entry(parsed.key, Some(parsed.filters[0]))),
                 EntryTruth(db, row, Entry(parsed.key, Some(parsed.filters[1]))))
  {
    var fs := FieldQuery(parsed).filters;
    var ts := seq(|fs|, k requires 0 <= k < |fs| => ParsedTruth(db, row, fs[k]));
    assert ParsedTruth(db, row, FieldQuery(parsed)) == ConjAll(ts);
    forall k | 0 <= k < 2 ensures ts[k] == EntryTruth(db, row, Entry(parsed.key, Some(parsed.filters[k]))) {
      ConjAllOne(EntryTruths(db, row, fs[k].entries));
    }
    ConjAllTwo(ts);
  }

  lemma {:induction false} ParsingPreservesMeaning(db: Database, row: Row, f: ApiFilter)
    requires ParseQueryFilters(f).Success?
    ensures ParsedTruth(db, row, ParseQueryFilters(f).value) == ApiTruth(db, row, InForNotIn(f))
  {
    match f
    case ApiWhere(fields) => ParseWhereMeans(db, row, fields);
    case ApiAnd(fs) => ParseListMeans(db, row, fs);
    case ApiOr(fs) => ParseListMeans(db, row, fs);
    case ApiNot(g) => ParsingPreservesMeaning(db, row, g);
    case Malformed =>
  }

  lemma {:induction false} ParseWhereMeans(db: Database, row: Row, fields: seq<FieldFilter>)
    requires ParseFields(fields).Success?
    ensures ParsedTruth(db, row, ParseQueryFilters(ApiWhere(fields)).value) ==
      ApiTruth(db, row, InForNotIn(ApiWhere(fields)))
  {
    var parsed := ParseFields(fields).value;
    var children := seq(|parsed|, k requires 0 <= k < |parsed| => FieldQuery(parsed[k]));
    var swapped := InForNotIn(ApiWhere(fields)).fields;
    var want := seq(|swapped|, k requires 0 <= k < |swapped| => FieldTruth(db, row, swapped[k]));
    assert ApiTruth(db, row, InForNotIn(ApiWhere(fields))) == ConjAll(want);
    forall k | 0 <= k < |children| ensures ParsedTruth(db, row, children[k]) == want[k] {
      ParseFieldMeans(db, row, fields[k]);
    }
    if |children| > 1 {
      assert seq(|children|, k requires 0 <= k < |children| => ParsedTruth(db, row, children[k])) == want;
    } else if |children| == 1 {
      ConjAllOne(want);
    }
  }

  lemma {:induction false} ParseListMeans(db: Database, row: Row, fs: seq<ApiFilter>)
    requires ParseList(fs).Success?
    ensures ParsedTruth(db, row, AndFilter(ParseList(fs).value)) == ApiTruth(db, row, InForNotIn(ApiAnd(fs)))
    ensures ParsedTruth(db, row, OrFilter(ParseList(fs).value)) == ApiTruth(db, row, InForNotIn(ApiOr(fs)))
  {
    var gs := ParseList(fs).value;
    var swapped := InForNotIn(ApiAnd(fs)).filters;
    assert InForNotIn(ApiOr(fs)).filters == swapped;
    forall k | 0 <= k < |fs| ensures ParsedTruth(db, row, gs[k]) == ApiTruth(db, row, swapped[k]) {
      ParsingPreservesMeaning(db, row, fs[k]);
    }
    assert seq(|gs|, k requires 0 <= k < |gs| => ParsedTruth(db, row, gs[k]))
        == seq(|swapped|, k requires 0 <= k < |swapped| => ApiTruth(db, row, swapped[k]));
  }

  // ---------------------------------------------------------------- the whole compilation

  /** The filter without its empty groups; `None` when nothing is left. */
  function Prune(f: ApiFilter): Option<ApiFilter> {
    match f
    case ApiWhere(fields) => if fields == [] then None else Some(f)
    case ApiAnd(fs) => if PruneList(fs) == [] then None else Some(ApiAnd(PruneList(fs)))
    case ApiOr(fs) => if PruneList(fs) == [] then None else Some(ApiOr(PruneList(fs)))
    case ApiNot(g) =>
      var kept := Prune(g);
      if kept.None? then None else Some(ApiNot(kept.value))
    case Malformed => Some(Malformed)
  }

  function PruneList(fs: seq<ApiFilter>): seq<ApiFilter> {
    if fs == [] then [] else
    var kept := Prune(fs[0]);
    (if kept.None? then [] else [kept.value]) + PruneList(fs[1..])
  }

  function PrunedTruth(db: Database, row: Row, f: ApiFilter): Option<Truth> {
    if Prune(f).None? then None else Some(ApiTruth(db, row, Prune(f).value))
  }

  function ApiTruths(db: Database, row: Row, fs: seq<ApiFilter>): seq<Truth> {
    seq(|fs|, k requires 0 <= k < |fs| => ApiTruth(db, row, fs[k]))
  }

  lemma FoldInFront(db: Database, row: Row, f: ApiFilter, fs: seq<ApiFilter>, connective: Connective)
    ensures Fold(connective, ApiTruths(db, row, [f] + fs))
         == Connect(connective, ApiTruth(db, row, f), Fold(connective, ApiTruths(db, row, fs)))
  {
    assert ApiTruths(db, row, [f] + fs)[1..] == ApiTruths(db, row, fs);
  }

  lemma {:induction false} FoldOfPruned(db: Database, row: Row, fs: seq<ApiFilter>, connective: Connective)
    ensures FoldPrinted(connective, seq(|fs|, k requires 0 <= k < |fs| => PrunedTruth(db, row, fs[k])))
         == if PruneList(fs) == [] then None else Some(Fold(connective, ApiTruths(db, row, PruneList(fs))))
  {
    if fs != [] {
      var ts := seq(|fs|, k requires 0 <= k < |fs| => PrunedTruth(db, row, fs[k]));
      var rest := PruneList(fs[1..]);
      FoldOfPruned(db, row, fs[1..], connective);
      assert ts[1..] == seq(|fs[1..]|, k requires 0 <= k < |fs[1..]| => PrunedTruth(db, row, fs[1..][k]));
      if Prune(fs[0]).None? {
        assert PruneList(fs) == rest;
      } else {
        FoldInFront(db, row, Prune(fs[0]).value, rest, connective);
        assert rest == [] ==> Fold(connective, ApiTruths(db, row, rest)) == if connective.And? then Yes else No;
      }
    }
  }

  /** A parsed filter prints what is left of the API filter without its empty groups. */
  lemma {:induction false} PrintsPruned(db: Database, row: Row, f: ApiFilter)
    requires ParseQueryFilters(f).Success?
    ensures PrintedTruth(db, row, ParseQueryFilters(f).value) == PrunedTruth(db, row, InForNotIn(f))
  {
    match f
    case ApiWhere(fields) =>
      if fields != [] {
        ParsedWhereHasNoEmptyGroup(fields);
        PrintedWithoutEmptyGroups(db, row, ParseQueryFilters(f).value);
        ParsingPreservesMeaning(db, row, f);
      }
    case ApiAnd(fs) => ListPrintsPruned(db, row, fs, Connective.And);
    case ApiOr(fs) => ListPrintsPruned(db, row, fs, Connective.Or);
    case ApiNot(g) => PrintsPruned(db, row, g);
    case Malformed =>
  }

  lemma {:induction false} ListPrintsPruned(db: Database, row: Row, fs: seq<ApiFilter>, connective: Connective)
    requires ParseList(fs).Success?
    ensures var gs, swapped := ParseList(fs).value, InForNotIn(ApiAnd(fs)).filters;
      && InForNotIn(ApiOr(fs)).filters == swapped
      && FoldPrinted(connective, seq(|gs|, k requires 0 <= k < |gs| => PrintedTruth(db, row, gs[k])))
         == if PruneList(swapped) == [] then None else Some(Fold(connective, ApiTruths(db, row, PruneList(swapped))))
  {
    var gs, swapped := ParseList(fs).value, InForNotIn(ApiAnd(fs)).filters;
    forall k | 0 <= k < |fs| ensures PrintedTruth(db, row, gs[k]) == PrunedTruth(db, row, swapped[k]) {
      PrintsPruned(db, row, fs[k]);
    }
    assert seq(|gs|, k requires 0 <= k < |gs| => PrintedTruth(db, row, gs[k]))
        == seq(|swapped|, k requires 0 <= k < |swapped| => PrunedTruth(db, row, swapped[k]));
    FoldOfPruned(db, row, swapped, connective);
  }

  lemma ParsedWhereHasNoEmptyGroup(fields: seq<FieldFilter>)
    requires fields != [] && ParseFields(fields).Success?
    ensures NoEmptyGroup(ParseQueryFilters(ApiWhere(fields)).value)
  {
    var parsed := ParseFields(fields).value;
    forall k | 0 <= k < |parsed| ensures NoEmptyGroup(FieldQuery(parsed[k])) {
    }
  }

  /** `applyFilters`: the conditions that a query gets for a filter, in one group. */
  function Compile(f: ApiFilter): Result<Builder<Atom>, string> {
    var parsed :- ParseQueryFilters(f);
    var clauses :- FilterClauses(parsed);
    Success([Clause(Connective.And, false, Group(clauses))])
  }

  /** A query without conditions selects every row; otherwise they have to be true. */
  predicate Selects(db: Database, row: Row, b: Builder<Atom>) {
    var t := Eval(Reads(db, row), b);
    t.None? || t.value.Yes?
  }

  /**
   Main result: a compiled filter selects the rows for which it is true, with `in` for `notIn` and
   without its empty groups; when nothing is left it selects every row.
   */
  lemma CompilationPreservesMeaning(db: Database, row: Row, f: ApiFilter)
    requires Compile(f).Success?
    ensures Selects(db, row, Compile(f).value) <==>
              PrunedTruth(db, row, InForNotIn(f)).None? || PrunedTruth(db, row, InForNotIn(f)) == Some(Yes)
  {
    var parsed := ParseQueryFilters(f).value;
    PrintsPruned(db, row, f);
    EvalSingle(Reads(db, row), Compile(f).value[0]);
    if parsed.Undefined? {
      assert Eval<Atom>(Reads(db, row), []) == None;
    } else {
      ConversionPreservesMeaning(db, row, parsed, false, None);
    }
  }

  ghost predicate UsesNotIn(f: ApiFilter) {
    match f
    case ApiWhere(fields) =>
      exists k, l :: 0 <= k < |fields| && 0 <= l < |fields[k].ops| && fields[k].ops[l].NotIn?
    case ApiAnd(fs) => exists k :: 0 <= k < |fs| && UsesNotIn(fs[k])
    case ApiOr(fs) => exists k :: 0 <= k < |fs| && UsesNotIn(fs[k])
    case ApiNot(g) => UsesNotIn(g)
    case Malformed => false
  }

  lemma {:induction false} NothingToReplace(f: ApiFilter)
    ensures InForNotIn(f) == f <==> !UsesNotIn(f)
  {
    match f
    case ApiWhere(fields) =>
      if !UsesNotIn(f) {
        forall k | 0 <= k < |fields| ensures InForNotInField(fields[k]) == fields[k] {
          assert InForNotInField(fields[k]).ops == fields[k].ops;
        }
        assert InForNotIn(f).fields == fields;
      } else {
        var k, l :| 0 <= k < |fields| && 0 <= l < |fields[k].ops| && fields[k].ops[l].NotIn?;
        assert InForNotIn(f).fields[k].ops[l] != fields[k].ops[l];
      }
    case ApiAnd(fs) => NothingToReplaceIn(fs);
    case ApiOr(fs) => NothingToReplaceIn(fs);
    case ApiNot(g) => NothingToReplace(g);
    case Malformed =>
  }

  lemma {:induction false} NothingToReplaceIn(fs: seq<ApiFilter>)
    ensures InForNotIn(ApiAnd(fs)).filters == InForNotIn(ApiOr(fs)).filters
    ensures InForNotIn(ApiAnd(fs)).filters == fs <==> !exists k :: 0 <= k < |fs| && UsesNotIn(fs[k])
  {
    forall k | 0 <= k < |fs| ensures InForNotIn(ApiAnd(fs)).filters[k] == fs[k] <==> !UsesNotIn(fs[k]) {
      NothingToReplace(fs[k]);
    }
  }

  /** A `notIn` condition is answered correctly exactly on the rows where the field is NULL. */
  lemma NotInIsCompiledAsIn(db: Database, row: Row, key: string, vs: seq<Value>)
    requires vs != []
    ensures var f := ApiWhere([FieldFilter(key, [NotIn(vs)])]);
      Compile(f).Success? && ((Selects(db, row, Compile(f).value) <==> ApiTruth(db, row, f).Yes?) <==> key !in row)
  {
    var field := FieldFilter(key, [NotIn(vs)]);
    var f := ApiWhere([field]);
    assert field.ops[1..] == [] && f.fields[1..] == [];
    assert ParseOps([]).Success? && ParseOps(field.ops).Success?;
    assert ParseFields([]).Success? && ParseFields(f.fields).Success?;
    var entries := ParseQueryFilters(f).value.entries;
    assert entries[1..] == [] && EntryClauses([], false, false, None).Success?;
    assert EntryClauses(entries, true, false, None).Success?;
    CompilationPreservesMeaning(db, row, f);
    assert Prune(InForNotIn(f)) == Some(InForNotIn(f));
    WhereOneOp(db, row, key, NotIn(vs));
    WhereOneOp(db, row, key, In(vs));
    var swapped := InForNotIn(f).fields;
    assert swapped[0].ops == [In(vs)];
    assert swapped == [FieldFilter(key, [In(vs)])];
  }

  lemma WhereOneOp(db: Database, row: Row, key: string, op: FieldOp)
    ensures ApiTruth(db, row, ApiWhere([FieldFilter(key, [op])])) == OpTruth(db, row, key, op)
  {
    var field := FieldFilter(key, [op]);
    ConjAllOne(seq(|field.ops|, k requires 0 <= k < |field.ops| => OpTruth(db, row, field.key, field.ops[k])));
    var fields := [field];
    ConjAllOne(seq(|fields|, k requires 0 <= k < |fields| => FieldTruth(db, row, fields[k])));
  }
}
