/**
 From a parsed filter to conditions on a query builder
 (packages/indexing/src/query-filter-converter.ts). A conversion returns a function that will add
 the conditions later; negation is carried down as a flag.
 */
module QueryFilterConverter {
  import opened Wrappers
  import opened Knex
  import opened QueryFilterParser

  /** The raw SQL conditions. */
  datatype Atom =
    | NullAtom(key: string, isNull: bool)
    | CompareAtom(key: string, sign: Sign, value: Value)
    | InAtom(key: string, tpe: ValueType, negated: bool, values: seq<Value>)

  function AtomTruth(db: Database, row: Row, atom: Atom): Truth {
    match atom
    case NullAtom(key, isNull) => NullTruth(row, key, isNull)
    case CompareAtom(key, sign, v) => CompareTruth(db, row, key, sign, v)
    case InAtom(key, tpe, negated, vs) => Negate(negated, InTruth(db, row, key, tpe, vs))
  }

  function Reads(db: Database, row: Row): Reading<Atom> {
    atom => AtomTruth(db, row, atom)
  }

  datatype ConvertedQueryFilter = ConvertedQueryFilter(select: seq<string>, where: WhereFunc<Atom>)

  /** A filter with the combinator it stands under, if any, and whether it is negated. */
  datatype ConversionState = ConversionState(filter: QueryFilter, combinator: Option<Connective>, negated: bool)

  // ---------------------------------------------------------------- what the conversion adds

  function Joined(first: bool, combinator: Option<Connective>): Connective {
    if !first && combinator == Some(Connective.Or) then Connective.Or else Connective.And
  }

  /** The one condition that `handleQuery` adds: a group around a group around the raw condition. */
  function QueryClause(atom: Atom, first: bool, negated: bool, combinator: Option<Connective>): Clause<Atom> {
    Clause(Connective.And, negated,
           Group([Clause(Joined(first, combinator), false, Group([Clause(Connective.And, false, Raw(atom))]))]))
  }

  /** The one condition that `handleIn` adds. */
  function InClause(atom: Atom, first: bool, combinator: Option<Connective>): Clause<Atom> {
    Clause(Joined(first, combinator), false, Group([Clause(Connective.And, false, Raw(atom))]))
  }

  function EntryClause(entry: Entry, first: bool, negated: bool,
                       combinator: Option<Connective>): Result<Clause<Atom>, string> {
    if entry.filter.None? then Failure("Cannot read properties of undefined") else
    match entry.filter.value.op
    case NullOp(isNull) => Success(QueryClause(NullAtom(entry.key, isNull), first, negated, combinator))
    case CompareOp(sign, v) => Success(QueryClause(CompareAtom(entry.key, sign, v), first, negated, combinator))
    case InOp(vs) => InEntry(entry.key, entry.filter.value.tpe, vs, first, negated, combinator)
    case NinOp(vs) => InEntry(entry.key, entry.filter.value.tpe, vs, first, negated, combinator)
  }

  function InEntry(key: string, tpe: ValueType, vs: seq<Value>, first: bool, negated: bool,
                   combinator: Option<Connective>): Result<Clause<Atom>, string>
  {
    if vs == [] then Failure("Expected an array with at least one item")
    else Success(InClause(InAtom(key, tpe, negated, vs), first, combinator))
  }

  function EntryClauses(entries: seq<Entry>, first: bool, negated: bool, combinator: Option<Connective>)
    : (r: Result<Builder<Atom>, string>)
    ensures r.Success? ==> |r.value| == |entries|
    ensures r.Success? ==> forall k :: 0 <= k < |entries| ==>
      EntryClause(entries[k], first && k == 0, negated, combinator) == Success(r.value[k])
  {
    if entries == [] then Success([]) else
    var head :- EntryClause(entries[0], first, negated, combinator);
    var tail :- EntryClauses(entries[1..], false, negated, combinator);
    Success([head] + tail)
  }

  function Wrapped(negated: bool, b: Builder<Atom>): Builder<Atom> {
    if negated then [Clause(Connective.And, true, Group(b))] else b
  }

  /** Several keys are joined by AND and negated as a whole. */
  function WhereClauses(entries: seq<Entry>, negated: bool,
                        combinator: Option<Connective>): Result<Builder<Atom>, string> {
    if |entries| > 1 then
      var b :- EntryClauses(entries, true, false, Some(Connective.And));
      Success(Wrapped(negated, b))
    else EntryClauses(entries, true, negated, combinator)
  }

  /** All the conditions that the function returned by `convert` adds to a builder. */
  function Clauses(f: QueryFilter, negated: bool, combinator: Option<Connective>): Result<Builder<Atom>, string>
    decreases f
  {
    match f
    case WhereFilter(entries) => WhereClauses(entries, negated, combinator)
    case AndFilter(fs) =>
      var b :- ListClauses(fs, Connective.And);
      Success(Wrapped(negated, b))
    case OrFilter(fs) =>
      var b :- ListClauses(fs, Connective.Or);
      Success(Wrapped(negated, b))
    case NotFilter(g) => Clauses(g, !negated, combinator)
    case Undefined => Failure("Cannot read properties of undefined")
  }

  /** One group per filter. When the closures run, `first` is already false for all of them. */
  function ListClauses(fs: seq<QueryFilter>, connective: Connective): (r: Result<Builder<Atom>, string>)
    ensures r.Success? ==> |r.value| == |fs|
    ensures r.Success? ==> forall k :: 0 <= k < |fs| ==>
      && Clauses(fs[k], false, Some(connective)).Success?
      && r.value[k] == Clause(connective, false, Group(Clauses(fs[k], false, Some(connective)).value))
    decreases fs
  {
    if fs == [] then Success([]) else
    var head :- Clauses(fs[0], false, Some(connective));
    var tail :- ListClauses(fs[1..], connective);
    Success([Clause(connective, false, Group(head))] + tail)
  }

  function Selected(f: QueryFilter): seq<string>
    decreases f
  {
    match f
    case WhereFilter(entries) => seq(|entries|, k requires 0 <= k < |entries| => entries[k].key)
    case AndFilter(fs) => SelectedList(fs)
    case OrFilter(fs) => SelectedList(fs)
    case NotFilter(g) => Selected(g)
    case Undefined => []
  }

  function SelectedList(fs: seq<QueryFilter>): seq<string>
    decreases fs
  {
    if fs == [] then [] else Selected(fs[0]) + SelectedList(fs[1..])
  }

  // ---------------------------------------------------------------- the conversion itself

  ghost predicate Adds(where: WhereFunc<Atom>, b: Builder<Atom>) {
    forall builder :: where(builder) == builder + b
  }

  /** The result of a conversion that is to add the conditions `spec`. */
  ghost predicate Converts(r: Result<ConvertedQueryFilter, string>, select: seq<string>,
                           spec: Result<Builder<Atom>, string>) {
    if spec.Success? then r.Success? && r.value.select == select && Adds(r.value.where, spec.value)
    else r.Failure?
  }

  function HandleQuery(query: Builder<Atom>, func: WhereFunc<Atom>, first: bool, negated: bool,
                       combinator: Option<Connective>): Builder<Atom>
  {
    var opFunc := (bldr: Builder<Atom>) =>
      if first then Where(bldr, func)
      else if combinator == Some(Connective.Or) then OrWhere(bldr, func)
      else AndWhere(bldr, func);
    if negated then WhereNot(query, opFunc) else Where(query, opFunc)
  }

  function HandleIn(query: Builder<Atom>, atom: Atom, first: bool, combinator: Option<Connective>): Builder<Atom> {
    var inner := (bldr: Builder<Atom>) => WhereRaw(bldr, atom);
    if first then Where(query, inner)
    else if combinator == Some(Connective.Or) then OrWhere(query, inner)
    else AndWhere(query, inner)
  }

  lemma HandleQueryAdds(query: Builder<Atom>, func: WhereFunc<Atom>, atom: Atom, first: bool, negated: bool,
                        combinator: Option<Connective>)
    requires func([]) == [Clause(Connective.And, false, Raw(atom))]
    ensures HandleQuery(query, func, first, negated, combinator)
         == query + [QueryClause(atom, first, negated, combinator)]
  {
    var inner := Clause(Joined(first, combinator), false, Group(func([])));
    assert [] + [inner] == [inner];
  }

  lemma HandleInAdds(query: Builder<Atom>, atom: Atom, first: bool, combinator: Option<Connective>)
    ensures HandleIn(query, atom, first, combinator) == query + [InClause(atom, first, combinator)]
  {
    var raw := Clause(Connective.And, false, Raw(atom));
    assert [] + [raw] == [raw];
  }

  /** The switch of `handleWhereQuery`: extend the closure built so far by one key. */
  method HandleEntry(previous: WhereFunc<Atom>, entry: Entry, isFirst: bool, negated: bool,
                     combinator: Option<Connective>) returns (r: Result<WhereFunc<Atom>, string>)
    ensures var clause := EntryClause(entry, isFirst, negated, combinator);
      if clause.Success? then r.Success? && forall b :: r.value(b) == previous(b) + [clause.value]
      else r.Failure?
  {
    if entry.filter.None? {
      return Failure("Cannot read properties of undefined");
    }
    var key, op := entry.key, entry.filter.value.op;
    if op.NullOp? || op.CompareOp? {
      var atom := if op.NullOp? then NullAtom(key, op.isNull) else CompareAtom(key, op.sign, op.value);
      var func := (b: Builder<Atom>) => WhereRaw(b, atom);
      var where := bldr => HandleQuery(previous(bldr), func, isFirst, negated, combinator);
      forall b ensures where(b) == previous(b) + [QueryClause(atom, isFirst, negated, combinator)] {
        assert func([]) == [Clause(Connective.And, false, Raw(atom))];
        HandleQueryAdds(previous(b), func, atom, isFirst, negated, combinator);
      }
      return Success(where);
    }
    if op.values == [] {
      return Failure("Expected an array with at least one item");
    }
    // For `nin` the source computes the flipped negation and then passes the plain one.
    var atom := InAtom(key, entry.filter.value.tpe, negated, op.values);
    var where := bldr => HandleIn(previous(bldr), atom, isFirst, combinator);
    forall b ensures where(b) == previous(b) + [InClause(atom, isFirst, combinator)] {
      HandleInAdds(previous(b), atom, isFirst, combinator);
    }
    return Success(where);
  }

  /** `whereNot` around everything collected so far. */
  function NegateAll(where: WhereFunc<Atom>, negated: bool): WhereFunc<Atom> {
    if negated then bldr => WhereNot(bldr, where) else where
  }

  lemma NegateAllAdds(where: WhereFunc<Atom>, b: Builder<Atom>, negated: bool)
    requires Adds(where, b)
    ensures Adds(NegateAll(where, negated), Wrapped(negated, b))
  {
    assert where([]) == [] + b == b;
  }

  /** The conditions `all` of a list are those `added` so far and those of the `rest`. */
  ghost predicate Collected(all: Result<Builder<Atom>, string>, added: Builder<Atom>,
                            rest: Result<Builder<Atom>, string>) {
    if rest.Success? then all == Success(added + rest.value) else all.Failure?
  }

  lemma CollectedStart(all: Result<Builder<Atom>, string>)
    ensures Collected(all, [], all)
  {
    assert all.Success? ==> [] + all.value == all.value;
  }

  lemma CollectedEnd(all: Result<Builder<Atom>, string>, added: Builder<Atom>)
    requires Collected(all, added, Success([]))
    ensures all == Success(added)
  {
    assert added + [] == added;
  }

  lemma CollectedNext(all: Result<Builder<Atom>, string>, added: Builder<Atom>, clause: Clause<Atom>,
                      before: Result<Builder<Atom>, string>, rest: Result<Builder<Atom>, string>)
    requires Collected(all, added, before)
    requires if rest.Success? then before == Success([clause] + rest.value) else before.Failure?
    ensures Collected(all, added + [clause], rest)
  {
    if rest.Success? {
      assert added + ([clause] + rest.value) == (added + [clause]) + rest.value;
    }
  }

  lemma AddsNext(before: WhereFunc<Atom>, added: Builder<Atom>, clause: Clause<Atom>, after: WhereFunc<Atom>)
    requires Adds(before, added)
    requires forall b :: after(b) == before(b) + [clause]
    ensures Adds(after, added + [clause])
  {
    forall b ensures after(b) == b + (added + [clause]) {
      assert b + (added + [clause]) == (b + added) + [clause];
    }
  }

  method HandleWhereQuery(entries: seq<Entry>, stateCombinator: Option<Connective>, stateNegated: bool)
    returns (r: Result<ConvertedQueryFilter, string>)
    ensures Converts(r, Selected(WhereFilter(entries)), WhereClauses(entries, stateNegated, stateCombinator))
  {
    // Several keys are combined by "and", and the negation is applied over the and.
    var several := |entries| > 1;
    var combinator := if several then Some(Connective.And) else stateCombinator;
    var negated := if several then false else stateNegated;
    var res :- HandleEntries(entries, negated, combinator);
    ghost var added := EntryClauses(entries, true, negated, combinator).value;
    NegateAllAdds(res.where, added, several && stateNegated);
    return Success(ConvertedQueryFilter(res.select, NegateAll(res.where, several && stateNegated)));
  }

  lemma NextEntry(entries: seq<Entry>, k: nat, first: bool, negated: bool, combinator: Option<Connective>,
                  all: Result<Builder<Atom>, string>, added: Builder<Atom>)
    requires k < |entries| && Collected(all, added, EntryClauses(entries[k..], first, negated, combinator))
    ensures var clause := EntryClause(entries[k], first, negated, combinator);
      if clause.Success?
      then Collected(all, added + [clause.value], EntryClauses(entries[k + 1..], false, negated, combinator))
      else all.Failure?
  {
    assert entries[k..][0] == entries[k] && entries[k..][1..] == entries[k + 1..];
    var clause := EntryClause(entries[k], first, negated, combinator);
    if clause.Success? {
      CollectedNext(all, added, clause.value, EntryClauses(entries[k..], first, negated, combinator),
                    EntryClauses(entries[k + 1..], false, negated, combinator));
    }
  }

  /** The loop of `handleWhereQuery`. */
  method HandleEntries(entries: seq<Entry>, negated: bool, combinator: Option<Connective>)
    returns (r: Result<ConvertedQueryFilter, string>)
    ensures Converts(r, Selected(WhereFilter(entries)), EntryClauses(entries, true, negated, combinator))
  {
    var first := true;
    var where: WhereFunc<Atom> := bldr => bldr;
    var select: seq<string> := [];
    ghost var added: Builder<Atom> := [];
    ghost var keys := Selected(WhereFilter(entries));
    ghost var all := EntryClauses(entries, true, negated, combinator);
    assert entries[0..] == entries;
    CollectedStart(all);
    for k := 0 to |entries|
      invariant first <==> k == 0
      invariant select == keys[..k]
      invariant Adds(where, added)
      invariant Collected(all, added, EntryClauses(entries[k..], first, negated, combinator))
    {
      NextEntry(entries, k, first, negated, combinator, all, added);
      select := select + [entries[k].key];
      ghost var before := where;
      where :- HandleEntry(where, entries[k], first, negated, combinator);
      ghost var clause := EntryClause(entries[k], first, negated, combinator).value;
      AddsNext(before, added, clause, where);
      added := added + [clause];
      first := false;
    }
    CollectedEnd(all, added);
    assert keys[..|entries|] == keys;
    return Success(ConvertedQueryFilter(select, where));
  }

  /** A closure that also reads the loop variable `first`, when it runs. */
  type LateWhereFunc = (bool, Builder<Atom>) -> Builder<Atom>

  method CombineNext(previous: LateWhereFunc, next: WhereFunc<Atom>, combinator: Connective)
    returns (where: LateWhereFunc)
    ensures forall b :: where(false, b) == previous(false, b) + [Clause(combinator, false, Group(next([])))]
  {
    where := (first: bool, bldr: Builder<Atom>) =>
      var b := previous(first, bldr);
      if first then Where(b, next)
      else if combinator.Or? then OrWhere(b, next)
      else AndWhere(b, next);
  }

  method HandleCombinator(filters: seq<QueryFilter>, combinator: Connective, negated: bool)
    returns (r: Result<ConvertedQueryFilter, string>)
    ensures var spec := ListClauses(filters, combinator);
      Converts(r, SelectedList(filters), if spec.Failure? then spec else Success(Wrapped(negated, spec.value)))
    decreases filters
  {
    // The closures share the variable `first`, which is false by the time they run.
    var where: LateWhereFunc := (_, bldr) => bldr;
    var select: seq<string> := [];
    ghost var added: Builder<Atom> := [];
    ghost var all := ListClauses(filters, combinator);
    assert filters[0..] == filters;
    CollectedStart(all);
    for k := 0 to |filters|
      invariant SelectedList(filters) == select + SelectedList(filters[k..])
      invariant Adds(bldr => where(false, bldr), added)
      invariant Collected(all, added, ListClauses(filters[k..], combinator))
    {
      assert filters[k..][0] == filters[k] && filters[k..][1..] == filters[k + 1..];
      var res :- Convert(ConversionState(filters[k], Some(combinator), false));
      select := select + res.select;
      ghost var before := where;
      where := CombineNext(where, res.where, combinator);
      ghost var clauses := Clauses(filters[k], false, Some(combinator)).value;
      ghost var clause := Clause(combinator, false, Group(clauses));
      assert res.where([]) == [] + clauses == clauses;
      AddsNext(bldr => before(false, bldr), added, clause, bldr => where(false, bldr));
      CollectedNext(all, added, clause, ListClauses(filters[k..], combinator),
                    ListClauses(filters[k + 1..], combinator));
      added := added + [clause];
    }
    CollectedEnd(all, added);
    var whereAll: WhereFunc<Atom> := bldr => where(false, bldr);
    // apply negation over the entire query
    NegateAllAdds(whereAll, added, negated);
    whereAll := NegateAll(whereAll, negated);
    return Success(ConvertedQueryFilter(select, whereAll));
  }

  method Convert(state: ConversionState) returns (r: Result<ConvertedQueryFilter, string>)
    ensures Converts(r, Selected(state.filter), Clauses(state.filter, state.negated, state.combinator))
    decreases state.filter
  {
    match state.filter {
      case WhereFilter(entries) =>
        r := HandleWhereQuery(entries, state.combinator, state.negated);
      case AndFilter(fs) =>
        r := HandleCombinator(fs, Connective.And, state.negated);
      case OrFilter(fs) =>
        r := HandleCombinator(fs, Connective.Or, state.negated);
      case NotFilter(g) =>
        r := Convert(state.(filter := g, negated := !state.negated));
      case Undefined =>
        r := Failure("Cannot read properties of undefined");
    }
  }

  /** The conditions of a whole filter; an undefined one adds none. */
  function FilterClauses(f: QueryFilter): Result<Builder<Atom>, string> {
    if f.Undefined? then Success([]) else Clauses(f, false, None)
  }

  method ConvertQueryFilter(filter: QueryFilter) returns (r: Result<ConvertedQueryFilter, string>)
    ensures Converts(r, Selected(filter), FilterClauses(filter))
  {
    if filter.Undefined? {
      return Success(ConvertedQueryFilter([], bldr => bldr));
    }
    r := Convert(ConversionState(filter, None, false));
  }
}
