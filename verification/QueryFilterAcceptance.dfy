/** Which filters of the API compile, and that all others make the query fail. */
module QueryFilterAcceptance {
  import opened Wrappers
  import opened Knex
  import opened QueryFilterParser
  import opened QueryFilterConverter
  import opened QueryFilterMeaning

  predicate OpAccepted(op: FieldOp) {
    match op
    case In(vs) => vs != []
    case NotIn(vs) => vs != []
    case UnknownOp(_) => false
    case _ => true
  }

  predicate FieldAccepted(field: FieldFilter) {
    && (forall k :: 0 <= k < |field.ops| ==> OpAccepted(field.ops[k]))
    && (|field.ops| == 1
        || (|field.ops| == 2 && exists k :: 0 <= k < 2 && IsGreater(field.ops[k]) && IsLess(field.ops[1 - k])))
  }

  /** One accepted operator or a range per field, no empty `where` except as the whole filter. */
  predicate Accepted(f: ApiFilter) {
    match f
    case ApiWhere(fields) => fields != [] && forall k :: 0 <= k < |fields| ==> FieldAccepted(fields[k])
    case ApiAnd(fs) => forall k :: 0 <= k < |fs| ==> Accepted(fs[k])
    case ApiOr(fs) => forall k :: 0 <= k < |fs| ==> Accepted(fs[k])
    case ApiNot(g) => Accepted(g)
    case Malformed => false
  }

  lemma {:induction false} ParseOpsAccepts(ops: seq<FieldOp>)
    ensures ParseOps(ops).Success? <==> forall k :: 0 <= k < |ops| ==> OpAccepted(ops[k])
  {
    if ops != [] {
      ParseOpsAccepts(ops[1..]);
      assert forall k :: 1 <= k < |ops| ==> ops[k] == ops[1..][k - 1];
      assert ParseOp(ops[0]).Success? <==> OpAccepted(ops[0]);
    }
  }

  /** The parsed filters for which `convert` does not throw. */
  ghost predicate Convertible(f: QueryFilter)
    decreases f
  {
    match f
    case WhereFilter(entries) => forall k :: 0 <= k < |entries| ==> EntryConvertible(entries[k])
    case AndFilter(fs) => forall k :: 0 <= k < |fs| ==> Convertible(fs[k])
    case OrFilter(fs) => forall k :: 0 <= k < |fs| ==> Convertible(fs[k])
    case NotFilter(g) => Convertible(g)
    case Undefined => false
  }

  predicate EntryConvertible(entry: Entry) {
    entry.filter.Some? && FilterConvertible(entry.filter.value)
  }

  predicate FilterConvertible(filter: ValueFilter) {
    filter.op.InOp? || filter.op.NinOp? ==> filter.op.values != []
  }

  lemma {:induction false} EntriesConvert(entries: seq<Entry>, first: bool, negated: bool,
                                          combinator: Option<Connective>)
    ensures EntryClauses(entries, first, negated, combinator).Success?
       <==> forall k :: 0 <= k < |entries| ==> EntryConvertible(entries[k])
  {
    if entries != [] {
      EntriesConvert(entries[1..], false, negated, combinator);
      assert forall k :: 1 <= k < |entries| ==> entries[k] == entries[1..][k - 1];
      assert EntryClause(entries[0], first, negated, combinator).Success? <==> EntryConvertible(entries[0]);
    }
  }

  lemma {:induction false} ConvertsExactly(f: QueryFilter, negated: bool, combinator: Option<Connective>)
    ensures Clauses(f, negated, combinator).Success? <==> Convertible(f)
    decreases f
  {
    match f
    case WhereFilter(entries) =>
      EntriesConvert(entries, true, negated, combinator);
      EntriesConvert(entries, true, false, Some(Connective.And));
    case AndFilter(fs) => ListConverts(fs, Connective.And);
    case OrFilter(fs) => ListConverts(fs, Connective.Or);
    case NotFilter(g) => ConvertsExactly(g, !negated, combinator);
    case Undefined =>
  }

  lemma {:induction false} ListConverts(fs: seq<QueryFilter>, connective: Connective)
    ensures ListClauses(fs, connective).Success? <==> forall k :: 0 <= k < |fs| ==> Convertible(fs[k])
    decreases fs
  {
    if fs != [] {
      ConvertsExactly(fs[0], false, Some(connective));
      ListConverts(fs[1..], connective);
      assert forall k :: 1 <= k < |fs| ==> fs[k] == fs[1..][k - 1];
    }
  }

  lemma CombinedOpsAccepts(ops: seq<FieldOp>)
    ensures CombinedOps(ops).Success? <==>
      |ops| <= 1 || (|ops| == 2 && exists k :: 0 <= k < 2 && IsGreater(ops[k]) && IsLess(ops[1 - k]))
    ensures CombinedOps(ops).Success? ==> |CombinedOps(ops).value| == |ops|
    ensures CombinedOps(ops).Success? ==>
      ((forall k :: 0 <= k < |ops| ==> OpAccepted(ops[k]))
       <==> (forall k :: 0 <= k < |ops| ==> OpAccepted(CombinedOps(ops).value[k])))
  {
    if |ops| == 2 && IsGreater(ops[0]) && IsLess(ops[1 - 0]) {
    } else if |ops| == 2 && IsGreater(ops[1]) && IsLess(ops[1 - 1]) {
    }
  }

  lemma ParseFieldAccepts(field: FieldFilter)
    ensures FieldAccepted(field) <==> ParseField(field).Success? && Convertible(FieldQuery(ParseField(field).value))
  {
    CombinedOpsAccepts(field.ops);
    if CombinedOps(field.ops).Success? {
      var ops := CombinedOps(field.ops).value;
      ParseOpsAccepts(ops);
      if ParseOps(ops).Success? {
        ParsedFieldConverts(ParseField(field).value);
        assert forall k :: 0 <= k < |ops| ==> FilterConvertible(ParseOp(ops[k]).value);
      }
    }
  }

  lemma ParsedFieldConverts(field: ParsedField)
    ensures Convertible(FieldQuery(field))
       <==> field.filters != [] && forall k :: 0 <= k < |field.filters| ==> FilterConvertible(field.filters[k])
  {
    var q := FieldQuery(field);
    if |field.filters| > 1 {
      forall k | 0 <= k < |field.filters|
        ensures Convertible(q.filters[k]) <==> FilterConvertible(field.filters[k])
      {
        assert q.filters[k].entries == [Entry(field.key, Some(field.filters[k]))];
        assert q.filters[k].entries[0].filter == Some(field.filters[k]);
      }
    } else {
      assert q.entries[0] == Entry(field.key, if field.filters == [] then None else Some(field.filters[0]));
    }
  }

  lemma {:induction false} FieldsAccepted(fields: seq<FieldFilter>)
    ensures (forall k :: 0 <= k < |fields| ==> FieldAccepted(fields[k]))
       <==> ParseFields(fields).Success?
            && forall k :: 0 <= k < |fields| ==> Convertible(FieldQuery(ParseFields(fields).value[k]))
  {
    if fields != [] {
      ParseFieldAccepts(fields[0]);
      FieldsAccepted(fields[1..]);
      assert forall k :: 1 <= k < |fields| ==> fields[k] == fields[1..][k - 1];
      if ParseFields(fields).Success? {
        assert forall k :: 1 <= k < |fields| ==> ParseFields(fields).value[k] == ParseFields(fields[1..]).value[k - 1];
      }
    }
  }

  lemma AcceptedWhere(fields: seq<FieldFilter>)
    ensures Accepted(ApiWhere(fields)) <==>
      ParseQueryFilters(ApiWhere(fields)).Success? && Convertible(ParseQueryFilters(ApiWhere(fields)).value)
  {
    FieldsAccepted(fields);
    if ParseFields(fields).Success? {
      var parsed := ParseFields(fields).value;
      var children := seq(|parsed|, k requires 0 <= k < |parsed| => FieldQuery(parsed[k]));
      assert forall k :: 0 <= k < |fields| ==> children[k] == FieldQuery(parsed[k]);
      if |children| > 1 {
        assert ParseQueryFilters(ApiWhere(fields)) == Success(AndFilter(children));
      } else if |children| == 1 {
        assert ParseQueryFilters(ApiWhere(fields)) == Success(children[0]);
      } else {
        assert ParseQueryFilters(ApiWhere(fields)) == Success(Undefined);
      }
    }
  }

  lemma {:induction false} AcceptedList(fs: seq<ApiFilter>)
    ensures (forall k :: 0 <= k < |fs| ==> Accepted(fs[k]))
       <==> ParseList(fs).Success? && forall k :: 0 <= k < |fs| ==> Convertible(ParseList(fs).value[k])
    decreases fs
  {
    if fs != [] {
      AcceptedNested(fs[0]);
      AcceptedList(fs[1..]);
      assert forall k :: 1 <= k < |fs| ==> fs[k] == fs[1..][k - 1];
      if ParseList(fs).Success? {
        assert forall k :: 1 <= k < |fs| ==> ParseList(fs).value[k] == ParseList(fs[1..]).value[k - 1];
      }
    }
  }

  lemma {:induction false} AcceptedNested(f: ApiFilter)
    ensures Accepted(f) <==> ParseQueryFilters(f).Success? && Convertible(ParseQueryFilters(f).value)
    decreases f
  {
    match f
    case ApiWhere(fields) => AcceptedWhere(fields);
    case ApiAnd(fs) => AcceptedList(fs);
    case ApiOr(fs) => AcceptedList(fs);
    case ApiNot(g) => AcceptedNested(g);
    case Malformed =>
  }

  /** Exactly the accepted filters compile; every other one makes the query fail. */
  lemma CompilesExactly(f: ApiFilter)
    ensures Compile(f).Success? <==> Accepted(f) || f == ApiWhere([])
  {
    AcceptedNested(f);
    if ParseQueryFilters(f).Success? {
      ConvertsExactly(ParseQueryFilters(f).value, false, None);
    }
  }
}
