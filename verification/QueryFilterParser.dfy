/**
 From the filters of the API to a tree of single-field conditions
 (packages/indexing/src/query-filter-parser.ts).
 */
module QueryFilterParser {
  import opened Wrappers
  import opened Knex

  // ---------------------------------------------------------------- rows and elementary conditions

  datatype Value = VBoolean(boolean: bool) | VNumber(number: real) | VString(text: string)

  datatype ValueType = BooleanType | NumberType | StringType

  function ValueTypeOf(v: Value): ValueType {
    match v case VBoolean(_) => BooleanType case VNumber(_) => NumberType case VString(_) => StringType
  }

  datatype Sign = Eq | Ne | Lt | Le | Gt | Ge

  /** How the database casts a content field and orders values. */
  datatype Database = Database(cast: (Value, ValueType) -> Value, less: (Value, Value) -> bool)

  /** The content of an indexed document; a missing field is NULL. */
  type Row = map<string, Value>

  predicate Holds(db: Database, a: Value, sign: Sign, b: Value) {
    match sign
    case Eq => a == b
    case Ne => a != b
    case Lt => db.less(a, b)
    case Le => db.less(a, b) || a == b
    case Gt => db.less(b, a)
    case Ge => db.less(b, a) || a == b
  }

  function Decide(b: bool): Truth {
    if b then Yes else No
  }

  function NullTruth(row: Row, key: string, isNull: bool): Truth {
    Decide((key !in row) == isNull)
  }

  function CompareTruth(db: Database, row: Row, key: string, sign: Sign, v: Value): Truth {
    if key !in row then Unknown else Decide(Holds(db, db.cast(row[key], ValueTypeOf(v)), sign, v))
  }

  function InTruth(db: Database, row: Row, key: string, tpe: ValueType, vs: seq<Value>): Truth {
    if key !in row then Unknown else Decide(db.cast(row[key], tpe) in vs)
  }

  // ---------------------------------------------------------------- filters of the API

  datatype FieldOp =
    | IsNull(isNull: bool)
    | EqualTo(value: Value)
    | NotEqualTo(value: Value)
    | LessThan(value: Value)
    | LessThanOrEqualTo(value: Value)
    | GreaterThan(value: Value)
    | GreaterThanOrEqualTo(value: Value)
    | In(values: seq<Value>)
    | NotIn(values: seq<Value>)
    | UnknownOp(name: string)

  datatype FieldFilter = FieldFilter(key: string, ops: seq<FieldOp>)

  /** `Malformed`: an object with several of the four keys, or with none. */
  datatype ApiFilter =
    | ApiWhere(fields: seq<FieldFilter>)
    | ApiAnd(filters: seq<ApiFilter>)
    | ApiOr(filters: seq<ApiFilter>)
    | ApiNot(filter: ApiFilter)
    | Malformed

  /** What the API documents an operator to mean on a row. */
  function OpTruth(db: Database, row: Row, key: string, op: FieldOp): Truth {
    match op
    case IsNull(isNull) => NullTruth(row, key, isNull)
    case EqualTo(v) => CompareTruth(db, row, key, Eq, v)
    case NotEqualTo(v) => CompareTruth(db, row, key, Ne, v)
    case LessThan(v) => CompareTruth(db, row, key, Lt, v)
    case LessThanOrEqualTo(v) => CompareTruth(db, row, key, Le, v)
    case GreaterThan(v) => CompareTruth(db, row, key, Gt, v)
    case GreaterThanOrEqualTo(v) => CompareTruth(db, row, key, Ge, v)
    case In(vs) => if vs == [] then No else InTruth(db, row, key, ValueTypeOf(vs[0]), vs)
    case NotIn(vs) => if vs == [] then Yes else Not(InTruth(db, row, key, ValueTypeOf(vs[0]), vs))
    case UnknownOp(_) => Unknown
  }

  function FieldTruth(db: Database, row: Row, field: FieldFilter): Truth {
    ConjAll(seq(|field.ops|, k requires 0 <= k < |field.ops| => OpTruth(db, row, field.key, field.ops[k])))
  }

  /** The documented meaning of a filter: every operator of every field, and the usual connectives. */
  function ApiTruth(db: Database, row: Row, f: ApiFilter): Truth {
    match f
    case ApiWhere(fields) =>
      ConjAll(seq(|fields|, k requires 0 <= k < |fields| => FieldTruth(db, row, fields[k])))
    case ApiAnd(fs) => ConjAll(seq(|fs|, k requires 0 <= k < |fs| => ApiTruth(db, row, fs[k])))
    case ApiOr(fs) => DisjAll(seq(|fs|, k requires 0 <= k < |fs| => ApiTruth(db, row, fs[k])))
    case ApiNot(g) => Not(ApiTruth(db, row, g))
    case Malformed => Unknown
  }

  // ---------------------------------------------------------------- parsed filters

  datatype Op =
    | NullOp(isNull: bool)
    | CompareOp(sign: Sign, value: Value)
    | InOp(values: seq<Value>)
    | NinOp(values: seq<Value>)

  datatype ValueFilter = ValueFilter(tpe: ValueType, op: Op)

  /** A field and its filter, which is `undefined` when the field had no operator. */
  datatype Entry = Entry(key: string, filter: Option<ValueFilter>)

  datatype QueryFilter =
    | WhereFilter(entries: seq<Entry>)
    | AndFilter(filters: seq<QueryFilter>)
    | OrFilter(filters: seq<QueryFilter>)
    | NotFilter(filter: QueryFilter)
    | Undefined

  datatype ParsedField = ParsedField(key: string, filters: seq<ValueFilter>)

  predicate IsGreater(op: FieldOp) {
    op.GreaterThan? || op.GreaterThanOrEqualTo?
  }

  predicate IsLess(op: FieldOp) {
    op.LessThan? || op.LessThanOrEqualTo?
  }

  /** Several operators on one field must be the two ends of a range; they are sorted by name.
      An unknown operator ends in an error, here or when it is parsed. */
  function CombinedOps(ops: seq<FieldOp>): Result<seq<FieldOp>, string> {
    if |ops| <= 1 then Success(ops)
    else if |ops| > 2 then Failure("Cannot combine more than 2 value filters")
    else if IsGreater(ops[0]) && IsLess(ops[1]) then Success(ops)
    else if IsLess(ops[0]) && IsGreater(ops[1]) then Success([ops[1], ops[0]])
    else Failure("Can only combine value filters representing valid range boundaries")
  }

  function ParseOp(op: FieldOp): Result<ValueFilter, string> {
    match op
    case IsNull(isNull) => Success(ValueFilter(BooleanType, NullOp(isNull)))
    case EqualTo(v) => Success(ValueFilter(ValueTypeOf(v), CompareOp(Eq, v)))
    case NotEqualTo(v) => Success(ValueFilter(ValueTypeOf(v), CompareOp(Ne, v)))
    case LessThan(v) => Success(ValueFilter(ValueTypeOf(v), CompareOp(Lt, v)))
    case LessThanOrEqualTo(v) => Success(ValueFilter(ValueTypeOf(v), CompareOp(Le, v)))
    case GreaterThan(v) => Success(ValueFilter(ValueTypeOf(v), CompareOp(Gt, v)))
    case GreaterThanOrEqualTo(v) => Success(ValueFilter(ValueTypeOf(v), CompareOp(Ge, v)))
    case In(vs) =>
      if vs == [] then Failure("In query specified without array values")
      else Success(ValueFilter(ValueTypeOf(vs[0]), InOp(vs)))
    case NotIn(vs) =>
      if vs == [] then Failure("Not In query specified without array values")
      else Success(ValueFilter(ValueTypeOf(vs[0]), NinOp(vs)))
    case UnknownOp(name) => Failure("Invalid op " + name)
  }

  function ParseOps(ops: seq<FieldOp>): (r: Result<seq<ValueFilter>, string>)
    ensures r.Success? ==> |r.value| == |ops|
    ensures r.Success? ==> forall k :: 0 <= k < |ops| ==> ParseOp(ops[k]) == Success(r.value[k])
  {
    if ops == [] then Success([]) else
    var first :- ParseOp(ops[0]);
    var rest :- ParseOps(ops[1..]);
    Success([first] + rest)
  }

  function ParseField(field: FieldFilter): Result<ParsedField, string> {
    var ops :- CombinedOps(field.ops);
    var filters :- ParseOps(ops);
    Success(ParsedField(field.key, filters))
  }

  function ParseFields(fields: seq<FieldFilter>): (r: Result<seq<ParsedField>, string>)
    ensures r.Success? ==> |r.value| == |fields|
    ensures r.Success? ==> forall k :: 0 <= k < |fields| ==> ParseField(fields[k]) == Success(r.value[k])
  {
    if fields == [] then Success([]) else
    var first :- ParseField(fields[0]);
    var rest :- ParseFields(fields[1..]);
    Success([first] + rest)
  }

  method ParseObjectFilter(filter: seq<FieldFilter>) returns (r: Result<seq<ParsedField>, string>)
    ensures r == ParseFields(filter)
  {
    var entries: seq<ParsedField> := [];
    assert filter[0..] == filter;
    for k := 0 to |filter|
      invariant ParseFields(filter) == Prepend(entries, ParseFields(filter[k..]))
    {
      assert filter[k..][0] == filter[k] && filter[k..][1..] == filter[k + 1..];
      var childKeys :- ValidateCombinedOps(filter[k].ops);
      var pushed :- ParseChildFilters(childKeys);
      ghost var rest := ParseFields(filter[k + 1..]);
      if rest.Success? {
        PrependNext(entries, ParsedField(filter[k].key, pushed), rest);
      }
      entries := entries + [ParsedField(filter[k].key, pushed)];
    }
    return Success(entries);
  }

  /** The inner loop of `parseObjectFilter`, over the operators of one field. */
  method ParseChildFilters(childKeys: seq<FieldOp>) returns (r: Result<seq<ValueFilter>, string>)
    ensures r == ParseOps(childKeys)
  {
    var pushed: seq<ValueFilter> := [];
    assert childKeys[0..] == childKeys;
    for l := 0 to |childKeys|
      invariant ParseOps(childKeys) == Prepend(pushed, ParseOps(childKeys[l..]))
    {
      assert childKeys[l..][0] == childKeys[l] && childKeys[l..][1..] == childKeys[l + 1..];
      var child :- ParseOp(childKeys[l]);
      ghost var rest := ParseOps(childKeys[l + 1..]);
      if rest.Success? {
        PrependNext(pushed, child, rest);
      }
      pushed := pushed + [child];
    }
    return Success(pushed);
  }

  /** The result of a loop that has collected `done` and still has `rest` to come. */
  ghost function Prepend<T>(done: seq<T>, rest: Result<seq<T>, string>): (r: Result<seq<T>, string>)
    ensures done == [] ==> r == rest
    ensures rest == Success([]) ==> r == Success(done)
  {
    if rest.Failure? then rest else
    assert done == [] ==> done + rest.value == rest.value;
    assert rest.value == [] ==> done + rest.value == done;
    Success(done + rest.value)
  }

  lemma PrependNext<T>(done: seq<T>, next: T, rest: Result<seq<T>, string>)
    requires rest.Success?
    ensures Prepend(done, Success([next] + rest.value)) == Prepend(done + [next], rest)
  {
    assert done + ([next] + rest.value) == (done + [next]) + rest.value;
  }

  /** The alphabetical position of an operator name among the known ones. */
  function NameRank(op: FieldOp): nat {
    match op
    case EqualTo(_) => 0 case GreaterThan(_) => 1 case GreaterThanOrEqualTo(_) => 2 case In(_) => 3
    case IsNull(_) => 4 case LessThan(_) => 5 case LessThanOrEqualTo(_) => 6 case NotEqualTo(_) => 7
    case NotIn(_) => 8 case UnknownOp(_) => 9
  }

  method ValidateCombinedOps(childKeys: seq<FieldOp>) returns (r: Result<seq<FieldOp>, string>)
    ensures r == CombinedOps(childKeys)
  {
    var ops := childKeys;
    if |ops| <= 1 {
      return Success(ops);
    }
    if |ops| > 2 {
      return Failure("Cannot combine more than 2 value filters");
    }
    if NameRank(ops[1]) < NameRank(ops[0]) {
      ops := [ops[1], ops[0]];
    }
    if !IsGreater(ops[0]) || !IsLess(ops[1]) {
      return Failure("Can only combine value filters representing valid range boundaries");
    }
    return Success(ops);
  }

  function FieldQuery(field: ParsedField): QueryFilter {
    if |field.filters| > 1 then
      AndFilter(seq(|field.filters|, k requires 0 <= k < |field.filters| =>
                      WhereFilter([Entry(field.key, Some(field.filters[k]))])))
    else
      WhereFilter([Entry(field.key, if field.filters == [] then None else Some(field.filters[0]))])
  }

  function ParseQueryFilters(f: ApiFilter): Result<QueryFilter, string> {
    match f
    case ApiWhere(fields) =>
      var parsed :- ParseFields(fields);
      var children := seq(|parsed|, k requires 0 <= k < |parsed| => FieldQuery(parsed[k]));
      Success(if |children| > 1 then AndFilter(children) else if |children| == 1 then children[0] else Undefined)
    case ApiAnd(fs) =>
      var filters :- ParseList(fs);
      Success(AndFilter(filters))
    case ApiOr(fs) =>
      var filters :- ParseList(fs);
      Success(OrFilter(filters))
    case ApiNot(g) =>
      var filter :- ParseQueryFilters(g);
      Success(NotFilter(filter))
    case Malformed => Failure("Invalid query")
  }

  function ParseList(fs: seq<ApiFilter>): (r: Result<seq<QueryFilter>, string>)
    ensures r.Success? ==> |r.value| == |fs|
    ensures r.Success? ==> forall k :: 0 <= k < |fs| ==> ParseQueryFilters(fs[k]) == Success(r.value[k])
  {
    if fs == [] then Success([]) else
    var first :- ParseQueryFilters(fs[0]);
    var rest :- ParseList(fs[1..]);
    Success([first] + rest)
  }
}
