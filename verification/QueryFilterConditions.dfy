/** What a compiled filter of one condition selects, by its operator and the kind of its value. */
module QueryFilterConditions {
  import opened Wrappers
  import opened Knex
  import opened QueryFilterParser
  import opened QueryFilterConverter
  import opened QueryFilterMeaning
  import opened QueryFilterAcceptance

  /** The field, read as what the value is compared as. */
  function FieldAs(db: Database, row: Row, key: string, v: Value): Value
    requires key in row
  {
    match v
    case VBoolean(_) => db.cast(row[key], BooleanType)
    case VNumber(_) => db.cast(row[key], NumberType)
    case VString(_) => db.cast(row[key], StringType)
  }

  /** The rows with a field for which the comparison holds. */
  predicate Meets(db: Database, row: Row, key: string, op: FieldOp)
    requires OpAccepted(op)
  {
    match op
    case IsNull(isNull) => if isNull then key !in row else key in row
    case EqualTo(v) => key in row && FieldAs(db, row, key, v) == v
    case NotEqualTo(v) => key in row && FieldAs(db, row, key, v) != v
    case LessThan(v) => key in row && db.less(FieldAs(db, row, key, v), v)
    case LessThanOrEqualTo(v) => key in row && (db.less(FieldAs(db, row, key, v), v) || FieldAs(db, row, key, v) == v)
    case GreaterThan(v) => key in row && db.less(v, FieldAs(db, row, key, v))
    case GreaterThanOrEqualTo(v) =>
      key in row && (db.less(v, FieldAs(db, row, key, v)) || FieldAs(db, row, key, v) == v)
    case In(vs) => key in row && FieldAs(db, row, key, vs[0]) in vs
    case NotIn(vs) => key in row && FieldAs(db, row, key, vs[0]) in vs  // as compiled
  }

  /** A filter of one condition selects exactly the rows that meet it; a NULL field meets only `isNull`. */
  lemma ConditionSelectsExactly(db: Database, row: Row, key: string, op: FieldOp)
    requires OpAccepted(op)
    ensures var f := ApiWhere([FieldFilter(key, [op])]);
      Compile(f).Success? && (Selects(db, row, Compile(f).value) <==> Meets(db, row, key, op))
  {
    var f := ApiWhere([FieldFilter(key, [op])]);
    assert FieldAccepted(f.fields[0]);
    CompilesExactly(f);
    CompilationPreservesMeaning(db, row, f);
    var swapped := InForNotIn(f);
    assert swapped.fields[0].ops == [InForNotInOp(op)];
    assert swapped == ApiWhere([FieldFilter(key, [InForNotInOp(op)])]);
    assert Prune(swapped) == Some(swapped);
    WhereOneOp(db, row, key, InForNotInOp(op));
  }

  // ---------------------------------------------------------------- three-valued logic

  /** A conjunction is true when all its members are, and false when one is. */
  lemma {:induction false} ConjunctionIs(ts: seq<Truth>)
    ensures ConjAll(ts).Yes? <==> forall k :: 0 <= k < |ts| ==> ts[k].Yes?
    ensures ConjAll(ts).No? <==> exists k :: 0 <= k < |ts| && ts[k].No?
  {
    if ts != [] {
      ConjunctionIs(ts[1..]);
      assert forall k :: 1 <= k < |ts| ==> ts[k] == ts[1..][k - 1];
      assert forall k :: 0 <= k < |ts[1..]| ==> ts[1..][k] == ts[k + 1];
    }
  }

  /** A disjunction is true when one of its members is, and false when all are. */
  lemma {:induction false} DisjunctionIs(ts: seq<Truth>)
    ensures DisjAll(ts).Yes? <==> exists k :: 0 <= k < |ts| && ts[k].Yes?
    ensures DisjAll(ts).No? <==> forall k :: 0 <= k < |ts| ==> ts[k].No?
  {
    if ts != [] {
      DisjunctionIs(ts[1..]);
      assert forall k :: 1 <= k < |ts| ==> ts[k] == ts[1..][k - 1];
      assert forall k :: 0 <= k < |ts[1..]| ==> ts[1..][k] == ts[k + 1];
    }
  }

  /** The documented truth of a group is that of its members, and a negation turns it around. */
  lemma GroupsMean(db: Database, row: Row, fs: seq<ApiFilter>, g: ApiFilter)
    ensures ApiTruth(db, row, ApiAnd(fs)).Yes? <==> forall k :: 0 <= k < |fs| ==> ApiTruth(db, row, fs[k]).Yes?
    ensures ApiTruth(db, row, ApiAnd(fs)).No? <==> exists k :: 0 <= k < |fs| && ApiTruth(db, row, fs[k]).No?
    ensures ApiTruth(db, row, ApiOr(fs)).Yes? <==> exists k :: 0 <= k < |fs| && ApiTruth(db, row, fs[k]).Yes?
    ensures ApiTruth(db, row, ApiOr(fs)).No? <==> forall k :: 0 <= k < |fs| ==> ApiTruth(db, row, fs[k]).No?
    ensures ApiTruth(db, row, ApiNot(g)).Yes? <==> ApiTruth(db, row, g).No?
    ensures ApiTruth(db, row, ApiNot(g)).No? <==> ApiTruth(db, row, g).Yes?
  {
    var ts := ApiTruths(db, row, fs);
    ConjunctionIs(ts);
    DisjunctionIs(ts);
    assert forall k :: 0 <= k < |fs| ==> ts[k] == ApiTruth(db, row, fs[k]);
  }

  // ---------------------------------------------------------------- selected fields

  /** Some condition of the filter is on this field. */
  ghost predicate UsesField(f: QueryFilter, key: string) {
    match f
    case WhereFilter(entries) => exists k :: 0 <= k < |entries| && entries[k].key == key
    case AndFilter(fs) => exists k :: 0 <= k < |fs| && UsesField(fs[k], key)
    case OrFilter(fs) => exists k :: 0 <= k < |fs| && UsesField(fs[k], key)
    case NotFilter(g) => UsesField(g, key)
    case Undefined => false
  }

  /** A converted filter selects exactly the fields that its conditions are on. */
  lemma {:induction false} SelectsUsedFields(f: QueryFilter, key: string)
    ensures key in Selected(f) <==> UsesField(f, key)
    decreases f
  {
    match f
    case WhereFilter(entries) =>
      assert forall k :: 0 <= k < |entries| ==> Selected(f)[k] == entries[k].key;
    case AndFilter(fs) => ListSelectsUsedFields(fs, key);
    case OrFilter(fs) => ListSelectsUsedFields(fs, key);
    case NotFilter(g) => SelectsUsedFields(g, key);
    case Undefined =>
  }

  lemma {:induction false} ListSelectsUsedFields(fs: seq<QueryFilter>, key: string)
    ensures key in SelectedList(fs) <==> exists k :: 0 <= k < |fs| && UsesField(fs[k], key)
    decreases fs
  {
    if fs != [] {
      SelectsUsedFields(fs[0], key);
      ListSelectsUsedFields(fs[1..], key);
      assert forall k :: 1 <= k < |fs| ==> fs[k] == fs[1..][k - 1];
      if k :| 0 <= k < |fs[1..]| && UsesField(fs[1..][k], key) {
        assert UsesField(fs[k + 1], key);
      }
    }
  }
}
