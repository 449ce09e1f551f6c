/**
 `notIn` is compiled as `in`: whatever else a filter asks for, its values can be chosen so that the answer
 is wrong.
 */
module QueryFilterNotIn {
  import opened Wrappers
  import opened Knex
  import opened QueryFilterParser
  import opened QueryFilterMeaning
  import opened QueryFilterAcceptance
  import opened QueryFilterGroups

  // ---------------------------------------------------------------- filters with the same operators

  predicate SameOp(a: FieldOp, b: FieldOp) {
    match (a, b)
    case (IsNull(_), IsNull(_)) => true
    case (EqualTo(_), EqualTo(_)) => true
    case (NotEqualTo(_), NotEqualTo(_)) => true
    case (LessThan(_), LessThan(_)) => true
    case (LessThanOrEqualTo(_), LessThanOrEqualTo(_)) => true
    case (GreaterThan(_), GreaterThan(_)) => true
    case (GreaterThanOrEqualTo(_), GreaterThanOrEqualTo(_)) => true
    case (In(_), In(_)) => true
    case (NotIn(_), NotIn(_)) => true
    case (UnknownOp(n), UnknownOp(m)) => n == m
    case _ => false
  }

  predicate SameOps(a: FieldFilter, b: FieldFilter) {
    |a.ops| == |b.ops| && forall k :: 0 <= k < |a.ops| ==> SameOp(a.ops[k], b.ops[k])
  }

  /** The same groups, negations and operators, on possibly other fields and with other values. */
  ghost predicate SameOperators(f: ApiFilter, g: ApiFilter) {
    match (f, g)
    case (ApiWhere(xs), ApiWhere(ys)) => |xs| == |ys| && forall k :: 0 <= k < |xs| ==> SameOps(xs[k], ys[k])
    case (ApiAnd(fs), ApiAnd(gs)) => SameOperatorsEach(fs, gs)
    case (ApiOr(fs), ApiOr(gs)) => SameOperatorsEach(fs, gs)
    case (ApiNot(a), ApiNot(b)) => SameOperators(a, b)
    case (Malformed, Malformed) => true
    case _ => false
  }

  ghost predicate SameOperatorsEach(fs: seq<ApiFilter>, gs: seq<ApiFilter>)
    decreases fs
  {
    |fs| == |gs| && forall k :: 0 <= k < |fs| ==> SameOperators(fs[k], gs[k])
  }

  lemma {:induction false} OperatorsDecide(f: ApiFilter, g: ApiFilter)
    requires SameOperators(f, g)
    ensures SameShape(f, g) && (UsesNotIn(f) <==> UsesNotIn(g))
  {
    match f
    case ApiWhere(xs) =>
      assert forall k, l :: 0 <= k < |xs| && 0 <= l < |xs[k].ops| ==> SameOp(xs[k].ops[l], g.fields[k].ops[l]);
    case ApiAnd(fs) => OperatorsDecideEach(fs, g.filters);
    case ApiOr(fs) => OperatorsDecideEach(fs, g.filters);
    case ApiNot(a) => OperatorsDecide(a, g.filter);
    case Malformed =>
  }

  lemma {:induction false} OperatorsDecideEach(fs: seq<ApiFilter>, gs: seq<ApiFilter>)
    requires SameOperatorsEach(fs, gs)
    ensures SameShapes(fs, gs) && forall k :: 0 <= k < |fs| ==> (UsesNotIn(fs[k]) <==> UsesNotIn(gs[k]))
    decreases fs
  {
    forall k | 0 <= k < |fs| ensures SameShape(fs[k], gs[k]) && (UsesNotIn(fs[k]) <==> UsesNotIn(gs[k])) {
      OperatorsDecide(fs[k], gs[k]);
    }
  }

  // ---------------------------------------------------------------- choosing the values

  /** Numbers are compared as numbers. */
  const NUMBERS := Database(
    (v: Value, tpe: ValueType) => v,
    (a: Value, b: Value) => a.VNumber? && b.VNumber? && a.number < b.number)
  const ZERO: Row := map["x" := VNumber(0.0)]

  function Number(n: int): Value {
    VNumber(n as real)
  }

  /** The operator with a value that makes it true, or false, for the field `x`. */
  function ForcedOp(op: FieldOp, t: bool): FieldOp {
    match op
    case IsNull(_) => IsNull(!t)
    case EqualTo(_) => EqualTo(Number(if t then 0 else 1))
    case NotEqualTo(_) => NotEqualTo(Number(if t then 1 else 0))
    case LessThan(_) => LessThan(Number(if t then 1 else -1))
    case LessThanOrEqualTo(_) => LessThanOrEqualTo(Number(if t then 1 else -1))
    case GreaterThan(_) => GreaterThan(Number(if t then -1 else 1))
    case GreaterThanOrEqualTo(_) => GreaterThanOrEqualTo(Number(if t then -1 else 1))
    case In(_) => In([Number(if t then 0 else 1)])
    case NotIn(_) => NotIn([Number(if t then 1 else 0)])
    case UnknownOp(_) => op
  }

  lemma ForcedOpTruths(op: FieldOp, t: bool)
    requires OpAccepted(op)
    ensures SameOp(op, ForcedOp(op, t)) && OpAccepted(ForcedOp(op, t))
    ensures OpTruth(NUMBERS, ZERO, "x", ForcedOp(op, t)) == Decide(t)
    ensures OpTruth(NUMBERS, ZERO, "x", InForNotInOp(ForcedOp(op, t))) == Decide(t != op.NotIn?)
  {
  }

  function ForcedField(field: FieldFilter, t: bool): FieldFilter {
    FieldFilter("x", seq(|field.ops|, k requires 0 <= k < |field.ops| => ForcedOp(field.ops[k], t)))
  }

  predicate FieldUsesNotIn(field: FieldFilter) {
    exists l :: 0 <= l < |field.ops| && field.ops[l].NotIn?
  }

  /** Some member has the truth `t`, and all others have it as well or do not matter. */
  lemma {:induction false} FoldOfForced(ts: seq<Truth>, c: Connective, k: nat, t: bool)
    requires k < |ts| && ts[k] == Decide(t)
    requires forall j :: 0 <= j < |ts| ==> ts[j] == Decide(t) || ts[j] == Neutral(c)
    ensures Fold(c, ts) == Decide(t)
  {
    if Decide(t) == Neutral(c) {
      FoldOfNeutral(ts, c);
    } else {
      DominatedFold(ts, c, k);
    }
  }

  lemma {:induction false} FoldOfNeutral(ts: seq<Truth>, c: Connective)
    requires forall j :: 0 <= j < |ts| ==> ts[j] == Neutral(c)
    ensures Fold(c, ts) == Neutral(c)
  {
    if ts != [] {
      FoldOfNeutral(ts[1..], c);
    }
  }

  lemma ForcedFieldTruths(field: FieldFilter, t: bool)
    requires FieldAccepted(field)
    ensures SameOps(field, ForcedField(field, t)) && FieldAccepted(ForcedField(field, t))
    ensures FieldTruth(NUMBERS, ZERO, ForcedField(field, t)) == Decide(t)
    ensures FieldTruth(NUMBERS, ZERO, InForNotInField(ForcedField(field, t))) == Decide(t != FieldUsesNotIn(field))
  {
    var forced := ForcedField(field, t);
    var swapped := InForNotInField(forced);
    forall k | 0 <= k < |field.ops|
      ensures SameOp(field.ops[k], forced.ops[k]) && OpAccepted(forced.ops[k])
      ensures OpTruth(NUMBERS, ZERO, "x", forced.ops[k]) == Decide(t)
      ensures OpTruth(NUMBERS, ZERO, "x", swapped.ops[k]) == Decide(t != field.ops[k].NotIn?)
    {
      ForcedOpTruths(field.ops[k], t);
    }
    var truths := seq(|forced.ops|, k requires 0 <= k < |forced.ops| => OpTruth(NUMBERS, ZERO, "x", forced.ops[k]));
    FoldOfForced(truths, Connective.And, 0, t);
    var others := seq(|swapped.ops|, k requires 0 <= k < |swapped.ops| => OpTruth(NUMBERS, ZERO, "x", swapped.ops[k]));
    FoldOfForced(others, Connective.And, 0, t != FieldUsesNotIn(field));
  }

  /** Where some part uses `notIn`, the parts that do not are kept out of the way. */
  function Target(c: Connective, all: bool, part: bool, t: bool): bool {
    if all && !part then c.And? else t
  }

  /** The filter with values that make it true, or false. */
  ghost function Forced(f: ApiFilter, t: bool): ApiFilter {
    if Prune(f).None? then f else
    match f
    case ApiWhere(fields) =>
      ApiWhere(seq(|fields|, k requires 0 <= k < |fields| =>
                 ForcedField(fields[k], Target(Connective.And, UsesNotIn(f), FieldUsesNotIn(fields[k]), t))))
    case ApiAnd(fs) =>
      ApiAnd(seq(|fs|, k requires 0 <= k < |fs| =>
               Forced(fs[k], Target(Connective.And, UsesNotIn(f), UsesNotIn(fs[k]), t))))
    case ApiOr(fs) =>
      ApiOr(seq(|fs|, k requires 0 <= k < |fs| =>
              Forced(fs[k], Target(Connective.Or, UsesNotIn(f), UsesNotIn(fs[k]), t))))
    case ApiNot(g) => ApiNot(Forced(g, !t))
    case Malformed => f
  }

  ghost function ForcedEach(fs: seq<ApiFilter>, c: Connective, t: bool): seq<ApiFilter> {
    seq(|fs|, k requires 0 <= k < |fs| => Forced(fs[k], Target(c, UsedInSome(fs), UsesNotIn(fs[k]), t)))
  }

  ghost predicate UsedInSome(fs: seq<ApiFilter>) {
    exists k :: 0 <= k < |fs| && UsesNotIn(fs[k])
  }

  ghost predicate FieldForced(field: FieldFilter, forced: FieldFilter, t: bool) {
    && SameOps(field, forced) && FieldAccepted(forced)
    && FieldTruth(NUMBERS, ZERO, forced) == Decide(t)
    && FieldTruth(NUMBERS, ZERO, InForNotInField(forced)) == Decide(t != FieldUsesNotIn(field))
  }

  lemma WhereOfForced(fields: seq<FieldFilter>, k: nat, t: bool)
    requires k < |fields| && FieldTruth(NUMBERS, ZERO, fields[k]) == Decide(t)
    requires forall j :: 0 <= j < |fields| ==>
      FieldTruth(NUMBERS, ZERO, fields[j]) == Decide(t) || FieldTruth(NUMBERS, ZERO, fields[j]) == Yes
    ensures ApiTruth(NUMBERS, ZERO, ApiWhere(fields)) == Decide(t)
  {
    FoldOfForced(seq(|fields|, j requires 0 <= j < |fields| => FieldTruth(NUMBERS, ZERO, fields[j])),
                 Connective.And, k, t);
  }

  lemma ForcedFields(f: ApiFilter, t: bool)
    requires Accepted(f) && f.ApiWhere?
    ensures |Forced(f, t).fields| == |f.fields|
    ensures forall k :: 0 <= k < |f.fields| ==>
      FieldForced(f.fields[k], Forced(f, t).fields[k],
                  Target(Connective.And, UsesNotIn(f), FieldUsesNotIn(f.fields[k]), t))
  {
    forall k | 0 <= k < |f.fields|
      ensures FieldForced(f.fields[k], Forced(f, t).fields[k],
                          Target(Connective.And, UsesNotIn(f), FieldUsesNotIn(f.fields[k]), t))
    {
      ForcedFieldTruths(f.fields[k], Target(Connective.And, UsesNotIn(f), FieldUsesNotIn(f.fields[k]), t));
    }
  }

  lemma ForcedWhere(f: ApiFilter, t: bool)
    requires Accepted(f) && f.ApiWhere?
    ensures ApiTruth(NUMBERS, ZERO, Forced(f, t)) == Decide(t)
    ensures ApiTruth(NUMBERS, ZERO, InForNotIn(Forced(f, t))) == Decide(t != UsesNotIn(f))
  {
    ForcedFields(f, t);
    var k := DecidingField(f);
    WhereOfForced(Forced(f, t).fields, k, t);
    WhereOfForced(InForNotIn(Forced(f, t)).fields, k, t != UsesNotIn(f));
  }

  lemma DecidingField(f: ApiFilter) returns (k: nat)
    requires Accepted(f) && f.ApiWhere?
    ensures k < |f.fields| && (FieldUsesNotIn(f.fields[k]) <==> UsesNotIn(f))
  {
    k := 0;
    if UsesNotIn(f) {
      k :| 0 <= k < |f.fields| && FieldUsesNotIn(f.fields[k]);
    }
  }

  /** A member of a group: neutral when nothing of it is left. */
  ghost predicate MemberForced(f: ApiFilter, g: ApiFilter, c: Connective, t: bool) {
    && SameOperators(f, g) && Accepted(g)
    && (if Prune(f).None? then ApiTruth(NUMBERS, ZERO, g) == ApiTruth(NUMBERS, ZERO, InForNotIn(g)) == Neutral(c)
        else ApiTruth(NUMBERS, ZERO, g) == Decide(t)
             && ApiTruth(NUMBERS, ZERO, InForNotIn(g)) == Decide(t != UsesNotIn(f)))
  }

  lemma {:induction false} ForcedMember(f: ApiFilter, c: Connective, t: bool)
    requires Accepted(f) && HarmlessIn(f, c)
    ensures MemberForced(f, Forced(f, t), c, t)
    decreases f, 1
  {
    if Prune(f).None? {
      SameOperatorsReflexive(f);
      NothingPrintedUsesNoNotIn(f);
      NothingToReplace(f);
      ConstantTruth(NUMBERS, ZERO, f);
    } else {
      ForcedTruths(f, t);
    }
  }

  lemma {:induction false} SameOperatorsReflexive(f: ApiFilter)
    ensures SameOperators(f, f)
  {
    match f
    case ApiAnd(fs) =>
      forall k | 0 <= k < |fs| ensures SameOperators(fs[k], fs[k]) {
        SameOperatorsReflexive(fs[k]);
      }
    case ApiOr(fs) =>
      forall k | 0 <= k < |fs| ensures SameOperators(fs[k], fs[k]) {
        SameOperatorsReflexive(fs[k]);
      }
    case ApiNot(g) => SameOperatorsReflexive(g);
    case _ =>
  }

  lemma {:induction false} ForcedMembers(fs: seq<ApiFilter>, c: Connective, t: bool)
    requires forall k :: 0 <= k < |fs| ==> Accepted(fs[k]) && HarmlessIn(fs[k], c)
    ensures forall k :: 0 <= k < |fs| ==>
      MemberForced(fs[k], ForcedEach(fs, c, t)[k], c, Target(c, UsedInSome(fs), UsesNotIn(fs[k]), t))
    decreases fs, 2
  {
    forall k | 0 <= k < |fs|
      ensures MemberForced(fs[k], ForcedEach(fs, c, t)[k], c, Target(c, UsedInSome(fs), UsesNotIn(fs[k]), t))
    {
      ForcedMember(fs[k], c, Target(c, UsedInSome(fs), UsesNotIn(fs[k]), t));
    }
  }

  lemma {:induction false} ForcedGroup(fs: seq<ApiFilter>, c: Connective, t: bool)
    requires forall k :: 0 <= k < |fs| ==> Accepted(fs[k]) && HarmlessIn(fs[k], c)
    requires PruneList(fs) != []
    ensures Fold(c, ApiTruths(NUMBERS, ZERO, ForcedEach(fs, c, t))) == Decide(t)
    ensures Fold(c, ApiTruths(NUMBERS, ZERO, InForNotInEach(ForcedEach(fs, c, t)))) == Decide(t != UsedInSome(fs))
    decreases fs, 3
  {
    var gs := ForcedEach(fs, c, t);
    ForcedMembers(fs, c, t);
    var k := Decider(fs);
    FoldOfForced(ApiTruths(NUMBERS, ZERO, gs), c, k, t);
    FoldOfForced(ApiTruths(NUMBERS, ZERO, InForNotInEach(gs)), c, k, t != UsedInSome(fs));
  }

  /** A member that is left and, when some member uses `notIn`, does. */
  lemma Decider(fs: seq<ApiFilter>) returns (k: nat)
    requires PruneList(fs) != []
    ensures k < |fs| && Prune(fs[k]).Some? && (UsesNotIn(fs[k]) <==> UsedInSome(fs))
  {
    PrunedAwayIff(fs);
    if UsedInSome(fs) {
      k :| 0 <= k < |fs| && UsesNotIn(fs[k]);
      if Prune(fs[k]).None? {
        NothingPrintedUsesNoNotIn(fs[k]);
      }
    } else {
      k :| 0 <= k < |fs| && Prune(fs[k]).Some?;
    }
  }

  function InForNotInEach(fs: seq<ApiFilter>): seq<ApiFilter> {
    seq(|fs|, k requires 0 <= k < |fs| => InForNotIn(fs[k]))
  }

  /** The values can be chosen so that the filter has a given truth, and the other one with `in` for `notIn`. */
  lemma {:induction false} ForcedTruths(f: ApiFilter, t: bool)
    requires Accepted(f) && Harmless(f) && Prune(f).Some?
    ensures SameOperators(f, Forced(f, t)) && Accepted(Forced(f, t))
    ensures ApiTruth(NUMBERS, ZERO, Forced(f, t)) == Decide(t)
    ensures ApiTruth(NUMBERS, ZERO, InForNotIn(Forced(f, t))) == Decide(t != UsesNotIn(f))
    decreases f, 0
  {
    match f
    case ApiWhere(_) =>
      ForcedFields(f, t);
      ForcedWhere(f, t);
    case ApiAnd(fs) =>
      ForcedMembers(fs, Connective.And, t);
      ForcedGroup(fs, Connective.And, t);
      assert Forced(f, t) == ApiAnd(ForcedEach(fs, Connective.And, t));
    case ApiOr(fs) =>
      ForcedMembers(fs, Connective.Or, t);
      ForcedGroup(fs, Connective.Or, t);
      assert Forced(f, t) == ApiOr(ForcedEach(fs, Connective.Or, t));
    case ApiNot(g) => ForcedTruths(g, !t);
  }

  /**
   Main result: filters with these groups and operators, whatever their fields and values, are answered
   faithfully on every row of every database exactly when none of the operators is `notIn`.
   */
  lemma NotInExactly(f: ApiFilter)
    requires Harmless(f) && Compile(f).Success?
    ensures !UsesNotIn(f) <==>
              forall db, g, row :: SameOperators(f, g) && Compile(g).Success? ==> Faithful(db, row, g)
  {
    CompilesExactly(f);
    if !UsesNotIn(f) {
      forall db, g, row | SameOperators(f, g) && Compile(g).Success? ensures Faithful(db, row, g) {
        OperatorsDecide(f, g);
        ShapeDecides(f, g);
        CompilationIsFaithful(db, row, g);
      }
    } else {
      NotInIsAnsweredWrongly(f);
      assert !Faithful(NUMBERS, ZERO, Forced(f, true));
    }
  }

  lemma NotInIsAnsweredWrongly(f: ApiFilter)
    requires Harmless(f) && Accepted(f) && UsesNotIn(f)
    ensures SameOperators(f, Forced(f, true)) && Compile(Forced(f, true)).Success?
    ensures !Faithful(NUMBERS, ZERO, Forced(f, true))
  {
    if Prune(f).None? {
      NothingPrintedUsesNoNotIn(f);
    }
    var g := Forced(f, true);
    ForcedTruths(f, true);
    CompilesExactly(g);
    CompilationPreservesMeaning(NUMBERS, ZERO, g);
    OperatorsDecide(f, g);
    ShapeDecides(f, g);
    SwapKeepsShape(g);
    ShapeDecides(g, InForNotIn(g));
    PruningKeepsTruth(NUMBERS, ZERO, InForNotIn(g));
  }

  lemma {:induction false} SwapKeepsShape(f: ApiFilter)
    ensures SameShape(f, InForNotIn(f))
  {
    match f
    case ApiAnd(fs) =>
      forall k | 0 <= k < |fs| ensures SameShape(fs[k], InForNotIn(f).filters[k]) {
        SwapKeepsShape(fs[k]);
      }
    case ApiOr(fs) =>
      forall k | 0 <= k < |fs| ensures SameShape(fs[k], InForNotIn(f).filters[k]) {
        SwapKeepsShape(fs[k]);
      }
    case ApiNot(g) => SwapKeepsShape(g);
    case _ =>
  }
}
