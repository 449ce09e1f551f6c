/**
 When two schemas have no instance in common, by a test on their keywords: the options of a discriminated
 union pass it.
 */
module InterfaceOptions {
  import opened Wrappers
  import opened JsonSchema
  import opened InterfacesUtils
  import opened InterfaceNumbers

  // ---------------------------------------------------------------- numbers

  function Larger(a: Option<real>, b: Option<real>): Option<real> {
    if a.None? || (b.Some? && a.value <= b.value) then b else a
  }

  function Smaller(a: Option<real>, b: Option<real>): Option<real> {
    if a.None? || (b.Some? && b.value <= a.value) then b else a
  }

  function Common(a: seq<real>, b: seq<real>): (r: seq<real>)
    ensures forall n :: n in r <==> n in a && n in b
  {
    if a == [] then [] else (if a[0] in b then [a[0]] else []) + Common(a[1..], b)
  }

  function CommonEnum(m: NumberRules, n: NumberRules): Option<seq<real>> {
    if m.constant.Some? && n.constant.Some? && m.constant != n.constant then Some([])
    else if m.enumeration.None? then n.enumeration
    else if n.enumeration.None? then m.enumeration
    else Some(Common(m.enumeration.value, n.enumeration.value))
  }

  /** The rules of numbers that obey both. */
  function Both(m: NumberRules, n: NumberRules): NumberRules {
    NumberRules(if m.constant.Some? then m.constant else n.constant, CommonEnum(m, n),
                Larger(m.minimum, n.minimum), Smaller(m.maximum, n.maximum),
                Larger(m.exclusiveMinimum, n.exclusiveMinimum), Smaller(m.exclusiveMaximum, n.exclusiveMaximum))
  }

  lemma BothAdmits(a: bool, m: NumberRules, b: bool, n: NumberRules, x: real)
    ensures Admits(a || b, Both(m, n), x) <==> Admits(a, m, x) && Admits(b, n, x)
  {
    assert Lists(CommonEnum(m, n), x) && Allows(Both(m, n).constant, x) <==>
        (Lists(m.enumeration, x) && Lists(n.enumeration, x)) && (Allows(m.constant, x) && Allows(n.constant, x));
  }

  /** Nothing is left to admit. */
  predicate NumbersApart(a: bool, m: NumberRules, b: bool, n: NumberRules) {
    ListsAll([], a || b, Both(m, n))
  }

  /** For numbers the test is exact. */
  lemma NumbersApartExactly(a: bool, m: NumberRules, b: bool, n: NumberRules)
    ensures NumbersApart(a, m, b, n) <==> forall x :: !(Admits(a, m, x) && Admits(b, n, x))
  {
    ListsAllExactly([], a || b, Both(m, n));
    if NumbersApart(a, m, b, n) {
      forall x ensures !(Admits(a, m, x) && Admits(b, n, x)) {
        BothAdmits(a, m, b, n, x);
      }
    } else {
      var x :| Admits(a || b, Both(m, n), x) && x !in [];
      BothAdmits(a, m, b, n, x);
    }
  }

  // ---------------------------------------------------------------- texts

  /** None of these is an instance of both. */
  predicate NoneIsText(matches: Engine, values: seq<string>, r: StringRules, s: StringRules) {
    forall value :: value in values ==> !(StringValid(matches, r, value) && StringValid(matches, s, value))
  }

  predicate TextsApart(matches: Engine, r: StringRules, s: StringRules) {
    || (r.constant.Some? && NoneIsText(matches, [r.constant.value], r, s))
    || (s.constant.Some? && NoneIsText(matches, [s.constant.value], r, s))
    || (r.enumeration.Some? && NoneIsText(matches, r.enumeration.value, r, s))
    || (s.enumeration.Some? && NoneIsText(matches, s.enumeration.value, r, s))
    || (r.maxLength.Some? && s.minLength.Some? && r.maxLength.value < s.minLength.value)
    || (s.maxLength.Some? && r.minLength.Some? && s.maxLength.value < r.minLength.value)
  }

  lemma TextsApartAreDisjoint(matches: Engine, r: StringRules, s: StringRules, t: string)
    ensures TextsApart(matches, r, s) ==> !(StringValid(matches, r, t) && StringValid(matches, s, t))
  {
    if r.constant.Some? {
      assert r.constant.value in [r.constant.value];
    }
    if s.constant.Some? {
      assert s.constant.value in [s.constant.value];
    }
  }

  // ---------------------------------------------------------------- schemas

  predicate SizesApart(min: Option<nat>, max: Option<nat>) {
    min.Some? && max.Some? && max.value < min.value
  }

  /**
   Other types, constants, enumerations or bounds that leave nothing in common, or a required property
   whose two schemas are apart: the discriminator of a union.
   */
  predicate Apart(matches: Engine, a: Schema, b: Schema)
    decreases a, b
  {
    match a
    case Always(accepts) => !accepts
    case Reference(target) => target.None? || Apart(matches, target.value, b)
    case Node(_, allOf, anyOf, oneOf, body) =>
      || (allOf.Listed? && exists k :: 0 <= k < |allOf.schemas| && Apart(matches, allOf.schemas[k], b))
      || (anyOf.Listed? && forall k :: 0 <= k < |anyOf.schemas| ==> Apart(matches, anyOf.schemas[k], b))
      || (oneOf.Listed? && forall k :: 0 <= k < |oneOf.schemas| ==> Apart(matches, oneOf.schemas[k], b))
      || BodyApart(matches, body, b)
  }

  predicate BodyApart(matches: Engine, a: Body, b: Schema)
    decreases a, b
  {
    match b
    case Always(accepts) => !accepts
    case Reference(target) => target.None? || BodyApart(matches, a, target.value)
    case Node(_, allOf, anyOf, oneOf, body) =>
      || (allOf.Listed? && exists k :: 0 <= k < |allOf.schemas| && BodyApart(matches, a, allOf.schemas[k]))
      || (anyOf.Listed? && forall k :: 0 <= k < |anyOf.schemas| ==> BodyApart(matches, a, anyOf.schemas[k]))
      || (oneOf.Listed? && forall k :: 0 <= k < |oneOf.schemas| ==> BodyApart(matches, a, oneOf.schemas[k]))
      || BodiesApart(matches, a, body)
  }

  predicate BodiesApart(matches: Engine, a: Body, b: Body)
    decreases a, b
  {
    match (a, b)
    case (Untyped, _) => false
    case (_, Untyped) => false
    case (NullType, NullType) => false
    case (BooleanType(c, p), BooleanType(d, q)) =>
      && !(BooleanValid(c, p, true) && BooleanValid(d, q, true))
      && !(BooleanValid(c, p, false) && BooleanValid(d, q, false))
    case (NumberType(p, m), NumberType(q, n)) => NumbersApart(p, m, q, n)
    case (StringType(r), StringType(s)) => TextsApart(matches, r, s)
    case (ArrayType(aMin, aMax, aItems), ArrayType(bMin, bMax, bItems)) =>
      || SizesApart(aMin, bMax)
      || SizesApart(bMin, aMax)
      || (&& aItems.Some? && bItems.Some? && Apart(matches, aItems.value, bItems.value)
          && ((aMin.Some? && aMin.value > 0) || (bMin.Some? && bMin.value > 0)))
    case (ObjectType(aRequired, aProperties), ObjectType(bRequired, bProperties)) =>
      exists k, l :: 0 <= k < |aProperties| && 0 <= l < |bProperties| &&
        Discriminates(matches, aProperties[k], aRequired, bProperties[l], bRequired)
    case _ => true
  }

  predicate Discriminates(matches: Engine, a: Property, aRequired: seq<string>, b: Property, bRequired: seq<string>)
    decreases a, b
  {
    a.key == b.key && (a.key in aRequired || a.key in bRequired) && Apart(matches, a.schema, b.schema)
  }

  /** Main result: schemas that are apart have no common instance. */
  lemma {:induction false} ApartIsDisjoint(matches: Engine, a: Schema, b: Schema, v: Json)
    requires Apart(matches, a, b)
    ensures !(Valid(matches, a, v) && Valid(matches, b, v))
    decreases a, b
  {
    if Valid(matches, a, v) {
      match a
      case Reference(target) => ApartIsDisjoint(matches, target.value, b, v);
      case Node(_, allOf, anyOf, oneOf, body) =>
        if allOf.Listed? && exists k :: 0 <= k < |allOf.schemas| && Apart(matches, allOf.schemas[k], b) {
          var k :| 0 <= k < |allOf.schemas| && Apart(matches, allOf.schemas[k], b);
          ApartIsDisjoint(matches, allOf.schemas[k], b, v);
        } else if BodyApart(matches, body, b) {
          BodyApartIsDisjoint(matches, body, b, v);
        } else if anyOf.Listed? && forall k :: 0 <= k < |anyOf.schemas| ==> Apart(matches, anyOf.schemas[k], b) {
          var k :| 0 <= k < |anyOf.schemas| && Valid(matches, anyOf.schemas[k], v);
          ApartIsDisjoint(matches, anyOf.schemas[k], b, v);
        } else {
          var k :| 0 <= k < |oneOf.schemas| && Valid(matches, oneOf.schemas[k], v);
          ApartIsDisjoint(matches, oneOf.schemas[k], b, v);
        }
      case _ =>
    }
  }

  lemma {:induction false} BodyApartIsDisjoint(matches: Engine, a: Body, b: Schema, v: Json)
    requires BodyApart(matches, a, b)
    ensures !(BodyValid(matches, a, v) && Valid(matches, b, v))
    decreases a, b
  {
    if Valid(matches, b, v) {
      match b
      case Reference(target) => BodyApartIsDisjoint(matches, a, target.value, v);
      case Node(_, allOf, anyOf, oneOf, body) =>
        if allOf.Listed? && exists k :: 0 <= k < |allOf.schemas| && BodyApart(matches, a, allOf.schemas[k]) {
          var k :| 0 <= k < |allOf.schemas| && BodyApart(matches, a, allOf.schemas[k]);
          BodyApartIsDisjoint(matches, a, allOf.schemas[k], v);
        } else if BodiesApart(matches, a, body) {
          BodiesApartAreDisjoint(matches, a, body, v);
        } else if anyOf.Listed? && forall k :: 0 <= k < |anyOf.schemas| ==> BodyApart(matches, a, anyOf.schemas[k]) {
          var k :| 0 <= k < |anyOf.schemas| && Valid(matches, anyOf.schemas[k], v);
          BodyApartIsDisjoint(matches, a, anyOf.schemas[k], v);
        } else {
          var k :| 0 <= k < |oneOf.schemas| && Valid(matches, oneOf.schemas[k], v);
          BodyApartIsDisjoint(matches, a, oneOf.schemas[k], v);
        }
      case _ =>
    }
  }

  lemma {:induction false} BodiesApartAreDisjoint(matches: Engine, a: Body, b: Body, v: Json)
    requires BodiesApart(matches, a, b)
    ensures !(BodyValid(matches, a, v) && BodyValid(matches, b, v))
    decreases a, b
  {
    if BodyValid(matches, a, v) && BodyValid(matches, b, v) {
      match a
      case NumberType(p, m) =>
        assert Admits(p, m, v.number) && Admits(b.integer, b.number, v.number);
        NumbersApartExactly(p, m, b.integer, b.number);
      case StringType(r) => TextsApartAreDisjoint(matches, r, b.text, v.text);
      case ArrayType(aMin, aMax, aItems) => ApartIsDisjoint(matches, aItems.value, b.items.value, v.elements[0]);
      case ObjectType(aRequired, aProperties) =>
        var k, l :| 0 <= k < |aProperties| && 0 <= l < |b.properties| &&
          Discriminates(matches, aProperties[k], aRequired, b.properties[l], b.required);
        ApartIsDisjoint(matches, aProperties[k].schema, b.properties[l].schema, v.fields[aProperties[k].key]);
      case _ =>
    }
  }
}
