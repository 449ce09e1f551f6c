/**
 What acceptance by the conformance check means: every instance of the implementation is an
 instance of the interface, and for which forms that fails.
 */
module InterfaceConformance {
  import opened Wrappers
  import opened JsonSchema
  import opened InterfacesUtils
  import opened InterfaceNumbers
  import opened InterfaceOptions

  ghost predicate Conforms(e: Schema, i: Schema) {
    Check(e, i).Accept?
  }

  // ---------------------------------------------------------------- lists of subschemas

  lemma {:induction false} LookupFinds(properties: seq<Property>, key: string)
    ensures var found := Lookup(properties, key);
      if found.Some? then exists k :: 0 <= k < |properties| && properties[k] == Property(key, found.value)
      else forall k :: 0 <= k < |properties| ==> properties[k].key != key
  {
    if properties != [] && properties[0].key != key {
      LookupFinds(properties[1..], key);
      if Lookup(properties, key).Some? {
        var k :| 0 <= k < |properties[1..]| && properties[1..][k] == Property(key, Lookup(properties, key).value);
        assert properties[k + 1] == properties[1..][k];
      } else {
        forall k | 0 <= k < |properties| ensures properties[k].key != key {
          assert k > 0 ==> properties[k] == properties[1..][k - 1];
        }
      }
    }
  }

  lemma {:induction false} FirstMatchConforms(e: Schema, impls: seq<Schema>)
    requires FirstMatch(e, impls).Accept?
    ensures exists k :: 0 <= k < |impls| && Conforms(e, impls[k])
  {
    if Check(e, impls[0]).Accept? {
      assert Conforms(e, impls[0]);
    } else {
      FirstMatchConforms(e, impls[1..]);
      var k :| 0 <= k < |impls[1..]| && Conforms(e, impls[1..][k]);
      assert Conforms(e, impls[k + 1]);
    }
  }

  lemma {:induction false} EachMatchConforms(es: seq<Schema>, impls: seq<Schema>, k: nat)
    requires CheckEach(es, impls).Accept? && k < |es|
    ensures exists l :: 0 <= l < |impls| && Conforms(es[k], impls[l])
  {
    if k == 0 {
      FirstMatchConforms(es[0], impls);
    } else {
      EachMatchConforms(es[1..], impls, k - 1);
      assert es[1..][k - 1] == es[k];
    }
  }

  lemma {:induction false} AnyMatchConforms(es: seq<Schema>, impls: seq<Schema>)
    requires AnyMatch(es, impls).Accept?
    ensures exists k, l :: 0 <= k < |es| && 0 <= l < |impls| && Conforms(es[k], impls[l])
  {
    if FirstMatch(es[0], impls).Accept? {
      FirstMatchConforms(es[0], impls);
      var l :| 0 <= l < |impls| && Conforms(es[0], impls[l]);
    } else {
      AnyMatchConforms(es[1..], impls);
      var k, l :| 0 <= k < |es[1..]| && 0 <= l < |impls| && Conforms(es[1..][k], impls[l]);
      assert es[k + 1] == es[1..][k];
    }
  }

  lemma {:induction false} PropertyChecked(es: seq<Property>, i: seq<Property>, k: nat)
    requires CheckProperties(es, i).Accept? && k < |es|
    ensures CheckProperty(es[k], Lookup(i, es[k].key)).Accept?
  {
    if k > 0 {
      PropertyChecked(es[1..], i, k - 1);
      assert es[1..][k - 1] == es[k];
    }
  }

  // ---------------------------------------------------------------- soundness

  /**
   What `e` says is read by the check, at every pair of subschemas that has to match. The check compares the
   first form of a node only, and accepts a list on less than its meaning asks for:
   - every alternative of an implemented `anyOf` matches some expected one;
   - every option of an implemented `oneOf` matches one expected option and is apart from the others, or
     the options are the same;
   - a form beside the first is matched as well, a `type` by that of the implementation or of a member of
     its `allOf`;
   - an expected `enum` of booleans or numbers is implemented, and so is an expected length where the implementation
     has a constant.
   */
  ghost predicate Read(matches: Engine, e: Schema, i: Schema)
    decreases e, 0
  {
    match e
    case Always(_) => true
    case Reference(_) => true
    case Node(_, allOf, anyOf, oneOf, body) =>
      && (allOf.Listed? ==> AllOf(i).Listed? && EachReadIn(matches, allOf.schemas, AllOf(i).schemas))
      && (anyOf.Listed? ==> AllReadIn(matches, anyOf.schemas, Alternatives(i)))
      && (oneOf.Listed? ==> OneOf(i).Listed? && OptionsRead(matches, oneOf.schemas, OneOf(i).schemas))
      && if allOf.Absent? && anyOf.Absent? && oneOf.Absent? then ReadBody(matches, body, BodyOf(i))
         else body.Untyped? || TypeMatched(matches, body, i)
  }

  ghost predicate EachReadIn(matches: Engine, es: seq<Schema>, impls: seq<Schema>)
    decreases es, 2
  {
    forall k :: 0 <= k < |es| ==> ReadInSome(matches, es[k], impls)
  }

  ghost predicate AllReadIn(matches: Engine, es: seq<Schema>, impls: seq<Schema>)
    decreases es, 2
  {
    forall l :: 0 <= l < |impls| ==> SomeReadIn(matches, es, impls[l])
  }

  ghost predicate OptionsRead(matches: Engine, es: seq<Schema>, impls: seq<Schema>)
    decreases es, 2
  {
    es == impls || forall l :: 0 <= l < |impls| ==> OneReadIn(matches, es, impls[l])
  }

  /** An expected option is matched and read, and the others have no instance in common with it or with `i`. */
  ghost predicate OneReadIn(matches: Engine, es: seq<Schema>, i: Schema)
    decreases es, 1
  {
    exists k :: 0 <= k < |es| && Conforms(es[k], i) && Read(matches, es[k], i) && OthersApart(matches, es, k, i)
  }

  predicate OthersApart(matches: Engine, es: seq<Schema>, k: nat, i: Schema)
    requires k < |es|
  {
    forall j :: 0 <= j < |es| && j != k ==> Apart(matches, es[j], i) || Apart(matches, es[j], es[k])
  }

  ghost predicate TypeMatched(matches: Engine, e: Body, i: Schema)
    decreases e, 2
  {
    || TypeRead(matches, e, i)
    || (AllOf(i).Listed? && exists m :: 0 <= m < |AllOf(i).schemas| && TypeRead(matches, e, AllOf(i).schemas[m]))
  }

  ghost predicate TypeRead(matches: Engine, e: Body, i: Schema)
    decreases e, 1
  {
    CheckBody(e, BodyOf(i)).Accept? && ReadBody(matches, e, BodyOf(i))
  }

  /** Some implementation matches, and is read. */
  ghost predicate ReadInSome(matches: Engine, e: Schema, impls: seq<Schema>)
    decreases e, 1
  {
    exists l :: 0 <= l < |impls| && Conforms(e, impls[l]) && Read(matches, e, impls[l])
  }

  /** Some expected alternative is matched, and is read. */
  ghost predicate SomeReadIn(matches: Engine, es: seq<Schema>, i: Schema)
    decreases es, 1
  {
    exists k :: 0 <= k < |es| && Conforms(es[k], i) && Read(matches, es[k], i)
  }

  ghost predicate ReadBody(matches: Engine, e: Body, i: Body)
    decreases e, 0
  {
    match (e, i)
    case (BooleanType(_, values), BooleanType(c, own)) => BooleansImplemented(values, c, own)
    case (NumberType(integer, m), NumberType(_, n)) => EnumImplemented(integer, m, n)
    case (StringType(r), StringType(s)) => LengthImplemented(matches, r, s)
    case (ArrayType(_, _, eItems), ArrayType(_, _, iItems)) =>
      eItems.Some? && iItems.Some? ==>
        var re, ri := Resolve(eItems.value), Resolve(iItems.value);
        re.Some? && ri.Some? ==> Read(matches, re.value, ri.value)
    case (ObjectType(_, eProperties), ObjectType(_, iProperties)) =>
      forall k :: 0 <= k < |eProperties| ==>
        ReadProperty(matches, eProperties[k], Lookup(iProperties, eProperties[k].key))
    case _ => true
  }

  ghost predicate ReadProperty(matches: Engine, e: Property, i: Option<Schema>)
    decreases e
  {
    i.Some? ==>
      var re, ri := Resolve(e.schema), Resolve(i.value);
      re.Some? && ri.Some? ==> Read(matches, re.value, ri.value)
  }

  /**
   No admitted constant is shorter in characters than the expected `minLength`, which the check measured
   in UTF-16 units.
   */
  predicate LengthImplemented(matches: Engine, e: StringRules, i: StringRules) {
    !(&& e.minLength.Some? && i.constant.Some? && |i.constant.value| < e.minLength.value
      && StringValid(matches, i, i.constant.value))
  }

  /** Each boolean that the implementation admits is in the expected `enum`. */
  predicate BooleansImplemented(values: Option<seq<bool>>, constant: Option<bool>, own: Option<seq<bool>>) {
    && (BooleanValid(constant, own, true) ==> Lists(values, true))
    && (BooleanValid(constant, own, false) ==> Lists(values, false))
  }

  lemma ResolveKeepsMeaning(matches: Engine, s: Schema, v: Json)
    ensures Valid(matches, s, v) <==> Resolve(s).Some? && Valid(matches, Resolve(s).value, v)
  {
  }

  /** Main result: acceptance is inclusion of instances. */
  lemma {:induction false} ConformanceIsSound(matches: Engine, e: Schema, i: Schema, v: Json)
    requires Conforms(e, i) && Read(matches, e, i)
    requires Valid(matches, i, v)
    ensures Valid(matches, e, v)
    decreases e
  {
    if e.Node? {
      if e.allOf.Listed? {
        AllOfIsSound(matches, e.allOf.schemas, i, v);
      }
      if e.anyOf.Listed? {
        AnyOfIsSound(matches, e.anyOf.schemas, i, v);
      }
      if e.oneOf.Listed? {
        OneOfIsSound(matches, e.oneOf.schemas, i, v);
      }
      TypeIsSound(matches, e, i, v);
    } else {
      assert e.Reference? ==> CheckForm(e, i).Accept?;
    }
  }

  lemma {:induction false} TypeIsSound(matches: Engine, e: Schema, i: Schema, v: Json)
    requires e.Node? && Conforms(e, i) && Read(matches, e, i) && Valid(matches, i, v)
    ensures BodyValid(matches, e.body, v)
    decreases e, 0
  {
    if e.allOf.Absent? && e.anyOf.Absent? && e.oneOf.Absent? {
      assert CheckForm(e, i).Accept?;
      BodyIsSound(matches, e.body, BodyOf(i), v);
    } else if !e.body.Untyped? {
      SecondTypeIsSound(matches, e.body, i, v);
    }
  }

  lemma {:induction false} AllOfIsSound(matches: Engine, es: seq<Schema>, i: Schema, v: Json)
    requires AllOf(i).Listed? && EachReadIn(matches, es, AllOf(i).schemas) && Valid(matches, i, v)
    ensures forall k :: 0 <= k < |es| ==> Valid(matches, es[k], v)
    decreases es
  {
    var impls := AllOf(i).schemas;
    forall k | 0 <= k < |es| ensures Valid(matches, es[k], v) {
      assert ReadInSome(matches, es[k], impls);
      var l :| 0 <= l < |impls| && Conforms(es[k], impls[l]) && Read(matches, es[k], impls[l]);
      ConformanceIsSound(matches, es[k], impls[l], v);
    }
  }

  lemma {:induction false} AnyOfIsSound(matches: Engine, es: seq<Schema>, i: Schema, v: Json)
    requires AllReadIn(matches, es, Alternatives(i)) && Valid(matches, i, v)
    ensures exists k :: 0 <= k < |es| && Valid(matches, es[k], v)
    decreases es
  {
    var l := ValidAlternative(matches, i, v);
    assert SomeReadIn(matches, es, Alternatives(i)[l]);
    var k :| 0 <= k < |es| && Conforms(es[k], Alternatives(i)[l]) && Read(matches, es[k], Alternatives(i)[l]);
    ConformanceIsSound(matches, es[k], Alternatives(i)[l], v);
  }

  lemma ValidAlternative(matches: Engine, i: Schema, v: Json) returns (l: nat)
    requires Valid(matches, i, v)
    ensures l < |Alternatives(i)| && Valid(matches, Alternatives(i)[l], v)
  {
    l := 0;
    if AnyOf(i).Listed? {
      l :| 0 <= l < |Alternatives(i)| && Valid(matches, Alternatives(i)[l], v);
    }
  }

  /** Only the option `k` has the instance. */
  ghost predicate OnlyOption(matches: Engine, es: seq<Schema>, k: nat, v: Json) {
    && k < |es| && Valid(matches, es[k], v)
    && forall l :: 0 <= l < |es| && l != k ==> !Valid(matches, es[l], v)
  }

  lemma ValidOption(matches: Engine, i: Schema, v: Json) returns (l: nat)
    requires OneOf(i).Listed? && Valid(matches, i, v)
    ensures OnlyOption(matches, OneOf(i).schemas, l, v)
  {
    var impls := OneOf(i).schemas;
    l :| 0 <= l < |impls| && Valid(matches, impls[l], v)
         && forall m :: 0 <= m < |impls| && m != l ==> !Valid(matches, impls[m], v);
  }

  /** Exactly one of the expected options has the instance. */
  lemma {:induction false} OneOfIsSound(matches: Engine, es: seq<Schema>, i: Schema, v: Json)
    requires OneOf(i).Listed? && OptionsRead(matches, es, OneOf(i).schemas) && Valid(matches, i, v)
    ensures exists k: nat :: OnlyOption(matches, es, k, v)
    decreases es
  {
    var impls := OneOf(i).schemas;
    var l := ValidOption(matches, i, v);
    if es != impls {
      assert OneReadIn(matches, es, impls[l]);
      var k :| 0 <= k < |es| && Conforms(es[k], impls[l]) && Read(matches, es[k], impls[l])
               && OthersApart(matches, es, k, impls[l]);
      ConformanceIsSound(matches, es[k], impls[l], v);
      OthersAreExcluded(matches, es, k, impls[l], v);
    }
  }

  lemma OthersAreExcluded(matches: Engine, es: seq<Schema>, k: nat, i: Schema, v: Json)
    requires k < |es| && OthersApart(matches, es, k, i) && Valid(matches, es[k], v) && Valid(matches, i, v)
    ensures OnlyOption(matches, es, k, v)
  {
    forall j | 0 <= j < |es| && j != k ensures !Valid(matches, es[j], v) {
      if Apart(matches, es[j], i) {
        ApartIsDisjoint(matches, es[j], i, v);
      } else {
        ApartIsDisjoint(matches, es[j], es[k], v);
      }
    }
  }

  /** A `type` beside another form. */
  lemma {:induction false} SecondTypeIsSound(matches: Engine, e: Body, i: Schema, v: Json)
    requires TypeMatched(matches, e, i) && Valid(matches, i, v)
    ensures BodyValid(matches, e, v)
    decreases e, 1
  {
    if TypeRead(matches, e, i) {
      BodyIsSound(matches, e, BodyOf(i), v);
    } else {
      var m :| 0 <= m < |AllOf(i).schemas| && TypeRead(matches, e, AllOf(i).schemas[m]);
      BodyIsSound(matches, e, BodyOf(AllOf(i).schemas[m]), v);
    }
  }

  lemma {:induction false} BodyIsSound(matches: Engine, e: Body, i: Body, v: Json)
    requires CheckBody(e, i).Accept? && ReadBody(matches, e, i)
    requires BodyValid(matches, i, v)
    ensures BodyValid(matches, e, v)
    decreases e, 0
  {
    match e
    case ArrayType(_, _, eItems) =>
      var re, ri := Resolve(eItems.value).value, Resolve(i.items.value).value;
      forall k | 0 <= k < |v.elements| ensures Valid(matches, eItems.value, v.elements[k]) {
        ResolveKeepsMeaning(matches, i.items.value, v.elements[k]);
        ConformanceIsSound(matches, re, ri, v.elements[k]);
      }
    case ObjectType(_, es) =>
      forall k | 0 <= k < |es| && es[k].key in v.fields
        ensures Valid(matches, es[k].schema, v.fields[es[k].key])
      {
        PropertyChecked(es, i.properties, k);
        PropertyIsSound(matches, es[k], i, v);
      }
    case StringType(r) =>
      StringInclusion(matches, r, i.text);
    case BooleanType(c, values) =>
      BooleanInclusion(c, values, i.constant, i.enumeration);
    case NumberType(integer, m) =>
      NumberInclusion(integer, m, i.number);
      assert Admits(integer, i.number, v.number);
    case _ =>
  }

  lemma PropertyIsSound(matches: Engine, e: Property, i: Body, v: Json)
    requires i.ObjectType?
    requires CheckProperty(e, Lookup(i.properties, e.key)).Accept?
    requires ReadProperty(matches, e, Lookup(i.properties, e.key))
    requires BodyValid(matches, i, v) && e.key in v.fields
    ensures Valid(matches, e.schema, v.fields[e.key])
    decreases e
  {
    LookupFinds(i.properties, e.key);
    var implemented := Lookup(i.properties, e.key).value;
    assert Valid(matches, implemented, v.fields[e.key]);
    ConformanceIsSound(matches, Resolve(e.schema).value, Resolve(implemented).value, v.fields[e.key]);
  }

  /** The check never looks at `enum` of booleans, so inclusion holds exactly when it is implemented anyway. */
  lemma BooleanInclusion(eConstant: Option<bool>, eValues: Option<seq<bool>>,
                         iConstant: Option<bool>, iValues: Option<seq<bool>>)
    requires SameWhenExpected(eConstant, iConstant)
    ensures (forall b :: BooleanValid(iConstant, iValues, b) ==> BooleanValid(eConstant, eValues, b)) <==>
      BooleansImplemented(eValues, iConstant, iValues)
  {
    forall b | BooleanValid(iConstant, iValues, b) ensures BooleanValid(eConstant, eValues, b) <==> Lists(eValues, b) {
    }
  }

  /** For two accepted string schemas the instances are included exactly when the length is implemented. */
  lemma StringInclusion(matches: Engine, e: StringRules, i: StringRules)
    requires StringConforms(e, i)
    ensures (forall s :: StringValid(matches, i, s) ==> StringValid(matches, e, s)) <==>
      LengthImplemented(matches, e, i)
  {
    if !LengthImplemented(matches, e, i) {
      assert !StringValid(matches, e, i.constant.value);
    }
  }

  // ---------------------------------------------------------------- what the check does not read

  const NO_NUMBER_RULES := NumberRules(None, None, None, None, None, None)
  const NO_STRING_RULES := StringRules(None, None, None, None, None)

  function Typed(body: Body): Schema {
    Node(None, Absent, Absent, Absent, body)
  }

  /** One matching pair is enough for `anyOf`, whatever the other alternatives admit. */
  lemma AnyOfWithAChoiceIsUnsound(matches: Engine)
    ensures var text := Typed(StringType(NO_STRING_RULES));
      var e := Node(None, Absent, Listed([text]), Absent, Untyped);
      var i := Node(None, Absent, Listed([text, Typed(NullType)]), Absent, Untyped);
      Conforms(e, i) && Valid(matches, i, JNull) && !Valid(matches, e, JNull)
  {
    var text := Typed(StringType(NO_STRING_RULES));
    var e := Node(None, Absent, Listed([text]), Absent, Untyped);
    var i := Node(None, Absent, Listed([text, Typed(NullType)]), Absent, Untyped);
    assert StringConforms(NO_STRING_RULES, NO_STRING_RULES);
    assert Check(text, text).Accept?;
    assert FirstMatch(text, [text, Typed(NullType)]).Accept?;
    assert AnyMatch([text], [text, Typed(NullType)]).Accept?;
    assert CheckAny([text], [text, Typed(NullType)]).Accept?;
    assert CheckForm(e, i).Accept?;
    assert Valid(matches, [text, Typed(NullType)][1], JNull);
    assert !Valid(matches, text, JNull);
  }

  function Within(low: Option<real>, high: Option<real>): Schema {
    Typed(NumberType(false, NO_NUMBER_RULES.(minimum := low, maximum := high)))
  }

  lemma WithinValid(matches: Engine, low: Option<real>, high: Option<real>, n: real)
    ensures Valid(matches, Within(low, high), JNumber(n)) <==>
              (low.Some? ==> low.value <= n) && (high.Some? ==> n <= high.value)
  {
    assert BodyValid(matches, Within(low, high).body, JNumber(n)) <==>
        (low.Some? ==> low.value <= n) && (high.Some? ==> n <= high.value);
  }

  lemma WithinConforms(low: Option<real>, high: Option<real>, iLow: Option<real>, iHigh: Option<real>)
    ensures var accepted :=
        && (high.Some? ==> iHigh.Some? && iHigh.value <= high.value)
        && (low.Some? ==> iLow.Some? && low.value <= iLow.value);
      Check(Within(low, high), Within(iLow, iHigh)) == When(accepted)
  {
    assert CheckForm(Within(low, high), Within(iLow, iHigh))
        == CheckBody(Within(low, high).body, Within(iLow, iHigh).body);
  }

  function OneOfTwo(first: Schema, second: Schema): Schema {
    Node(None, Absent, Absent, Listed([first, second]), Untyped)
  }

  lemma OneOfTwoConforms(e1: Schema, e2: Schema, i1: Schema, i2: Schema)
    requires Conforms(e1, i1) && Check(e2, i1).Reject? && Conforms(e2, i2)
    ensures Conforms(OneOfTwo(e1, e2), OneOfTwo(i1, i2))
  {
    var es, impls := [e1, e2], [i1, i2];
    assert impls[1..] == [i2] && es[1..] == [e2];
    assert FirstMatch(e1, impls).Accept?;
    assert FirstMatch(e2, [i2]).Accept?;
    assert FirstMatch(e2, impls).Accept?;
    assert CheckEach([], impls).Accept?;
    assert CheckEach([e2], impls).Accept?;
    assert CheckEach(es, impls).Accept?;
    assert CheckAll(es, impls).Accept?;
    assert CheckForm(OneOfTwo(e1, e2), OneOfTwo(i1, i2)).Accept?;
  }

  lemma OneOfTwoValid(matches: Engine, first: Schema, second: Schema, v: Json)
    requires Valid(matches, first, v) && !Valid(matches, second, v)
    ensures Valid(matches, OneOfTwo(first, second), v)
  {
    var es := OneOfTwo(first, second).oneOf.schemas;
    assert BodyValid(matches, Untyped, v);
    assert Valid(matches, es[0], v) && forall l :: 0 <= l < |es| && l != 0 ==> !Valid(matches, es[l], v);
  }

  lemma OneOfTwoInvalid(matches: Engine, first: Schema, second: Schema, v: Json)
    requires Valid(matches, first, v) && Valid(matches, second, v)
    ensures !Valid(matches, OneOfTwo(first, second), v)
  {
    var es := OneOfTwo(first, second).oneOf.schemas;
    assert Valid(matches, es[0], v) && Valid(matches, es[1], v);
  }

  /** `oneOf` is matched like `allOf`: two disjoint options may implement two that overlap. */
  lemma OneOfIsUnsound(matches: Engine)
    ensures var e := OneOfTwo(Within(None, Some(1.0)), Within(Some(0.0), None));
      var i := OneOfTwo(Within(None, Some(0.0)), Within(Some(1.0), None));
      Conforms(e, i) && Valid(matches, i, JNumber(0.0)) && !Valid(matches, e, JNumber(0.0))
  {
    var atMostOne, atLeastZero := Within(None, Some(1.0)), Within(Some(0.0), None);
    var atMostZero, atLeastOne := Within(None, Some(0.0)), Within(Some(1.0), None);
    WithinConforms(None, Some(1.0), None, Some(0.0));
    WithinConforms(Some(0.0), None, None, Some(0.0));
    WithinConforms(Some(0.0), None, Some(1.0), None);
    OneOfTwoConforms(atMostOne, atLeastZero, atMostZero, atLeastOne);
    WithinValid(matches, None, Some(1.0), 0.0);
    WithinValid(matches, Some(0.0), None, 0.0);
    OneOfTwoInvalid(matches, atMostOne, atLeastZero, JNumber(0.0));
    WithinValid(matches, None, Some(0.0), 0.0);
    WithinValid(matches, Some(1.0), None, 0.0);
    OneOfTwoValid(matches, atMostZero, atLeastOne, JNumber(0.0));
  }

  /** The number check never looks at `enum`. */
  lemma NumberEnumIsIgnored(matches: Engine)
    ensures var e := Typed(NumberType(true, NO_NUMBER_RULES.(enumeration := Some([1.0]))));
      var i := Typed(NumberType(true, NO_NUMBER_RULES));
      Conforms(e, i) && Valid(matches, i, JNumber(2.0)) && !Valid(matches, e, JNumber(2.0))
  {
  }

  /** Next to `allOf` the expected `type` is not compared. */
  lemma SecondFormIsIgnored(matches: Engine)
    ensures var e := Node(None, Listed([]), Absent, Absent, NullType);
      var i := Node(None, Listed([]), Absent, Absent, BooleanType(None, None));
      Conforms(e, i) && Valid(matches, i, JBoolean(true)) && !Valid(matches, e, JBoolean(true))
  {
    var e := Node(None, Listed([]), Absent, Absent, NullType);
    var i := Node(None, Listed([]), Absent, Absent, BooleanType(None, None));
    assert CheckForm(e, i).Accept?;
  }

  /** One character above U+FFFF passes for a text of minimum length two. */
  lemma AstralConstantIsUnsound(matches: Engine)
    ensures var e := Typed(StringType(NO_STRING_RULES.(minLength := Some(2))));
      var i := Typed(StringType(NO_STRING_RULES.(constant := Some("\U{1F600}"))));
      Conforms(e, i) && Valid(matches, i, JString("\U{1F600}")) && !Valid(matches, e, JString("\U{1F600}"))
  {
    assert Utf16Length("\U{1F600}"[1..]) == 0;
    assert Utf16Length("\U{1F600}") == 2;
  }
}
