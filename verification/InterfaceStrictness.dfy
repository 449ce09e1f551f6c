/**
 When an implementation is accepted, as a relation between the keywords of two schemas: without the order
 of the tests, their early exits and their errors.
 */
module InterfaceStrictness {
  import opened Wrappers
  import opened JsonSchema
  import opened InterfacesUtils
  import opened InterfaceConformance
  import opened InterfaceThrows
  import opened InterfaceOrder

  // ---------------------------------------------------------------- bounds

  /** An expected upper bound is there, and not higher. */
  predicate NotHigher(expected: Option<real>, implemented: Option<real>) {
    expected.Some? ==> implemented.Some? && implemented.value <= expected.value
  }

  /** An expected lower bound is there, and not lower. */
  predicate NotLower(expected: Option<real>, implemented: Option<real>) {
    expected.Some? ==> implemented.Some? && implemented.value >= expected.value
  }

  function AsReal(n: Option<nat>): Option<real> {
    if n.Some? then Some(n.value as real) else None
  }

  // ---------------------------------------------------------------- types

  predicate SameIfGiven<T(==)>(expected: Option<T>, implemented: Option<T>) {
    expected.None? || implemented == expected
  }

  /** A constant lies within the expected bounds, and other numbers are bounded at least as much. */
  predicate NumbersWithin(e: NumberRules, i: NumberRules) {
    && SameIfGiven(e.constant, i.constant)
    && match i.constant
       case Some(c) =>
         && (e.minimum.Some? ==> c >= e.minimum.value) && (e.maximum.Some? ==> c <= e.maximum.value)
         && (e.exclusiveMinimum.Some? ==> c > e.exclusiveMinimum.value)
         && (e.exclusiveMaximum.Some? ==> c < e.exclusiveMaximum.value)
       case None =>
         && NotLower(e.minimum, i.minimum) && NotHigher(e.maximum, i.maximum)
         && NotLower(e.exclusiveMinimum, i.exclusiveMinimum) && NotHigher(e.exclusiveMaximum, i.exclusiveMaximum)
  }

  /** The same for texts; a constant is listed, or the listed values are some of the expected ones. */
  predicate TextsWithin(e: StringRules, i: StringRules) {
    && SameIfGiven(e.constant, i.constant) && SameIfGiven(e.pattern, i.pattern)
    && (e.enumeration.Some? ==>
          if i.constant.Some? then i.constant.value in e.enumeration.value
          else i.enumeration.Some? && i.enumeration.value != []
               && forall v :: v in i.enumeration.value ==> v in e.enumeration.value)
    && match i.constant
       case Some(c) =>
         && (e.minLength.Some? ==> Utf16Length(c) >= e.minLength.value)
         && (e.maxLength.Some? ==> Utf16Length(c) <= e.maxLength.value)
       case None =>
         && NotLower(AsReal(e.minLength), AsReal(i.minLength)) && NotHigher(AsReal(e.maxLength), AsReal(i.maxLength))
  }

  // ---------------------------------------------------------------- schemas

  /** The same title if one is expected, and the first form of the interface is implemented. */
  ghost predicate AsStrict(e: Schema, i: Schema)
    decreases e, 1
  {
    match e
    case Always(_) => i == e
    case Reference(_) => false
    case Node(title, allOf, anyOf, oneOf, body) =>
      && !i.Always? && (title.Some? ==> i.Node? && i.title == title)
      && if allOf.Listed? then i.Node? && i.allOf.Listed? && EachImplemented(allOf.schemas, i.allOf.schemas)
         else if anyOf.Listed? then
           anyOf.schemas == []
           || SomeImplemented(anyOf.schemas, if i.Node? && i.anyOf.Listed? then i.anyOf.schemas else [i])
         else if oneOf.Listed? then i.Node? && i.oneOf.Listed? && EachImplemented(oneOf.schemas, i.oneOf.schemas)
         else i.Node? && TypeImplemented(body, i.body)
  }

  /** As many, and each expected one is implemented by some. */
  ghost predicate EachImplemented(es: seq<Schema>, impls: seq<Schema>)
    decreases es, 3
  {
    |es| == |impls| && forall k :: 0 <= k < |es| ==> ImplementedBySome(es[k], impls)
  }

  ghost predicate SomeImplemented(es: seq<Schema>, impls: seq<Schema>)
    decreases es, 3
  {
    exists k :: 0 <= k < |es| && ImplementedBySome(es[k], impls)
  }

  ghost predicate ImplementedBySome(e: Schema, impls: seq<Schema>)
    decreases e, 2
  {
    exists l :: 0 <= l < |impls| && AsStrict(e, impls[l])
  }

  ghost predicate TypeImplemented(e: Body, i: Body)
    decreases e, 1
  {
    match (e, i)
    case (NullType, NullType) => true
    case (BooleanType(c, _), BooleanType(d, _)) => SameIfGiven(c, d)
    case (NumberType(p, m), NumberType(q, n)) => p == q && NumbersWithin(m, n)
    case (StringType(r), StringType(s)) => TextsWithin(r, s)
    case (ArrayType(eMin, eMax, eItems), ArrayType(iMin, iMax, iItems)) =>
      && NotLower(AsReal(eMin), AsReal(iMin)) && NotHigher(AsReal(eMax), AsReal(iMax))
      && eItems.Some? && iItems.Some?
      && Resolve(eItems.value).Some? && Resolve(iItems.value).Some?
      && AsStrict(Resolve(eItems.value).value, Resolve(iItems.value).value)
    case (ObjectType(eRequired, eProperties), ObjectType(iRequired, iProperties)) =>
      && (forall name :: name in eRequired ==> name in iRequired)
      && forall k :: 0 <= k < |eProperties| ==> PropertyImplemented(eProperties[k], iProperties)
    case _ => false
  }

  predicate IsFirst(properties: seq<Property>, key: string, l: nat) {
    l < |properties| && properties[l].key == key && forall m :: 0 <= m < l ==> properties[m].key != key
  }

  /** The property is there, and as strict. */
  ghost predicate PropertyImplemented(e: Property, i: seq<Property>)
    decreases e
  {
    exists l: nat :: IsFirst(i, e.key, l) && Resolve(e.schema).Some? && Resolve(i[l].schema).Some? &&
      AsStrict(Resolve(e.schema).value, Resolve(i[l].schema).value)
  }

  // ---------------------------------------------------------------- acceptance

  lemma NumbersConformIff(e: NumberRules, i: NumberRules)
    ensures NumberConforms(e, i) <==> NumbersWithin(e, i)
  {
  }

  lemma TextsConformIff(e: StringRules, i: StringRules)
    ensures StringConforms(e, i) <==> TextsWithin(e, i)
  {
    if e.enumeration.Some? && i.constant.None? && i.enumeration.Some? && i.enumeration.value != [] {
      assert i.enumeration.value[0] in i.enumeration.value;
    }
  }

  /**
   Main result: without a throw in the way, an implementation is accepted exactly when its keywords are as
   strict as the expected ones, through lists, items and properties.
   */
  lemma {:induction false} AcceptedExactly(e: Schema, i: Schema)
    requires HasForms(e) && ReferencesResolve(i)
    ensures Conforms(e, i) <==> AsStrict(e, i)
    decreases e, 1
  {
    if e.Node? && !i.Always? {
      if e.allOf.Listed? {
        if AllOf(i).Listed? {
          EachAcceptedExactly(e.allOf.schemas, i.allOf.schemas);
          assert CheckForm(e, i) == CheckAll(e.allOf.schemas, i.allOf.schemas);
        } else {
          assert CheckForm(e, i).Reject?;
        }
      } else if e.anyOf.Listed? {
        SomeAcceptedExactly(e.anyOf.schemas, Alternatives(i));
        assert CheckForm(e, i) == CheckAny(e.anyOf.schemas, Alternatives(i));
      } else if e.oneOf.Listed? {
        if OneOf(i).Listed? {
          EachAcceptedExactly(e.oneOf.schemas, i.oneOf.schemas);
          assert CheckForm(e, i) == CheckAll(e.oneOf.schemas, i.oneOf.schemas);
        } else {
          assert CheckForm(e, i).Reject?;
        }
      } else if i.Node? {
        TypeAcceptedExactly(e.body, i.body);
        assert CheckForm(e, i) == CheckBody(e.body, i.body);
      } else {
        assert !e.body.Untyped? && CheckForm(e, i) == CheckBody(e.body, Untyped);
      }
    }
  }

  lemma {:induction false} ImplementedExactly(e: Schema, impls: seq<Schema>)
    requires HasForms(e) && AllResolve(impls)
    ensures Matched(e, impls) <==> ImplementedBySome(e, impls)
    decreases e, 2
  {
    forall l | 0 <= l < |impls| ensures Conforms(e, impls[l]) <==> AsStrict(e, impls[l]) {
      AcceptedExactly(e, impls[l]);
    }
  }

  lemma {:induction false} EachAcceptedExactly(es: seq<Schema>, impls: seq<Schema>)
    requires AllHaveForms(es) && AllResolve(impls)
    ensures CheckAll(es, impls).Accept? <==> EachImplemented(es, impls)
    decreases es, 3
  {
    forall k | 0 <= k < |es| ensures Matched(es[k], impls) <==> ImplementedBySome(es[k], impls) {
      ImplementedExactly(es[k], impls);
    }
    if CheckAll(es, impls).Accept? {
      forall k | 0 <= k < |es| ensures Matched(es[k], impls) {
        EachMatchConforms(es, impls, k);
      }
    } else if EachImplemented(es, impls) {
      ConformsEach(es, impls);
    }
  }

  lemma {:induction false} SomeAcceptedExactly(es: seq<Schema>, impls: seq<Schema>)
    requires AllHaveForms(es) && AllResolve(impls)
    ensures CheckAny(es, impls).Accept? <==> es == [] || SomeImplemented(es, impls)
    decreases es, 3
  {
    forall k | 0 <= k < |es| ensures Matched(es[k], impls) <==> ImplementedBySome(es[k], impls) {
      ImplementedExactly(es[k], impls);
    }
    if es != [] {
      if CheckAny(es, impls).Accept? {
        AnyMatchConforms(es, impls);
        var k, l :| 0 <= k < |es| && 0 <= l < |impls| && Conforms(es[k], impls[l]);
        assert Matched(es[k], impls);
      } else if k :| 0 <= k < |es| && ImplementedBySome(es[k], impls) {
        ConformsAny(es, impls, k);
      }
    }
  }

  lemma {:induction false} TypeAcceptedExactly(e: Body, i: Body)
    requires HasFormsBody(e) && BodyReferencesResolve(i)
    ensures CheckBody(e, i).Accept? <==> TypeImplemented(e, i)
    decreases e, 1
  {
    match (e, i)
    case (NumberType(_, m), NumberType(_, n)) => NumbersConformIff(m, n);
    case (StringType(r), StringType(s)) => TextsConformIff(r, s);
    case (ArrayType(_, _, eItems), ArrayType(_, _, iItems)) =>
      if eItems.Some? && iItems.Some? && Resolve(eItems.value).Some? && Resolve(iItems.value).Some? {
        AcceptedExactly(Resolve(eItems.value).value, Resolve(iItems.value).value);
      }
    case (ObjectType(_, es), ObjectType(_, impls)) => PropertiesAcceptedExactly(es, impls);
    case _ =>
  }

  lemma {:induction false} PropertiesAcceptedExactly(es: seq<Property>, impls: seq<Property>)
    requires forall k :: 0 <= k < |es| ==> HasFormsProperty(es[k])
    requires forall l :: 0 <= l < |impls| ==> PropertyReferencesResolve(impls[l])
    ensures CheckProperties(es, impls).Accept? <==>
              forall k :: 0 <= k < |es| ==> PropertyImplemented(es[k], impls)
    decreases es, 3
  {
    forall k | 0 <= k < |es|
      ensures CheckProperty(es[k], Lookup(impls, es[k].key)).Accept? <==> PropertyImplemented(es[k], impls)
    {
      PropertyAcceptedExactly(es[k], impls);
    }
    if CheckProperties(es, impls).Accept? {
      forall k | 0 <= k < |es| ensures CheckProperty(es[k], Lookup(impls, es[k].key)).Accept? {
        PropertyChecked(es, impls, k);
      }
    } else if forall k :: 0 <= k < |es| ==> PropertyImplemented(es[k], impls) {
      ConformsProperties(es, impls);
    }
  }

  lemma {:induction false} PropertyAcceptedExactly(e: Property, impls: seq<Property>)
    requires HasFormsProperty(e)
    requires forall l :: 0 <= l < |impls| ==> PropertyReferencesResolve(impls[l])
    ensures CheckProperty(e, Lookup(impls, e.key)).Accept? <==> PropertyImplemented(e, impls)
    decreases e
  {
    if Lookup(impls, e.key).Some? {
      var l := LookupFirst(impls, e.key);
      assert PropertyReferencesResolve(impls[l]);
      AcceptedExactly(Resolve(e.schema).value, Resolve(impls[l].schema).value);
    } else {
      LookupFinds(impls, e.key);
    }
  }

  lemma {:induction false} LookupFirst(properties: seq<Property>, key: string) returns (l: nat)
    requires Lookup(properties, key).Some?
    ensures IsFirst(properties, key, l) && Lookup(properties, key) == Some(properties[l].schema)
  {
    l := 0;
    if properties[0].key != key {
      l := LookupFirst(properties[1..], key);
      assert forall m :: 0 < m <= l + 1 ==> properties[m] == properties[1..][m - 1];
      l := l + 1;
    }
  }

  /** An accepted pair agrees in the title, if the interface has one. */
  lemma TitlesAgree(e: Schema, i: Schema)
    requires Conforms(e, i) && e.Node? && e.title.Some?
    ensures i.Node? && i.title == e.title
  {
  }

  /** For properties and items a reference stands for what it points at, on either side. */
  lemma ReferenceStandsForTarget(key: string, target: Schema, other: Schema, body: Body)
    requires !target.Reference?
    ensures CheckProperty(Property(key, Reference(Some(target))), Some(other))
         == CheckProperty(Property(key, target), Some(other))
    ensures CheckProperty(Property(key, other), Some(Reference(Some(target))))
         == CheckProperty(Property(key, other), Some(target))
    ensures CheckBody(ArrayType(None, None, Some(Reference(Some(target)))), body)
         == CheckBody(ArrayType(None, None, Some(target)), body)
    ensures CheckBody(body, ArrayType(None, None, Some(Reference(Some(target)))))
         == CheckBody(body, ArrayType(None, None, Some(target)))
  {
  }

  /** One that points nowhere is never accepted. */
  lemma LostReferenceIsNotAccepted(key: string, other: Schema, body: Body)
    ensures !CheckProperty(Property(key, Reference(None)), Some(other)).Accept?
    ensures !CheckProperty(Property(key, other), Some(Reference(None))).Accept?
    ensures !CheckBody(ArrayType(None, None, Some(Reference(None))), body).Accept?
    ensures !CheckBody(body, ArrayType(None, None, Some(Reference(None)))).Accept?
  {
  }

  // ---------------------------------------------------------------- which keywords are reported

  predicate Reported(errors: seq<ErrorData>, property: string) {
    exists k :: 0 <= k < |errors| && errors[k].property == property
  }

  lemma ReportedIf(path: seq<string>, violated: bool, keyword: string, property: string)
    ensures Reported(ErrorIf(path, violated, keyword), property) <==> violated && keyword == property
  {
    if violated {
      assert ErrorIf(path, violated, keyword)[0].property == keyword;
    }
  }

  lemma ReportedInBoth(a: seq<ErrorData>, b: seq<ErrorData>, property: string)
    ensures Reported(a + b, property) <==> Reported(a, property) || Reported(b, property)
  {
    if k :| 0 <= k < |b| && b[k].property == property {
      assert (a + b)[|a| + k] == b[k];
    }
    if k :| 0 <= k < |a| && a[k].property == property {
      assert (a + b)[k] == a[k];
    }
  }

  lemma ReportedNext(a: seq<ErrorData>, path: seq<string>, violated: bool, keyword: string, property: string)
    ensures Reported(a + ErrorIf(path, violated, keyword), property)
       <==> Reported(a, property) || (violated && keyword == property)
  {
    ReportedInBoth(a, ErrorIf(path, violated, keyword), property);
    ReportedIf(path, violated, keyword, property);
  }

  /** A number is reported for exactly the keywords that are not implemented. */
  lemma NumberErrorsName(path: seq<string>, e: NumberRules, i: NumberRules, property: string)
    requires i.constant.None?
    ensures Reported(NumberErrors(path, e, i), property) <==>
      || (property == "const" && e.constant.Some?)
      || (property == "maximum" && !NotHigher(e.maximum, i.maximum))
      || (property == "minimum" && !NotLower(e.minimum, i.minimum))
      || (property == "exclusiveMaximum" && !NotHigher(e.exclusiveMaximum, i.exclusiveMaximum))
      || (property == "exclusiveMinimum" && !NotLower(e.exclusiveMinimum, i.exclusiveMinimum))
  {
    var a := ErrorIf(path, e.constant.Some?, "const");
    ReportedIf(path, e.constant.Some?, "const", property);
    ReportedNext(a, path, Exceeds(e.maximum, None, i.maximum), "maximum", property);
    var b := a + ErrorIf(path, Exceeds(e.maximum, None, i.maximum), "maximum");
    ReportedNext(b, path, FallsBelow(e.minimum, None, i.minimum), "minimum", property);
    var c := b + ErrorIf(path, FallsBelow(e.minimum, None, i.minimum), "minimum");
    var high, low := Exceeds(e.exclusiveMaximum, None, i.exclusiveMaximum),
                     FallsBelow(e.exclusiveMinimum, None, i.exclusiveMinimum);
    ReportedNext(c, path, high, "exclusiveMaximum", property);
    ReportedNext(c + ErrorIf(path, high, "exclusiveMaximum"), path, low, "exclusiveMinimum", property);
  }

  /** The same for texts. */
  lemma StringErrorsName(path: seq<string>, e: StringRules, i: StringRules, property: string)
    requires i.constant.None?
    ensures Reported(StringErrors(path, e, i), property) <==>
      || (property == "const" && e.constant.Some?)
      || (property == "enum" && e.enumeration.Some?
          && !(i.enumeration.Some? && i.enumeration.value != []
               && forall v :: v in i.enumeration.value ==> v in e.enumeration.value))
      || (property == "pattern" && e.pattern.Some? && i.pattern != e.pattern)
      || (property == "maxLength" && !NotHigher(AsReal(e.maxLength), AsReal(i.maxLength)))
      || (property == "minLength" && !NotLower(AsReal(e.minLength), AsReal(i.minLength)))
  {
    var listed := e.enumeration.Some? && !EnumConforms(e.enumeration.value, i);
    var a := ErrorIf(path, e.constant.Some?, "const");
    ReportedIf(path, e.constant.Some?, "const", property);
    ReportedNext(a, path, listed, "enum", property);
    var b := a + ErrorIf(path, listed, "enum");
    ReportedNext(b, path, e.pattern.Some? && i.pattern != e.pattern, "pattern", property);
    var c := b + ErrorIf(path, e.pattern.Some? && i.pattern != e.pattern, "pattern");
    var high := Exceeds(Length(e.maxLength), None, Length(i.maxLength));
    ReportedNext(c, path, high, "maxLength", property);
    ReportedNext(c + ErrorIf(path, high, "maxLength"), path,
                 FallsBelow(Length(e.minLength), None, Length(i.minLength)), "minLength", property);
    if e.enumeration.Some? && i.enumeration.Some? && i.enumeration.value != [] {
      assert i.enumeration.value[0] in i.enumeration.value;
    }
  }
}
