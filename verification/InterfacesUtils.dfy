/**
 The check that a model's schema implements the schema of an interface, which reports a list of
 errors and accepts when the list is empty (packages/stream-model-handler/src/interfaces-utils.ts).
 */
module InterfacesUtils {
  import opened Wrappers
  import opened JsonSchema

  // ---------------------------------------------------------------- what the check decides

  /** `Accept`: no error. `Reject`: some error. `Crash`: the check itself throws. */
  datatype Verdict = Accept | Reject | Crash

  function When(accepted: bool): Verdict {
    if accepted then Accept else Reject
  }

  /** Errors accumulate; a throw aborts everything. */
  function Join(a: Verdict, b: Verdict): Verdict {
    if a.Crash? || b.Crash? then Crash else When(a.Accept? && b.Accept?)
  }

  // The keywords of a schema object; a `$ref` object has none of them.

  function TitleOf(s: Schema): Option<string> {
    if s.Node? then s.title else None
  }

  function AllOf(s: Schema): Subschemas {
    if s.Node? then s.allOf else Absent
  }

  function AnyOf(s: Schema): Subschemas {
    if s.Node? then s.anyOf else Absent
  }

  function OneOf(s: Schema): Subschemas {
    if s.Node? then s.oneOf else Absent
  }

  function BodyOf(s: Schema): Body {
    if s.Node? then s.body else Untyped
  }

  /** One step of reference resolution: the target may itself be a reference. */
  function Resolve(s: Schema): Option<Schema> {
    if s.Reference? then s.target else Some(s)
  }

  function Lookup(properties: seq<Property>, key: string): Option<Schema> {
    if properties == [] then None
    else if properties[0].key == key then Some(properties[0].schema)
    else Lookup(properties[1..], key)
  }

  function Alternatives(s: Schema): seq<Schema> {
    if AnyOf(s).Listed? then AnyOf(s).schemas else [s]
  }

  predicate SameWhenExpected<T(==)>(e: Option<T>, i: Option<T>) {
    e.Some? ==> i == e
  }

  predicate NumberConforms(e: NumberRules, i: NumberRules) {
    && SameWhenExpected(e.constant, i.constant)
    && if i.constant.Some? then
         NumberValid(e.(constant := None, enumeration := None), i.constant.value)
       else
         && (e.maximum.Some? ==> i.maximum.Some? && i.maximum.value <= e.maximum.value)
         && (e.minimum.Some? ==> i.minimum.Some? && e.minimum.value <= i.minimum.value)
         && (e.exclusiveMaximum.Some? ==>
               i.exclusiveMaximum.Some? && i.exclusiveMaximum.value <= e.exclusiveMaximum.value)
         && (e.exclusiveMinimum.Some? ==>
               i.exclusiveMinimum.Some? && e.exclusiveMinimum.value <= i.exclusiveMinimum.value)
  }

  predicate EnumConforms(e: seq<string>, i: StringRules) {
    if i.constant.Some? then i.constant.value in e
    else
      && i.enumeration.Some?
      && (exists value :: value in e && value in i.enumeration.value)
      && (forall value :: value in i.enumeration.value ==> value in e)
  }

  predicate LengthConforms(e: StringRules, i: StringRules) {
    if i.constant.Some? then
      && (e.maxLength.Some? ==> Utf16Length(i.constant.value) <= e.maxLength.value)
      && (e.minLength.Some? ==> e.minLength.value <= Utf16Length(i.constant.value))
    else
      && (e.maxLength.Some? ==> i.maxLength.Some? && i.maxLength.value <= e.maxLength.value)
      && (e.minLength.Some? ==> i.minLength.Some? && e.minLength.value <= i.minLength.value)
  }

  predicate StringConforms(e: StringRules, i: StringRules) {
    && SameWhenExpected(e.constant, i.constant)
    && (e.enumeration.Some? ==> EnumConforms(e.enumeration.value, i))
    && SameWhenExpected(e.pattern, i.pattern)
    && LengthConforms(e, i)
  }

  predicate SizeConforms(eMin: Option<nat>, eMax: Option<nat>, iMin: Option<nat>, iMax: Option<nat>) {
    && (eMax.Some? ==> iMax.Some? && iMax.value <= eMax.value)
    && (eMin.Some? ==> iMin.Some? && eMin.value <= iMin.value)
  }

  function Check(e: Schema, i: Schema): Verdict
    decreases e, 1
  {
    if e.Always? then When(i == e)
    else if i.Always? then Reject
    else Join(When(SameWhenExpected(TitleOf(e), TitleOf(i))), CheckForm(e, i))
  }

  function CheckForm(e: Schema, i: Schema): Verdict
    decreases e, 0
  {
    if AllOf(e).Listed? then
      if AllOf(i).Listed? then CheckAll(AllOf(e).schemas, AllOf(i).schemas) else Reject
    else if AnyOf(e).Listed? then CheckAny(AnyOf(e).schemas, Alternatives(i))
    else if OneOf(e).Listed? then
      if OneOf(i).Listed? then CheckAll(OneOf(e).schemas, OneOf(i).schemas) else Reject
    else if e.Node? then CheckBody(e.body, BodyOf(i))
    else if BodyOf(i).Untyped? then Crash
    else Reject
  }

  function CheckBody(e: Body, i: Body): Verdict
    decreases e
  {
    match (e, i)
    case (Untyped, Untyped) => Crash
    case (NullType, NullType) => Accept
    case (BooleanType(c, _), BooleanType(d, _)) => When(SameWhenExpected(c, d))
    case (NumberType(a, m), NumberType(b, n)) => if a == b then When(NumberConforms(m, n)) else Reject
    case (StringType(r), StringType(s)) => When(StringConforms(r, s))
    case (ArrayType(eMin, eMax, eItems), ArrayType(iMin, iMax, iItems)) =>
      Join(When(SizeConforms(eMin, eMax, iMin, iMax)),
           if eItems.None? || iItems.None? then Reject else
           var re, ri := Resolve(eItems.value), Resolve(iItems.value);
           if re.None? || ri.None? then Reject else Check(re.value, ri.value))
    case (ObjectType(eRequired, eProperties), ObjectType(iRequired, iProperties)) =>
      Join(When(forall key :: key in eRequired ==> key in iRequired),
           CheckProperties(eProperties, iProperties))
    case _ => Reject
  }

  function CheckProperties(e: seq<Property>, i: seq<Property>): Verdict
    decreases e, 0
  {
    if e == [] then Accept
    else Join(CheckProperty(e[0], Lookup(i, e[0].key)), CheckProperties(e[1..], i))
  }

  /** A reference that resolves to nothing is `null`, and reading a keyword of `null` throws. */
  function CheckProperty(e: Property, i: Option<Schema>): Verdict
    decreases e
  {
    if i.None? then Reject else
    var re, ri := Resolve(e.schema), Resolve(i.value);
    if re.None? then (if ri.Some? && ri.value.Always? then Reject else Crash)
    else if ri.None? then (if re.value.Always? then Reject else Crash)
    else Check(re.value, ri.value)
  }

  function CheckAll(es: seq<Schema>, impls: seq<Schema>): Verdict
    decreases es, 2
  {
    if |es| != |impls| then Reject else CheckEach(es, impls)
  }

  function CheckEach(es: seq<Schema>, impls: seq<Schema>): Verdict
    decreases es, 1
  {
    if es == [] then Accept else Join(FirstMatch(es[0], impls), CheckEach(es[1..], impls))
  }

  function CheckAny(es: seq<Schema>, impls: seq<Schema>): Verdict
    decreases es, 2
  {
    if es == [] then Accept else AnyMatch(es, impls)
  }

  function AnyMatch(es: seq<Schema>, impls: seq<Schema>): Verdict
    decreases es, 1
  {
    if es == [] then Reject else
    var first := FirstMatch(es[0], impls);
    if first.Reject? then AnyMatch(es[1..], impls) else first
  }

  function FirstMatch(e: Schema, impls: seq<Schema>): Verdict
    decreases e, 2, |impls|
  {
    if impls == [] then Reject else
    var first := Check(e, impls[0]);
    if first.Reject? then FirstMatch(e, impls[1..]) else first
  }

  // ---------------------------------------------------------------- the check itself

  /** Where an error was found: the path, the keyword, and the position in a list of subschemas. */
  datatype ErrorData = ErrorData(path: seq<string>, property: string, index: Option<nat>)

  /** Either a list of errors, or the exception the check ended with. */
  type Outcome = Result<seq<ErrorData>, string>

  function VerdictOf(r: Outcome): Verdict {
    if r.Failure? then Crash else When(r.value == [])
  }

  ghost predicate Under(path: seq<string>, errors: seq<ErrorData>) {
    forall k :: 0 <= k < |errors| ==> path <= errors[k].path
  }

  /** Every reported error lies at or below the place that was checked. */
  ghost predicate Located(path: seq<string>, r: Outcome) {
    r.Success? ==> Under(path, r.value)
  }

  /** An expected upper bound that a constant exceeds, or that no lower or equal one replaces. */
  predicate Exceeds(expected: Option<real>, constant: Option<real>, bound: Option<real>) {
    expected.Some? &&
    if constant.Some? then constant.value > expected.value else bound.None? || bound.value > expected.value
  }

  predicate FallsBelow(expected: Option<real>, constant: Option<real>, bound: Option<real>) {
    expected.Some? &&
    if constant.Some? then constant.value < expected.value else bound.None? || bound.value < expected.value
  }

  /** One error at this place when the keyword is violated. */
  function ErrorIf(path: seq<string>, violated: bool, property: string): seq<ErrorData> {
    if violated then [ErrorData(path, property, None)] else []
  }

  /** Push an error when a keyword is not implemented as expected. */
  method Report(path: seq<string>, errors: seq<ErrorData>, property: string, invalid: bool) returns (r: seq<ErrorData>)
    ensures r == errors + ErrorIf(path, invalid, property)
  {
    r := errors;
    if invalid {
      r := r + [ErrorData(path, property, None)];
    }
  }

  method ValidateBooleanSchema(path: seq<string>, expected: Option<bool>, implemented: Option<bool>)
    returns (errors: seq<ErrorData>)
    ensures errors == [] <==> SameWhenExpected(expected, implemented)
    ensures errors == ErrorIf(path, expected.Some? && implemented != expected, "const")
    ensures Under(path, errors)
  {
    if expected.Some? && implemented != expected {
      return [ErrorData(path, "const", None)];
    }
    return [];
  }

  /** The violated keywords of numbers, in the order of the tests. */
  function NumberErrors(path: seq<string>, e: NumberRules, i: NumberRules): seq<ErrorData> {
    ErrorIf(path, e.constant.Some? && i.constant != e.constant, "const")
    + ErrorIf(path, Exceeds(e.maximum, i.constant, i.maximum), "maximum")
    + ErrorIf(path, FallsBelow(e.minimum, i.constant, i.minimum), "minimum")
    + ErrorIf(path, Exceeds(e.exclusiveMaximum, i.constant, i.exclusiveMaximum)
                    || (i.constant.Some? && i.constant == e.exclusiveMaximum), "exclusiveMaximum")
    + ErrorIf(path, FallsBelow(e.exclusiveMinimum, i.constant, i.exclusiveMinimum)
                    || (i.constant.Some? && i.constant == e.exclusiveMinimum), "exclusiveMinimum")
  }

  lemma NumberErrorsExactly(path: seq<string>, e: NumberRules, i: NumberRules)
    ensures NumberErrors(path, e, i) == [] <==> NumberConforms(e, i)
    ensures Under(path, NumberErrors(path, e, i))
  {
  }

  method ValidateNumberSchema(path: seq<string>, expected: NumberRules, implemented: NumberRules)
    returns (errors: seq<ErrorData>)
    ensures errors == [] <==> NumberConforms(expected, implemented)
    ensures errors == NumberErrors(path, expected, implemented)
    ensures Under(path, errors)
  {
    var constant := implemented.constant;
    errors := Report(path, [], "const", expected.constant.Some? && constant != expected.constant);
    errors := ReportUpper(path, errors, "maximum", expected.maximum, constant, implemented.maximum);
    errors := ReportLower(path, errors, "minimum", expected.minimum, constant, implemented.minimum);
    errors := ReportExclusiveUpper(path, errors, expected.exclusiveMaximum, constant, implemented.exclusiveMaximum);
    errors := ReportExclusiveLower(path, errors, expected.exclusiveMinimum, constant, implemented.exclusiveMinimum);
    NumberErrorsExactly(path, expected, implemented);
  }

  // The tests of bounds; those on lengths have the same form.

  method ReportUpper(path: seq<string>, errors: seq<ErrorData>, property: string,
                     expected: Option<real>, constant: Option<real>, bound: Option<real>) returns (r: seq<ErrorData>)
    ensures r == errors + ErrorIf(path, Exceeds(expected, constant, bound), property)
  {
    r := Report(path, errors, property, expected.Some? &&
      if constant.Some? then constant.value > expected.value else bound.None? || bound.value > expected.value);
  }

  method ReportLower(path: seq<string>, errors: seq<ErrorData>, property: string,
                     expected: Option<real>, constant: Option<real>, bound: Option<real>) returns (r: seq<ErrorData>)
    ensures r == errors + ErrorIf(path, FallsBelow(expected, constant, bound), property)
  {
    r := Report(path, errors, property, expected.Some? &&
      if constant.Some? then constant.value < expected.value else bound.None? || bound.value < expected.value);
  }

  method ReportExclusiveUpper(path: seq<string>, errors: seq<ErrorData>,
                              expected: Option<real>, constant: Option<real>, bound: Option<real>)
    returns (r: seq<ErrorData>)
    ensures r == errors + ErrorIf(path, Exceeds(expected, constant, bound)
                                        || (constant.Some? && constant == expected), "exclusiveMaximum")
  {
    r := Report(path, errors, "exclusiveMaximum", expected.Some? &&
      if constant.Some? then constant.value >= expected.value else bound.None? || bound.value > expected.value);
  }

  method ReportExclusiveLower(path: seq<string>, errors: seq<ErrorData>,
                              expected: Option<real>, constant: Option<real>, bound: Option<real>)
    returns (r: seq<ErrorData>)
    ensures r == errors + ErrorIf(path, FallsBelow(expected, constant, bound)
                                        || (constant.Some? && constant == expected), "exclusiveMinimum")
  {
    r := Report(path, errors, "exclusiveMinimum", expected.Some? &&
      if constant.Some? then constant.value <= expected.value else bound.None? || bound.value < expected.value);
  }

  method ValidateEnum(path: seq<string>, expected: seq<string>, implemented: StringRules)
    returns (errors: seq<ErrorData>)
    ensures errors == [] <==> EnumConforms(expected, implemented)
    ensures errors == ErrorIf(path, !EnumConforms(expected, implemented), "enum")
    ensures Under(path, errors)
  {
    var invalid := [ErrorData(path, "enum", None)];
    if implemented.constant.Some? {
      return if implemented.constant.value in expected then [] else invalid;
    }
    if implemented.enumeration.None? {
      return invalid;
    }
    var values := implemented.enumeration.value;
    var hasAnyValue := false;
    for k := 0 to |expected|
      invariant hasAnyValue <==> exists l :: 0 <= l < k && expected[l] in values
    {
      if expected[k] in values {
        hasAnyValue := true;
        break;
      }
    }
    if !hasAnyValue {
      return invalid;
    }
    for k := 0 to |values|
      invariant forall l :: 0 <= l < k ==> values[l] in expected
    {
      if values[k] !in expected {
        return invalid;
      }
    }
    return [];
  }

  /** The violated keywords of texts, in the order of the tests. */
  function StringErrors(path: seq<string>, e: StringRules, i: StringRules): seq<ErrorData> {
    ErrorIf(path, e.constant.Some? && i.constant != e.constant, "const")
    + ErrorIf(path, e.enumeration.Some? && !EnumConforms(e.enumeration.value, i), "enum")
    + ErrorIf(path, e.pattern.Some? && i.pattern != e.pattern, "pattern")
    + ErrorIf(path, Exceeds(Length(e.maxLength), ConstantLength(i), Length(i.maxLength)), "maxLength")
    + ErrorIf(path, FallsBelow(Length(e.minLength), ConstantLength(i), Length(i.minLength)), "minLength")
  }

  lemma StringErrorsExactly(path: seq<string>, e: StringRules, i: StringRules)
    ensures StringErrors(path, e, i) == [] <==> StringConforms(e, i)
    ensures Under(path, StringErrors(path, e, i))
  {
  }

  function Length(n: Option<nat>): Option<real> {
    if n.Some? then Some(n.value as real) else None
  }

  function ConstantLength(i: StringRules): Option<real> {
    if i.constant.Some? then Some(Utf16Length(i.constant.value) as real) else None
  }

  method ReportEnum(path: seq<string>, errors: seq<ErrorData>, expected: Option<seq<string>>, implemented: StringRules)
    returns (r: seq<ErrorData>)
    ensures r == errors + ErrorIf(path, expected.Some? && !EnumConforms(expected.value, implemented), "enum")
  {
    r := errors;
    if expected.Some? {
      var enumErrors := ValidateEnum(path, expected.value, implemented);
      r := r + enumErrors;
    }
  }

  method ValidateStringSchema(path: seq<string>, expected: StringRules, implemented: StringRules)
    returns (errors: seq<ErrorData>)
    ensures errors == [] <==> StringConforms(expected, implemented)
    ensures errors == StringErrors(path, expected, implemented)
    ensures Under(path, errors)
  {
    errors := Report(path, [], "const", expected.constant.Some? && implemented.constant != expected.constant);
    errors := ReportEnum(path, errors, expected.enumeration, implemented);
    errors := Report(path, errors, "pattern", expected.pattern.Some? && implemented.pattern != expected.pattern);
    var length := ConstantLength(implemented);
    errors := ReportUpper(path, errors, "maxLength", Length(expected.maxLength), length, Length(implemented.maxLength));
    errors := ReportLower(path, errors, "minLength", Length(expected.minLength), length, Length(implemented.minLength));
    StringErrorsExactly(path, expected, implemented);
  }

  method ValidateArraySchema(path: seq<string>, expected: Body, implemented: Body) returns (r: Outcome)
    requires expected.ArrayType? && implemented.ArrayType?
    ensures VerdictOf(r) == CheckBody(expected, implemented)
    ensures Located(path, r)
    decreases expected
  {
    var errors: seq<ErrorData> := [];
    if expected.maxItems.Some?
       && (implemented.maxItems.None? || implemented.maxItems.value > expected.maxItems.value) {
      errors := errors + [ErrorData(path, "maxItems", None)];
    }
    if expected.minItems.Some?
       && (implemented.minItems.None? || implemented.minItems.value < expected.minItems.value) {
      errors := errors + [ErrorData(path, "minItems", None)];
    }
    if expected.items.None? || implemented.items.None? {
      errors := errors + [ErrorData(path, "items", None)];
    } else {
      var resolvedExpected, resolvedImplemented := Resolve(expected.items.value), Resolve(implemented.items.value);
      if resolvedExpected.None? || resolvedImplemented.None? {
        errors := errors + [ErrorData(path, "items", None)];
      } else {
        var itemErrors :-
          ValidateSchemaType(path + ["items"], resolvedExpected.value, resolvedImplemented.value);
        return Success(errors + itemErrors);
      }
    }
    return Success(errors);
  }

  method ValidateObjectSchema(path: seq<string>, expected: Body, implemented: Body) returns (r: Outcome)
    requires expected.ObjectType? && implemented.ObjectType?
    ensures VerdictOf(r) == CheckBody(expected, implemented)
    ensures Located(path, r)
    decreases expected
  {
    var requiredErrors := ValidateRequired(path, expected.required, implemented.required);
    var propertyErrors :- ValidateProperties(path, expected.properties, implemented.properties);
    return Success(requiredErrors + propertyErrors);
  }

  /** Every property the interface requires has to be required by the implementation. */
  method ValidateRequired(path: seq<string>, expected: seq<string>, implemented: seq<string>)
    returns (errors: seq<ErrorData>)
    ensures errors == [] <==> forall key :: key in expected ==> key in implemented
    ensures forall k :: 0 <= k < |errors| ==> errors[k] == ErrorData(path, "required", None)
    ensures Under(path, errors)
  {
    errors := [];
    for k := 0 to |expected|
      invariant errors == [] <==> forall l :: 0 <= l < k ==> expected[l] in implemented
      invariant forall l :: 0 <= l < |errors| ==> errors[l] == ErrorData(path, "required", None)
      invariant Under(path, errors)
    {
      if expected[k] !in implemented {
        errors := errors + [ErrorData(path, "required", None)];
      }
    }
  }

  method ValidateProperties(path: seq<string>, expected: seq<Property>, implemented: seq<Property>) returns (r: Outcome)
    ensures VerdictOf(r) == CheckProperties(expected, implemented)
    ensures Located(path, r)
    decreases expected
  {
    var errors: seq<ErrorData> := [];
    for k := 0 to |expected|
      invariant Under(path, errors)
      invariant CheckProperties(expected, implemented)
             == Join(When(errors == []), CheckProperties(expected[k..], implemented))
    {
      var key := expected[k].key;
      var implementedValue := Lookup(implemented, key);
      assert expected[k..][0] == expected[k] && expected[k..][1..] == expected[k + 1..];
      if implementedValue.None? {
        errors := errors + [ErrorData(path, "properties", None)];
      } else {
        var propertyErrors :- ValidateProperty(path + [key], expected[k], implementedValue.value);
        errors := errors + propertyErrors;
      }
    }
    return Success(errors);
  }

  /** `validateSchemaType` on two resolved properties, either of which may be `null`. */
  method ValidateProperty(path: seq<string>, expected: Property, implemented: Schema) returns (r: Outcome)
    ensures VerdictOf(r) == CheckProperty(expected, Some(implemented))
    ensures Located(path, r)
    decreases expected, 1
  {
    var resolvedExpected, resolvedImplemented := Resolve(expected.schema), Resolve(implemented);
    if resolvedExpected.Some? && resolvedImplemented.Some? {
      r := ValidateSchemaType(path, resolvedExpected.value, resolvedImplemented.value);
    } else if (resolvedExpected.Some? && resolvedExpected.value.Always?)
           || (resolvedImplemented.Some? && resolvedImplemented.value.Always?) {
      r := Success([ErrorData(path, "", None)]);
    } else {
      r := Failure("Cannot read properties of null");
    }
  }

  method FindMatch(path: seq<string>, expected: Schema, implementedList: seq<Schema>)
    returns (r: Result<bool, string>)
    ensures r.Failure? <==> FirstMatch(expected, implementedList).Crash?
    ensures r.Success? ==> (r.value <==> FirstMatch(expected, implementedList).Accept?)
    decreases expected, 2
  {
    for k := 0 to |implementedList|
      invariant FirstMatch(expected, implementedList) == FirstMatch(expected, implementedList[k..])
    {
      assert implementedList[k..][0] == implementedList[k];
      assert implementedList[k..][1..] == implementedList[k + 1..];
      var matchErrors :- ValidateSchemaType(path, expected, implementedList[k]);
      if matchErrors == [] {
        return Success(true);
      }
    }
    return Success(false);
  }

  /** The error at the position of one of the first `n` that nothing matches. */
  ghost predicate Unmatched(path: seq<string>, es: seq<Schema>, impls: seq<Schema>, n: nat, e: ErrorData)
    requires n <= |es|
  {
    exists k :: 0 <= k < n && e == ErrorData(path, "", Some(k)) && !FirstMatch(es[k], impls).Accept?
  }

  method ValidateAllSchemaTypes(path: seq<string>, expectedList: seq<Schema>, implementedList: seq<Schema>)
    returns (r: Outcome)
    ensures VerdictOf(r) == CheckAll(expectedList, implementedList)
    ensures r.Success? && |expectedList| != |implementedList| ==> r.value == [ErrorData(path, "length", None)]
    ensures r.Success? && |expectedList| == |implementedList| ==>
              forall e :: e in r.value <==> Unmatched(path, expectedList, implementedList, |expectedList|, e)
    ensures Located(path, r)
    decreases expectedList
  {
    if |implementedList| != |expectedList| {
      return Success([ErrorData(path, "length", None)]);
    }
    var errors: seq<ErrorData> := [];
    for k := 0 to |expectedList|
      invariant Under(path, errors)
      invariant forall e :: e in errors <==> Unmatched(path, expectedList, implementedList, k, e)
      invariant CheckEach(expectedList, implementedList)
             == Join(When(errors == []), CheckEach(expectedList[k..], implementedList))
    {
      assert expectedList[k..][0] == expectedList[k] && expectedList[k..][1..] == expectedList[k + 1..];
      var found :- FindMatch(path, expectedList[k], implementedList);
      if !found {
        errors := errors + [ErrorData(path, "", Some(k))];
      }
    }
    return Success(errors);
  }

  method ValidateAnySchemaTypes(path: seq<string>, expectedList: seq<Schema>, implementedList: seq<Schema>)
    returns (r: Outcome)
    ensures VerdictOf(r) == CheckAny(expectedList, implementedList)
    ensures Located(path, r)
    decreases expectedList
  {
    var errors: seq<ErrorData> := [];
    for k := 0 to |expectedList|
      invariant |errors| == k && Under(path, errors)
      invariant AnyMatch(expectedList, implementedList) == AnyMatch(expectedList[k..], implementedList)
    {
      assert expectedList[k..][0] == expectedList[k] && expectedList[k..][1..] == expectedList[k + 1..];
      var found :- FindMatch(path, expectedList[k], implementedList);
      if found {
        return Success([]);
      }
      errors := errors + [ErrorData(path, "", Some(k))];
    }
    return Success(errors);
  }

  method ValidateSchemaType(path: seq<string>, expected: Schema, implemented: Schema) returns (r: Outcome)
    ensures VerdictOf(r) == Check(expected, implemented)
    ensures Located(path, r)
    decreases expected, 1
  {
    if expected.Always? {
      return Success(if implemented == expected then [] else [ErrorData(path, "", None)]);
    } else if implemented.Always? {
      return Success([ErrorData(path, "", None)]);
    }
    var errors: seq<ErrorData> := [];
    if TitleOf(expected).Some? && TitleOf(implemented) != TitleOf(expected) {
      errors := errors + [ErrorData(path, "title", None)];
    }
    var formErrors :- ValidateForm(path, expected, implemented);
    return Success(errors + formErrors);
  }

  /** The part of `validateSchemaType` after the title. */
  method ValidateForm(path: seq<string>, expected: Schema, implemented: Schema) returns (r: Outcome)
    requires !expected.Always? && !implemented.Always?
    ensures VerdictOf(r) == CheckForm(expected, implemented)
    ensures Located(path, r)
    decreases expected, 0
  {
    if AllOf(expected).Listed? {
      if AllOf(implemented).Listed? {
        r := ValidateAllSchemaTypes(path + ["allOf"], AllOf(expected).schemas, AllOf(implemented).schemas);
      } else {
        r := Success([ErrorData(path, "allOf", None)]);
      }
    } else if AnyOf(expected).Listed? {
      r := ValidateAnySchemaTypes(path + ["anyOf"], AnyOf(expected).schemas, Alternatives(implemented));
    } else if OneOf(expected).Listed? {
      if OneOf(implemented).Listed? {
        r := ValidateAllSchemaTypes(path + ["oneOf"], OneOf(expected).schemas, OneOf(implemented).schemas);
      } else {
        r := Success([ErrorData(path, "oneOf", None)]);
      }
    } else {
      r := ValidateBody(path, BodyOf(expected), BodyOf(implemented), expected);
    }
  }

  /** The switch over `type`, after the two types were found equal. */
  method ValidateBody(path: seq<string>, expected: Body, implemented: Body, ghost of: Schema)
    returns (r: Outcome)
    requires expected == BodyOf(of)
    ensures VerdictOf(r) == CheckBody(expected, implemented)
    ensures Located(path, r)
    decreases of, 0, 0
  {
    match (expected, implemented)
    case (Untyped, Untyped) => r := Failure("Unsupported schema type: undefined");
    case (NullType, NullType) => r := Success([]);
    case (BooleanType(c, _), BooleanType(d, _)) =>
      var errors := ValidateBooleanSchema(path, c, d);
      r := Success(errors);
    case (NumberType(a, m), NumberType(b, n)) =>
      if a == b {
        var errors := ValidateNumberSchema(path, m, n);
        r := Success(errors);
      } else {
        r := Success([ErrorData(path, "type", None)]);
      }
    case (StringType(e), StringType(i)) =>
      var errors := ValidateStringSchema(path, e, i);
      r := Success(errors);
    case (ArrayType(_, _, _), ArrayType(_, _, _)) =>
      r := ValidateArraySchema(path, expected, implemented);
    case (ObjectType(_, _), ObjectType(_, _)) =>
      r := ValidateObjectSchema(path, expected, implemented);
    case _ => r := Success([ErrorData(path, "type", None)]);
  }
}
