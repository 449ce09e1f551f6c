/**
 The fragment of JSON Schema 2020-12 that interface models are written in, with its value
 semantics: sections 6.1 to 6.5 of JSON Schema Validation and section 10.2.1 of JSON Schema Core.
 */
module JsonSchema {
  import opened Wrappers

  datatype Json =
    | JNull
    | JBoolean(boolean: bool)
    | JNumber(number: real)
    | JString(text: string)
    | JArray(elements: seq<Json>)
    | JObject(fields: map<string, Json>)

  datatype NumberRules = NumberRules(
    constant: Option<real>,
    enumeration: Option<seq<real>>,
    minimum: Option<real>,
    maximum: Option<real>,
    exclusiveMinimum: Option<real>,
    exclusiveMaximum: Option<real>)

  datatype StringRules = StringRules(
    constant: Option<string>,
    enumeration: Option<seq<string>>,
    pattern: Option<string>,
    minLength: Option<nat>,
    maxLength: Option<nat>)

  datatype Property = Property(key: string, schema: Schema)

  /** The keywords that go with a `type`; `Untyped` is a schema without one. */
  datatype Body =
    | Untyped
    | NullType
    | BooleanType(constant: Option<bool>, enumeration: Option<seq<bool>>)
    | NumberType(integer: bool, number: NumberRules)
    | StringType(text: StringRules)
    | ArrayType(minItems: Option<nat>, maxItems: Option<nat>, items: Option<Schema>)
    | ObjectType(required: seq<string>, properties: seq<Property>)

  /**
   A boolean schema, a `$ref` together with the schema it points at (`None` when it points nowhere),
   or a schema object.
   */
  datatype Schema =
    | Always(accepts: bool)
    | Reference(target: Option<Schema>)
    | Node(title: Option<string>,
           allOf: Subschemas,
           anyOf: Subschemas,
           oneOf: Subschemas,
           body: Body)

  /** The value of `allOf`, `anyOf` or `oneOf`. */
  datatype Subschemas = Absent | Listed(schemas: seq<Schema>)

  /** The regular expression engine: does the text match the pattern? */
  type Engine = (string, string) -> bool

  predicate Allows<T(==)>(constant: Option<T>, v: T) {
    constant.Some? ==> v == constant.value
  }

  predicate Lists<T(==)>(enumeration: Option<seq<T>>, v: T) {
    enumeration.Some? ==> v in enumeration.value
  }

  predicate BooleanValid(constant: Option<bool>, enumeration: Option<seq<bool>>, b: bool) {
    Allows(constant, b) && Lists(enumeration, b)
  }

  predicate NumberValid(rules: NumberRules, n: real) {
    && Allows(rules.constant, n)
    && Lists(rules.enumeration, n)
    && (rules.minimum.Some? ==> rules.minimum.value <= n)
    && (rules.maximum.Some? ==> n <= rules.maximum.value)
    && (rules.exclusiveMinimum.Some? ==> rules.exclusiveMinimum.value < n)
    && (rules.exclusiveMaximum.Some? ==> n < rules.exclusiveMaximum.value)
  }

  /** Lengths count characters, section 6.3 of JSON Schema Validation; a Dafny `char` is one character. */
  predicate StringValid(matches: Engine, rules: StringRules, s: string) {
    && Allows(rules.constant, s)
    && Lists(rules.enumeration, s)
    && (rules.pattern.Some? ==> matches(rules.pattern.value, s))
    && (rules.minLength.Some? ==> rules.minLength.value <= |s|)
    && (rules.maxLength.Some? ==> |s| <= rules.maxLength.value)
  }

  predicate IsInteger(n: real) {
    n.Floor as real == n
  }

  /** The value semantics: `v` is an instance of `s`. An unresolvable reference has no instances. */
  ghost predicate Valid(matches: Engine, s: Schema, v: Json)
    decreases s
  {
    match s
    case Always(accepts) => accepts
    case Reference(target) => target.Some? && Valid(matches, target.value, v)
    case Node(_, allOf, anyOf, oneOf, body) =>
      && (allOf.Listed? ==> forall k :: 0 <= k < |allOf.schemas| ==> Valid(matches, allOf.schemas[k], v))
      && (anyOf.Listed? ==> exists k :: 0 <= k < |anyOf.schemas| && Valid(matches, anyOf.schemas[k], v))
      && (oneOf.Listed? ==>
            exists k :: 0 <= k < |oneOf.schemas| && Valid(matches, oneOf.schemas[k], v) &&
                        forall l :: 0 <= l < |oneOf.schemas| && l != k ==> !Valid(matches, oneOf.schemas[l], v))
      && BodyValid(matches, body, v)
  }

  ghost predicate BodyValid(matches: Engine, body: Body, v: Json)
    decreases body
  {
    match body
    case Untyped => true
    case NullType => v.JNull?
    case BooleanType(constant, enumeration) => v.JBoolean? && BooleanValid(constant, enumeration, v.boolean)
    case NumberType(integer, number) =>
      v.JNumber? && (integer ==> IsInteger(v.number)) && NumberValid(number, v.number)
    case StringType(text) => v.JString? && StringValid(matches, text, v.text)
    case ArrayType(minItems, maxItems, items) =>
      && v.JArray?
      && (minItems.Some? ==> minItems.value <= |v.elements|)
      && (maxItems.Some? ==> |v.elements| <= maxItems.value)
      && (items.Some? ==> forall k :: 0 <= k < |v.elements| ==> Valid(matches, items.value, v.elements[k]))
    case ObjectType(required, properties) =>
      && v.JObject?
      && (forall key :: key in required ==> key in v.fields)
      && (forall k :: 0 <= k < |properties| && properties[k].key in v.fields ==>
            Valid(matches, properties[k].schema, v.fields[properties[k].key]))
  }

  /** The value of `String.length` in JavaScript: characters above U+FFFF take two code units. */
  function Utf16Length(s: string): (n: nat)
    ensures |s| <= n <= 2 * |s|
  {
    if s == [] then 0 else (if s[0] as int >= 0x10000 then 2 else 1) + Utf16Length(s[1..])
  }
}
