/**
 On well-formed schemas the conformance check is a preorder, through every intermediate interface whose
 `anyOf` alternatives all implement each other, and only through those.
 */
module InterfaceOrder {
  import opened Wrappers
  import opened JsonSchema
  import opened InterfacesUtils
  import opened InterfaceConformance
  import opened InterfaceThrows

  /**
   Schemas that mean what they say to the check: one form per node, references that resolve in one step and
   only where they are resolved, array items defined, constants inside their own bounds, non-empty
   enumerations, unique property names. Unless `choice` permits more, the alternatives of an `anyOf` agree.
   */
  ghost predicate WellFormed(s: Schema, choice: bool)
    decreases s
  {
    match s
    case Always(_) => true
    case Reference(_) => false
    case Node(_, Listed(es), Absent, Absent, Untyped) => WellFormedList(es, choice)
    case Node(_, Absent, Listed(es), Absent, Untyped) =>
      es != [] && WellFormedList(es, choice) && (choice || Agreeing(es))
    case Node(_, Absent, Absent, Listed(es), Untyped) => WellFormedList(es, choice)
    case Node(_, Absent, Absent, Absent, body) => WellFormedBody(body, choice)
    case _ => false
  }

  ghost predicate WellFormedList(es: seq<Schema>, choice: bool)
    decreases es
  {
    forall k :: 0 <= k < |es| ==> WellFormed(es[k], choice)
  }

  /** All alternatives implement each other. */
  ghost predicate Agreeing(es: seq<Schema>) {
    forall l, m :: 0 <= l < |es| && 0 <= m < |es| ==> Conforms(es[l], es[m])
  }

  ghost predicate WellFormedBody(body: Body, choice: bool)
    decreases body
  {
    match body
    case Untyped => false
    case NullType => true
    case BooleanType(_, _) => true
    case NumberType(_, m) => m.constant.Some? ==> NumberValid(m.(enumeration := None), m.constant.value)
    case StringType(r) =>
      && (r.enumeration.Some? ==> r.enumeration.value != [])
      && (r.constant.Some? ==>
            && Lists(r.enumeration, r.constant.value)
            && (r.minLength.Some? ==> r.minLength.value <= Utf16Length(r.constant.value))
            && (r.maxLength.Some? ==> Utf16Length(r.constant.value) <= r.maxLength.value))
    case ArrayType(_, _, items) =>
      items.Some? && Resolve(items.value).Some? && WellFormed(Resolve(items.value).value, choice)
    case ObjectType(_, properties) =>
      && (forall k, l :: 0 <= k < l < |properties| ==> properties[k].key != properties[l].key)
      && (forall k :: 0 <= k < |properties| ==> WellFormedProperty(properties[k], choice))
  }

  ghost predicate WellFormedProperty(p: Property, choice: bool)
    decreases p
  {
    Resolve(p.schema).Some? && WellFormed(Resolve(p.schema).value, choice)
  }

  lemma {:induction false} WellFormedIsSafe(s: Schema, choice: bool)
    requires WellFormed(s, choice)
    ensures HasForms(s) && ReferencesResolve(s)
    decreases s
  {
    match s
    case Always(_) =>
    case Node(_, Listed(es), Absent, Absent, Untyped) => WellFormedListIsSafe(es, choice);
    case Node(_, Absent, Listed(es), Absent, Untyped) => WellFormedListIsSafe(es, choice);
    case Node(_, Absent, Absent, Listed(es), Untyped) => WellFormedListIsSafe(es, choice);
    case Node(_, Absent, Absent, Absent, body) =>
      match body
      case ArrayType(_, _, items) => WellFormedIsSafe(Resolve(items.value).value, choice);
      case ObjectType(_, properties) =>
        forall k | 0 <= k < |properties|
          ensures HasFormsProperty(properties[k]) && PropertyReferencesResolve(properties[k])
        {
          assert WellFormedProperty(properties[k], choice);
          WellFormedIsSafe(Resolve(properties[k].schema).value, choice);
        }
      case _ =>
  }

  lemma {:induction false} WellFormedListIsSafe(es: seq<Schema>, choice: bool)
    requires WellFormedList(es, choice)
    ensures AllHaveForms(es) && AllResolve(es)
    decreases es
  {
    forall k | 0 <= k < |es| ensures HasForms(es[k]) && ReferencesResolve(es[k]) {
      WellFormedIsSafe(es[k], choice);
    }
  }

  // With no throw in the way, the list loops say what they look like they say.

  lemma {:induction false} ConformsFirst(e: Schema, impls: seq<Schema>, k: nat)
    requires HasForms(e) && AllResolve(impls)
    requires k < |impls| && Conforms(e, impls[k])
    ensures FirstMatch(e, impls).Accept?
  {
    NoCrash(e, impls[0]);
    if k > 0 && !Conforms(e, impls[0]) {
      assert impls[1..][k - 1] == impls[k];
      ConformsFirst(e, impls[1..], k - 1);
    }
  }

  ghost predicate Matched(e: Schema, impls: seq<Schema>) {
    exists l :: 0 <= l < |impls| && Conforms(e, impls[l])
  }

  ghost predicate EachMatched(es: seq<Schema>, impls: seq<Schema>) {
    forall k :: 0 <= k < |es| ==> Matched(es[k], impls)
  }

  lemma {:induction false} ConformsEach(es: seq<Schema>, impls: seq<Schema>)
    requires AllHaveForms(es) && AllResolve(impls) && EachMatched(es, impls)
    ensures CheckEach(es, impls).Accept?
  {
    if es != [] {
      var l :| 0 <= l < |impls| && Conforms(es[0], impls[l]);
      ConformsFirst(es[0], impls, l);
      assert forall k :: 0 <= k < |es[1..]| ==> es[1..][k] == es[k + 1];
      ConformsEach(es[1..], impls);
    }
  }

  lemma {:induction false} ConformsAny(es: seq<Schema>, impls: seq<Schema>, k: nat)
    requires AllHaveForms(es) && AllResolve(impls) && k < |es| && Matched(es[k], impls)
    ensures AnyMatch(es, impls).Accept?
  {
    if k == 0 {
      var l :| 0 <= l < |impls| && Conforms(es[0], impls[l]);
      ConformsFirst(es[0], impls, l);
    } else {
      NoCrashFirst(es[0], impls);
      assert es[1..][k - 1] == es[k];
      ConformsAny(es[1..], impls, k - 1);
    }
  }

  ghost predicate SomeMatched(es: seq<Schema>, impls: seq<Schema>) {
    exists k :: 0 <= k < |es| && Matched(es[k], impls)
  }

  lemma SomeMatchIff(es: seq<Schema>, impls: seq<Schema>)
    requires es != [] && WellFormedList(es, true) && WellFormedList(impls, true)
    ensures CheckAny(es, impls).Accept? <==> SomeMatched(es, impls)
  {
    if CheckAny(es, impls).Accept? {
      AnyMatchConforms(es, impls);
      var k, l :| 0 <= k < |es| && 0 <= l < |impls| && Conforms(es[k], impls[l]);
      assert Matched(es[k], impls);
    } else if k :| 0 <= k < |es| && Matched(es[k], impls) {
      WellFormedListIsSafe(es, true);
      WellFormedListIsSafe(impls, true);
      ConformsAny(es, impls, k);
    }
  }

  lemma {:induction false} ConformsProperties(es: seq<Property>, i: seq<Property>)
    requires forall k :: 0 <= k < |es| ==> CheckProperty(es[k], Lookup(i, es[k].key)).Accept?
    ensures CheckProperties(es, i).Accept?
  {
    if es != [] {
      assert forall k :: 0 <= k < |es[1..]| ==> es[1..][k] == es[k + 1];
      ConformsProperties(es[1..], i);
    }
  }

  /** Every well-formed schema implements itself. */
  lemma {:induction false} ConformanceIsReflexive(s: Schema)
    requires WellFormed(s, true)
    ensures Conforms(s, s)
    decreases s
  {
    if s.Node? {
      if s.allOf.Listed? {
        ReflexiveEach(s.allOf.schemas);
      } else if s.anyOf.Listed? {
        var es := s.anyOf.schemas;
        ConformanceIsReflexive(es[0]);
        assert Matched(es[0], es);
        SomeMatchIff(es, es);
      } else if s.oneOf.Listed? {
        ReflexiveEach(s.oneOf.schemas);
      } else {
        ReflexiveBody(s.body);
      }
      assert CheckForm(s, s).Accept?;
    }
  }

  lemma {:induction false} ReflexiveEach(es: seq<Schema>)
    requires WellFormedList(es, true)
    ensures CheckEach(es, es).Accept?
    decreases es
  {
    forall k | 0 <= k < |es| ensures Matched(es[k], es) {
      ConformanceIsReflexive(es[k]);
      assert Conforms(es[k], es[k]);
    }
    WellFormedListIsSafe(es, true);
    ConformsEach(es, es);
  }

  lemma {:induction false} ReflexiveBody(body: Body)
    requires WellFormedBody(body, true)
    ensures CheckBody(body, body).Accept?
    decreases body
  {
    match body
    case ArrayType(_, _, items) =>
      ConformanceIsReflexive(Resolve(items.value).value);
    case ObjectType(_, es) =>
      forall k | 0 <= k < |es| ensures CheckProperty(es[k], Lookup(es, es[k].key)).Accept? {
        LookupFinds(es, es[k].key);
        ConformanceIsReflexive(Resolve(es[k].schema).value);
      }
      ConformsProperties(es, es);
    case StringType(r) =>
      if r.enumeration.Some? && r.constant.None? {
        assert r.enumeration.value[0] in r.enumeration.value;
      }
    case _ =>
  }

  /** Conformance composes through an intermediate interface whose alternatives agree. */
  lemma {:induction false} ConformanceIsTransitive(a: Schema, b: Schema, c: Schema)
    requires WellFormed(a, true) && WellFormed(b, false) && WellFormed(c, true)
    requires Conforms(a, b) && Conforms(b, c)
    ensures Conforms(a, c)
    decreases a
  {
    if a.Node? {
      assert CheckForm(a, b).Accept? && CheckForm(b, c).Accept?;
      if a.allOf.Listed? {
        TransitiveEach(a.allOf.schemas, b.allOf.schemas, c.allOf.schemas);
      } else if a.anyOf.Listed? {
        TransitiveChoice(a.anyOf.schemas, b, c);
      } else if a.oneOf.Listed? {
        TransitiveEach(a.oneOf.schemas, b.oneOf.schemas, c.oneOf.schemas);
      } else {
        PlainImplementation(a, true, b, false);
        PlainImplementation(b, false, c, true);
        TransitiveBody(a.body, b.body, c.body);
      }
      assert CheckForm(a, c).Accept?;
    }
  }

  /** A schema with a `type` is only implemented by one with a `type`. */
  lemma PlainImplementation(e: Schema, eChoice: bool, i: Schema, iChoice: bool)
    requires WellFormed(e, eChoice) && WellFormed(i, iChoice) && Conforms(e, i)
    requires e.Node? && e.allOf.Absent? && e.anyOf.Absent? && e.oneOf.Absent?
    ensures i.Node? && i.allOf.Absent? && i.anyOf.Absent? && i.oneOf.Absent?
    ensures WellFormedBody(e.body, eChoice) && WellFormedBody(i.body, iChoice) && CheckBody(e.body, i.body).Accept?
  {
    assert CheckForm(e, i).Accept?;
    assert !e.body.Untyped?;
    assert CheckBody(e.body, BodyOf(i)).Accept?;
    assert !BodyOf(i).Untyped?;
  }

  lemma {:induction false} TransitiveEach(a: seq<Schema>, b: seq<Schema>, c: seq<Schema>)
    requires WellFormedList(a, true) && WellFormedList(b, false) && WellFormedList(c, true)
    requires CheckAll(a, b).Accept? && CheckAll(b, c).Accept?
    ensures CheckAll(a, c).Accept?
    decreases a
  {
    forall k | 0 <= k < |a| ensures Matched(a[k], c) {
      EachMatchConforms(a, b, k);
      var m :| 0 <= m < |b| && Conforms(a[k], b[m]);
      EachMatchConforms(b, c, m);
      var l :| 0 <= l < |c| && Conforms(b[m], c[l]);
      ConformanceIsTransitive(a[k], b[m], c[l]);
    }
    WellFormedListIsSafe(a, true);
    WellFormedListIsSafe(c, true);
    ConformsEach(a, c);
  }

  /** Through an `anyOf`: what one alternative implements and what implements another meet, as those agree. */
  lemma {:induction false} TransitiveChoice(es: seq<Schema>, b: Schema, c: Schema)
    requires es != [] && WellFormedList(es, true) && WellFormed(b, false) && WellFormed(c, true)
    requires CheckAny(es, Alternatives(b)).Accept? && !b.Always? && Conforms(b, c)
    ensures CheckAny(es, Alternatives(c)).Accept?
    decreases es
  {
    AnyMatchConforms(es, Alternatives(b));
    var k, l :| 0 <= k < |es| && 0 <= l < |Alternatives(b)| && Conforms(es[k], Alternatives(b)[l]);
    if b.anyOf.Listed? {
      var bs := b.anyOf.schemas;
      assert CheckForm(b, c) == CheckAny(bs, Alternatives(c)) == AnyMatch(bs, Alternatives(c));
      AnyMatchConforms(bs, Alternatives(c));
      var m, n :| 0 <= m < |bs| && 0 <= n < |Alternatives(c)| && Conforms(bs[m], Alternatives(c)[n]);
      PermitsChoice(bs[m]);
      ConformanceIsTransitive(es[k], bs[l], bs[m]);
      ConformanceIsTransitive(es[k], bs[m], Alternatives(c)[n]);
      assert Matched(es[k], Alternatives(c));
    } else {
      NoChoiceImplements(b, c);
      ConformanceIsTransitive(es[k], b, c);
      assert Conforms(es[k], Alternatives(c)[0]);
    }
    assert Matched(es[k], Alternatives(c));
    SomeMatchIff(es, Alternatives(c));
  }

  /** Only an `anyOf` is implemented by an `anyOf`. */
  lemma NoChoiceImplements(e: Schema, i: Schema)
    requires WellFormed(e, false) && WellFormed(i, true) && Conforms(e, i) && e.Node? && e.anyOf.Absent?
    ensures AnyOf(i).Absent?
  {
    assert CheckForm(e, i).Accept?;
    if e.allOf.Absent? && e.oneOf.Absent? {
      PlainImplementation(e, false, i, true);
    }
  }

  lemma {:induction false} PermitsChoice(s: Schema)
    requires WellFormed(s, false)
    ensures WellFormed(s, true)
    decreases s
  {
    match s
    case Node(_, Listed(es), Absent, Absent, Untyped) => PermitsChoiceEach(es);
    case Node(_, Absent, Listed(es), Absent, Untyped) => PermitsChoiceEach(es);
    case Node(_, Absent, Absent, Listed(es), Untyped) => PermitsChoiceEach(es);
    case Node(_, Absent, Absent, Absent, ArrayType(_, _, items)) => PermitsChoice(Resolve(items.value).value);
    case Node(_, Absent, Absent, Absent, ObjectType(_, properties)) =>
      forall k | 0 <= k < |properties| ensures WellFormedProperty(properties[k], true) {
        assert WellFormedProperty(properties[k], false);
        PermitsChoice(Resolve(properties[k].schema).value);
      }
    case _ =>
  }

  lemma {:induction false} PermitsChoiceEach(es: seq<Schema>)
    requires WellFormedList(es, false)
    ensures WellFormedList(es, true)
    decreases es
  {
    forall k | 0 <= k < |es| ensures WellFormed(es[k], true) {
      PermitsChoice(es[k]);
    }
  }

  lemma {:induction false} TransitiveBody(a: Body, b: Body, c: Body)
    requires WellFormedBody(a, true) && WellFormedBody(b, false) && WellFormedBody(c, true)
    requires CheckBody(a, b).Accept? && CheckBody(b, c).Accept?
    ensures CheckBody(a, c).Accept?
    decreases a
  {
    match a
    case ArrayType(_, _, items) =>
      ConformanceIsTransitive(
        Resolve(items.value).value, Resolve(b.items.value).value, Resolve(c.items.value).value);
    case ObjectType(_, es) =>
      forall k | 0 <= k < |es| ensures CheckProperty(es[k], Lookup(c.properties, es[k].key)).Accept? {
        TransitiveProperty(es, b.properties, c.properties, k);
      }
      ConformsProperties(es, c.properties);
    case StringType(r) =>
      TransitiveString(r, b.text, c.text);
    case NumberType(_, m) =>
      TransitiveNumber(m, b.number, c.number);
    case _ =>
  }

  lemma {:induction false} TransitiveProperty(a: seq<Property>, b: seq<Property>, c: seq<Property>, k: nat)
    requires k < |a|
    requires forall l :: 0 <= l < |a| ==> WellFormedProperty(a[l], true)
    requires forall l :: 0 <= l < |b| ==> WellFormedProperty(b[l], false)
    requires forall l :: 0 <= l < |c| ==> WellFormedProperty(c[l], true)
    requires CheckProperties(a, b).Accept? && CheckProperties(b, c).Accept?
    ensures CheckProperty(a[k], Lookup(c, a[k].key)).Accept?
    decreases a[k]
  {
    PropertyChecked(a, b, k);
    LookupFinds(b, a[k].key);
    var l :| 0 <= l < |b| && b[l] == Property(a[k].key, Lookup(b, a[k].key).value);
    PropertyChecked(b, c, l);
    LookupFinds(c, a[k].key);
    ConformanceIsTransitive(Resolve(a[k].schema).value, Resolve(b[l].schema).value,
                            Resolve(Lookup(c, a[k].key).value).value);
  }

  lemma TransitiveString(a: StringRules, b: StringRules, c: StringRules)
    requires WellFormedBody(StringType(b), false)
    requires StringConforms(a, b) && StringConforms(b, c)
    ensures StringConforms(a, c)
  {
    if a.enumeration.Some? && b.constant.None? && c.constant.None? {
      var value :| value in b.enumeration.value && value in c.enumeration.value;
      assert value in a.enumeration.value;
    }
  }

  lemma TransitiveNumber(a: NumberRules, b: NumberRules, c: NumberRules)
    requires NumberConforms(a, b) && NumberConforms(b, c)
    ensures NumberConforms(a, c)
  {
  }

  // ---------------------------------------------------------------- when conformance composes

  function AnyOfThese(es: seq<Schema>): Schema {
    Node(None, Absent, Listed(es), Absent, Untyped)
  }

  /** An `anyOf` is implemented by another exactly when some pair of alternatives conforms. */
  lemma AnyOfConformsIff(es: seq<Schema>, impls: seq<Schema>)
    requires es != [] && WellFormedList(es, true) && WellFormedList(impls, true)
    ensures Conforms(AnyOfThese(es), AnyOfThese(impls)) <==> SomeMatched(es, impls)
  {
    SomeMatchIff(es, impls);
    assert CheckForm(AnyOfThese(es), AnyOfThese(impls)) == CheckAny(es, impls);
  }

  /** Whatever `b` implements and whatever implements `b` conform. */
  ghost predicate ComposesThrough(b: Schema) {
    forall a, c :: WellFormed(a, true) && WellFormed(c, true) && Conforms(a, b) && Conforms(b, c) ==> Conforms(a, c)
  }

  /** Main result: conformance composes through an `anyOf` exactly when its alternatives implement each other. */
  lemma ComposesThroughAnyOfIff(b: seq<Schema>)
    requires b != [] && WellFormedList(b, false)
    ensures ComposesThrough(AnyOfThese(b)) <==> Agreeing(b)
  {
    if Agreeing(b) {
      forall a, c | WellFormed(a, true) && WellFormed(c, true)
                    && Conforms(a, AnyOfThese(b)) && Conforms(AnyOfThese(b), c)
        ensures Conforms(a, c)
      {
        ConformanceIsTransitive(a, AnyOfThese(b), c);
      }
    } else {
      var l, m :| 0 <= l < |b| && 0 <= m < |b| && !Conforms(b[l], b[m]);
      PermitsChoiceEach(b);
      DisagreementDoesNotCompose(b, l, m);
    }
  }

  /** One matching pair on each side need not meet in the middle. */
  lemma DisagreementDoesNotCompose(b: seq<Schema>, l: nat, m: nat)
    requires WellFormedList(b, true) && l < |b| && m < |b| && !Conforms(b[l], b[m])
    ensures var a, c := AnyOfThese([b[l]]), AnyOfThese([b[m]]);
      && WellFormed(a, true) && WellFormed(c, true)
      && Conforms(a, AnyOfThese(b)) && Conforms(AnyOfThese(b), c) && !Conforms(a, c)
  {
    ConformanceIsReflexive(b[l]);
    ConformanceIsReflexive(b[m]);
    assert Matched([b[l]][0], b) && Matched(b[m], [b[m]]) by {
      assert Conforms(b[m], [b[m]][0]);
    }
    AnyOfConformsIff([b[l]], b);
    AnyOfConformsIff(b, [b[m]]);
    AnyOfConformsIff([b[l]], [b[m]]);
  }
}
