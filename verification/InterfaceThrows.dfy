/** When the conformance check ends with an exception instead of a list of errors. */
module InterfaceThrows {
  import opened Wrappers
  import opened JsonSchema
  import opened InterfacesUtils
  import opened InterfaceConformance

  /**
   Every subschema that is compared has a `type` or a list form: it is neither empty nor a reference
   in a list, and the references of properties resolve.
   */
  ghost predicate HasForms(e: Schema)
    decreases e
  {
    match e
    case Always(_) => true
    case Reference(_) => false
    case Node(_, Listed(es), _, _, _) => forall k :: 0 <= k < |es| ==> HasForms(es[k])
    case Node(_, Absent, Listed(es), _, _) => forall k :: 0 <= k < |es| ==> HasForms(es[k])
    case Node(_, Absent, Absent, Listed(es), _) => forall k :: 0 <= k < |es| ==> HasForms(es[k])
    case Node(_, Absent, Absent, Absent, body) => HasFormsBody(body)
  }

  ghost predicate HasFormsBody(e: Body)
    decreases e
  {
    match e
    case Untyped => false
    case ArrayType(_, _, items) =>
      items.Some? && Resolve(items.value).Some? ==> HasForms(Resolve(items.value).value)
    case ObjectType(_, properties) => forall k :: 0 <= k < |properties| ==> HasFormsProperty(properties[k])
    case _ => true
  }

  ghost predicate HasFormsProperty(p: Property)
    decreases p
  {
    Resolve(p.schema).Some? && HasForms(Resolve(p.schema).value)
  }

  /** The references of all properties resolve, at any depth. */
  ghost predicate ReferencesResolve(s: Schema)
    decreases s
  {
    s.Node? ==>
      && (forall k :: s.allOf.Listed? && 0 <= k < |s.allOf.schemas| ==> ReferencesResolve(s.allOf.schemas[k]))
      && (forall k :: s.anyOf.Listed? && 0 <= k < |s.anyOf.schemas| ==> ReferencesResolve(s.anyOf.schemas[k]))
      && (forall k :: s.oneOf.Listed? && 0 <= k < |s.oneOf.schemas| ==> ReferencesResolve(s.oneOf.schemas[k]))
      && BodyReferencesResolve(s.body)
  }

  ghost predicate BodyReferencesResolve(body: Body)
    decreases body
  {
    match body
    case ArrayType(_, _, items) =>
      items.Some? && Resolve(items.value).Some? ==> ReferencesResolve(Resolve(items.value).value)
    case ObjectType(_, properties) =>
      forall k :: 0 <= k < |properties| ==> PropertyReferencesResolve(properties[k])
    case _ => true
  }

  ghost predicate PropertyReferencesResolve(p: Property)
    decreases p
  {
    Resolve(p.schema).Some? && ReferencesResolve(Resolve(p.schema).value)
  }

  ghost predicate AllHaveForms(es: seq<Schema>) {
    forall k :: 0 <= k < |es| ==> HasForms(es[k])
  }

  ghost predicate AllResolve(impls: seq<Schema>) {
    forall k :: 0 <= k < |impls| ==> ReferencesResolve(impls[k])
  }

  /** The check does not throw when the interface has forms and the implementation's references resolve. */
  lemma {:induction false} NoCrash(e: Schema, i: Schema)
    requires HasForms(e) && ReferencesResolve(i)
    ensures !Check(e, i).Crash?
    decreases e, 1
  {
    if !e.Always? && !i.Always? {
      match e
      case Node(_, Listed(es), _, _, _) =>
        if AllOf(i).Listed? {
          NoCrashEach(es, AllOf(i).schemas);
        }
      case Node(_, Absent, Listed(es), _, _) =>
        NoCrashAny(es, Alternatives(i));
      case Node(_, Absent, Absent, Listed(es), _) =>
        if OneOf(i).Listed? {
          NoCrashEach(es, OneOf(i).schemas);
        }
      case Node(_, Absent, Absent, Absent, body) =>
        NoCrashBody(body, BodyOf(i));
      assert !CheckForm(e, i).Crash?;
    }
  }

  lemma {:induction false} NoCrashFirst(e: Schema, impls: seq<Schema>)
    requires HasForms(e) && AllResolve(impls)
    ensures !FirstMatch(e, impls).Crash?
    decreases e, 2, |impls|
  {
    if impls != [] {
      NoCrash(e, impls[0]);
      NoCrashFirst(e, impls[1..]);
    }
  }

  lemma {:induction false} NoCrashEach(es: seq<Schema>, impls: seq<Schema>)
    requires AllHaveForms(es) && AllResolve(impls)
    ensures !CheckAll(es, impls).Crash? && !CheckEach(es, impls).Crash?
    decreases es, 1
  {
    if es != [] {
      NoCrashFirst(es[0], impls);
      NoCrashEach(es[1..], impls);
    }
  }

  lemma {:induction false} NoCrashAny(es: seq<Schema>, impls: seq<Schema>)
    requires AllHaveForms(es) && AllResolve(impls)
    ensures !CheckAny(es, impls).Crash? && !AnyMatch(es, impls).Crash?
    decreases es, 1
  {
    if es != [] {
      NoCrashFirst(es[0], impls);
      NoCrashAny(es[1..], impls);
    }
  }

  lemma {:induction false} NoCrashBody(e: Body, i: Body)
    requires HasFormsBody(e) && BodyReferencesResolve(i)
    ensures !CheckBody(e, i).Crash?
    decreases e
  {
    if e.ArrayType? && i.ArrayType? {
      if e.items.Some? && i.items.Some? && Resolve(e.items.value).Some? && Resolve(i.items.value).Some? {
        NoCrash(Resolve(e.items.value).value, Resolve(i.items.value).value);
      }
    } else if e.ObjectType? && i.ObjectType? {
      NoCrashProperties(e.properties, i.properties);
    }
  }

  lemma {:induction false} NoCrashProperties(es: seq<Property>, i: seq<Property>)
    requires forall k :: 0 <= k < |es| ==> HasFormsProperty(es[k])
    requires forall k :: 0 <= k < |i| ==> PropertyReferencesResolve(i[k])
    ensures !CheckProperties(es, i).Crash?
    decreases es, 0
  {
    if es != [] {
      NoCrashProperties(es[1..], i);
      NoCrashProperty(es[0], i);
    }
  }

  lemma {:induction false} NoCrashProperty(e: Property, i: seq<Property>)
    requires HasFormsProperty(e)
    requires forall k :: 0 <= k < |i| ==> PropertyReferencesResolve(i[k])
    ensures !CheckProperty(e, Lookup(i, e.key)).Crash?
    decreases e
  {
    LookupFinds(i, e.key);
    if Lookup(i, e.key).Some? {
      NoCrash(Resolve(e.schema).value, Resolve(Lookup(i, e.key).value).value);
    }
  }

  // ---------------------------------------------------------------- the converse

  /**
   Where an `anyOf` is compared and an alternative has no form, already the first has none: a later one
   need not be reached.
   */
  ghost predicate FirstIsReached(e: Schema)
    decreases e
  {
    match e
    case Node(_, Listed(es), _, _, _) => forall k :: 0 <= k < |es| ==> FirstIsReached(es[k])
    case Node(_, Absent, Listed(es), _, _) =>
      AllHaveForms(es) || (es != [] && !HasForms(es[0]) && FirstIsReached(es[0]))
    case Node(_, Absent, Absent, Listed(es), _) => forall k :: 0 <= k < |es| ==> FirstIsReached(es[k])
    case Node(_, Absent, Absent, Absent, body) =>
      && (body.ArrayType? && body.items.Some? && Resolve(body.items.value).Some? ==>
          FirstIsReached(Resolve(body.items.value).value))
      && (body.ObjectType? ==>
            forall k :: 0 <= k < |body.properties| && Resolve(body.properties[k].schema).Some? ==>
              FirstIsReached(Resolve(body.properties[k].schema).value))
    case _ => true
  }

  const EMPTY := Typed(Untyped)

  /** An implementation on which the check throws. */
  lemma {:induction false} Breaker(e: Schema) returns (i: Schema)
    requires FirstIsReached(e) && !HasForms(e)
    ensures ReferencesResolve(i) && Check(e, i).Crash?
    decreases e
  {
    match e
    case Reference(_) =>
      i := EMPTY;
    case Node(_, Listed(es), _, _, _) =>
      var impls := ListBreaker(es);
      i := Node(None, Listed(impls), Absent, Absent, Untyped);
      assert CheckForm(e, i).Crash?;
    case Node(_, Absent, Listed(es), _, _) =>
      var b := Breaker(es[0]);
      i := Node(None, Absent, Listed([b]), Absent, Untyped);
      assert FirstMatch(es[0], [b]).Crash?;
      assert CheckAny(es, [b]).Crash?;
      assert CheckForm(e, i) == CheckAny(es, Alternatives(i));
    case Node(_, Absent, Absent, Listed(es), _) =>
      var impls := ListBreaker(es);
      i := Node(None, Absent, Absent, Listed(impls), Untyped);
      assert CheckForm(e, i).Crash?;
    case Node(_, Absent, Absent, Absent, body) =>
      var b := BodyBreaker(e, body);
      i := Typed(b);
      assert CheckForm(e, i).Crash?;
  }

  lemma {:induction false} ListBreaker(es: seq<Schema>) returns (impls: seq<Schema>)
    requires exists k :: 0 <= k < |es| && !HasForms(es[k])
    requires forall k :: 0 <= k < |es| ==> FirstIsReached(es[k])
    ensures AllResolve(impls) && CheckAll(es, impls).Crash?
    decreases es
  {
    var k :| 0 <= k < |es| && !HasForms(es[k]);
    var b := Breaker(es[k]);
    impls := seq(|es|, _ => b);
    assert FirstMatch(es[k], impls).Crash?;
    EachThrowsIff(es, impls);
  }

  lemma {:induction false} BodyBreaker(of: Schema, e: Body) returns (i: Body)
    requires of.Node? && of.body == e && of.allOf.Absent? && of.anyOf.Absent? && of.oneOf.Absent?
    requires FirstIsReached(of) && !HasFormsBody(e)
    ensures BodyReferencesResolve(i) && CheckBody(e, i).Crash?
    decreases of, 0
  {
    match e
    case Untyped =>
      i := Untyped;
    case ArrayType(_, _, items) =>
      var b := Breaker(Resolve(items.value).value);
      i := ArrayType(None, None, Some(Reference(Some(b))));
    case ObjectType(_, properties) =>
      var k :| 0 <= k < |properties| && !HasFormsProperty(properties[k]);
      var b := Typed(NullType);
      if Resolve(properties[k].schema).Some? {
        b := Breaker(Resolve(properties[k].schema).value);
      }
      var implemented := [Property(properties[k].key, Reference(Some(b)))];
      i := ObjectType([], implemented);
      assert Lookup(implemented, properties[k].key) == Some(Reference(Some(b)));
      PropertyThrows(properties, implemented, k);
  }

  lemma {:induction false} PropertyThrows(es: seq<Property>, i: seq<Property>, k: nat)
    requires k < |es| && CheckProperty(es[k], Lookup(i, es[k].key)).Crash?
    ensures CheckProperties(es, i).Crash?
  {
    if k > 0 {
      assert es[1..][k - 1] == es[k];
      PropertyThrows(es[1..], i, k - 1);
    }
  }

  /** A list throws exactly when the search for one of its members does. */
  lemma {:induction false} EachThrowsIff(es: seq<Schema>, impls: seq<Schema>)
    ensures CheckEach(es, impls).Crash? <==> exists k :: 0 <= k < |es| && FirstMatch(es[k], impls).Crash?
  {
    if es != [] {
      EachThrowsIff(es[1..], impls);
      if k :| 0 <= k < |es[1..]| && FirstMatch(es[1..][k], impls).Crash? {
        assert es[k + 1] == es[1..][k];
      }
      assert forall k :: 1 <= k < |es| ==> es[k] == es[1..][k - 1];
    }
  }

  /**
   The check can be made to throw exactly when some compared subschema has no form, unless an `anyOf` hides
   it behind alternatives that have.
   */
  lemma ThrowsExactly(e: Schema)
    requires FirstIsReached(e)
    ensures HasForms(e) <==> forall i :: ReferencesResolve(i) ==> !Check(e, i).Crash?
  {
    if HasForms(e) {
      forall i | ReferencesResolve(i) ensures !Check(e, i).Crash? {
        NoCrash(e, i);
      }
    } else {
      var i := Breaker(e);
    }
  }

  // ---------------------------------------------------------------- alternatives

  lemma {:induction false} FirstMatchRejects(e: Schema, impls: seq<Schema>, l: nat)
    requires FirstMatch(e, impls).Reject? && l < |impls|
    ensures Check(e, impls[l]).Reject?
    decreases |impls|
  {
    if l > 0 {
      assert impls[1..][l - 1] == impls[l];
      FirstMatchRejects(e, impls[1..], l - 1);
    }
  }

  lemma {:induction false} FirstMatchThrows(e: Schema, impls: seq<Schema>) returns (l: nat)
    requires FirstMatch(e, impls).Crash?
    ensures l < |impls| && Check(e, impls[l]).Crash?
    decreases |impls|
  {
    l := 0;
    if !Check(e, impls[0]).Crash? {
      l := FirstMatchThrows(e, impls[1..]);
      l := l + 1;
    }
  }

  /** The check throws on the alternative `k`, and has rejected all before it. */
  ghost predicate ThrowsAt(es: seq<Schema>, k: nat, i: Schema) {
    && k < |es| && Check(es[k], i).Crash?
    && forall j :: 0 <= j < k ==> Check(es[j], i).Reject?
  }

  lemma {:induction false} AnyMatchThrows(es: seq<Schema>, impls: seq<Schema>) returns (k: nat, l: nat)
    requires AnyMatch(es, impls).Crash?
    ensures l < |impls| && ThrowsAt(es, k, impls[l])
    decreases |es|
  {
    if FirstMatch(es[0], impls).Crash? {
      l := FirstMatchThrows(es[0], impls);
      k := 0;
    } else {
      k, l := AnyMatchThrows(es[1..], impls);
      FirstMatchRejects(es[0], impls, l);
      assert forall j :: 0 < j <= k + 1 ==> es[j] == es[1..][j - 1];
      k := k + 1;
    }
  }

  lemma {:induction false} OneThrows(es: seq<Schema>, k: nat, i: Schema)
    requires ThrowsAt(es, k, i)
    ensures AnyMatch(es, [i]).Crash?
    decreases |es|
  {
    assert [i][1..] == [] && FirstMatch(es[0], [i]) == Check(es[0], i);
    if k > 0 {
      assert forall j :: 0 < j <= k ==> es[j] == es[1..][j - 1];
      OneThrows(es[1..], k - 1, i);
    }
  }

  /** An `anyOf` can be made to throw exactly when some schema is rejected up to the alternative that throws on it. */
  lemma AnyOfThrowsIff(es: seq<Schema>)
    ensures (exists impls :: AllResolve(impls) && CheckAny(es, impls).Crash?)
       <==> exists k: nat, i :: ReferencesResolve(i) && ThrowsAt(es, k, i)
  {
    if impls :| AllResolve(impls) && CheckAny(es, impls).Crash? {
      var k, l := AnyMatchThrows(es, impls);
      assert ReferencesResolve(impls[l]) && ThrowsAt(es, k, impls[l]);
    }
    if k: nat, i :| ReferencesResolve(i) && ThrowsAt(es, k, i) {
      OneThrows(es, k, i);
      assert AllResolve([i]) && CheckAny(es, [i]).Crash?;
    }
  }

  // ---------------------------------------------------------------- references in lists

  /** Neither a `type` nor a boolean schema. */
  predicate HasNoType(i: Schema) {
    !i.Always? && BodyOf(i).Untyped?
  }

  /** References are only resolved for items and properties. Elsewhere one throws on whatever has no `type`. */
  lemma ReferenceThrowsIff(target: Option<Schema>, i: Schema)
    ensures Check(Reference(target), i) == if HasNoType(i) then Crash else Reject
  {
    assert CheckForm(Reference(target), i) == if BodyOf(i).Untyped? then Crash else Reject;
  }

  lemma {:induction false} ReferenceAmongThrowsIff(target: Option<Schema>, impls: seq<Schema>)
    ensures FirstMatch(Reference(target), impls)
         == if exists l :: 0 <= l < |impls| && HasNoType(impls[l]) then Crash else Reject
    decreases |impls|
  {
    if impls != [] {
      ReferenceThrowsIff(target, impls[0]);
      ReferenceAmongThrowsIff(target, impls[1..]);
      assert forall l :: 1 <= l < |impls| ==> impls[l] == impls[1..][l - 1];
      if l :| 0 <= l < |impls[1..]| && HasNoType(impls[1..][l]) {
        assert HasNoType(impls[l + 1]);
      }
    }
  }

  /** A reference in `allOf` or `oneOf` is never accepted, and throws exactly next to something without a type. */
  lemma ReferenceInListThrowsIff(es: seq<Schema>, impls: seq<Schema>, k: nat, target: Option<Schema>)
    requires |es| == |impls| && k < |es| && es[k] == Reference(target)
    requires forall j :: 0 <= j < |es| && j != k ==> !FirstMatch(es[j], impls).Crash?
    ensures CheckAll(es, impls) == if exists l :: 0 <= l < |impls| && HasNoType(impls[l]) then Crash else Reject
  {
    ReferenceAmongThrowsIff(target, impls);
    EachThrowsIff(es, impls);
    if CheckEach(es, impls).Accept? {
      EachMatchConforms(es, impls, k);
      var l :| 0 <= l < |impls| && Conforms(es[k], impls[l]);
      ReferenceThrowsIff(target, impls[l]);
    }
  }
}
