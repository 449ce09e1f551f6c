/**
 For which interfaces with `oneOf`, or with a second form beside the first, every accepted implementation
 has only instances of the interface.
 */
module InterfaceForms {
  import opened Wrappers
  import opened JsonSchema
  import opened InterfacesUtils
  import opened InterfaceNumbers
  import opened InterfaceOptions
  import opened InterfaceConformance
  import opened InterfaceThrows
  import opened InterfaceOrder

  ghost predicate Included(matches: Engine, i: Schema, e: Schema) {
    forall v :: Valid(matches, i, v) ==> Valid(matches, e, v)
  }

  // ---------------------------------------------------------------- a schema reads itself

  lemma {:induction false} ReadReflexive(matches: Engine, s: Schema)
    requires WellFormed(s, true)
    ensures Read(matches, s, s)
    decreases s
  {
    match s
    case Node(_, Listed(es), Absent, Absent, Untyped) =>
      forall k | 0 <= k < |es| ensures ReadInSome(matches, es[k], es) {
        ConformanceIsReflexive(es[k]);
        ReadReflexive(matches, es[k]);
      }
    case Node(_, Absent, Listed(es), Absent, Untyped) =>
      forall k | 0 <= k < |es| ensures SomeReadIn(matches, es, es[k]) {
        ConformanceIsReflexive(es[k]);
        ReadReflexive(matches, es[k]);
      }
    case Node(_, Absent, Absent, Absent, body) => ReadBodyReflexive(matches, body);
    case _ =>
  }

  lemma {:induction false} ReadBodyReflexive(matches: Engine, body: Body)
    requires WellFormedBody(body, true)
    ensures ReadBody(matches, body, body)
    decreases body
  {
    match body
    case NumberType(integer, m) =>
      if m.enumeration.Some? {
        ListsAllExactly(m.enumeration.value, integer, m);
      }
    case ArrayType(_, _, items) => ReadReflexive(matches, Resolve(items.value).value);
    case ObjectType(_, es) =>
      forall k | 0 <= k < |es| ensures ReadProperty(matches, es[k], Lookup(es, es[k].key)) {
        LookupFinds(es, es[k].key);
        ReadReflexive(matches, Resolve(es[k].schema).value);
      }
    case _ =>
  }

  // ---------------------------------------------------------------- a second form

  /** The one form that the check looks at. */
  function FirstForm(e: Schema): Schema {
    match e
    case Node(title, Listed(es), _, _, _) => Node(title, Listed(es), Absent, Absent, Untyped)
    case Node(title, Absent, Listed(es), _, _) => Node(title, Absent, Listed(es), Absent, Untyped)
    case Node(title, Absent, Absent, Listed(es), _) => Node(title, Absent, Absent, Listed(es), Untyped)
    case _ => e
  }

  lemma OnlyFirstFormIsChecked(e: Schema, i: Schema)
    ensures Check(e, i) == Check(FirstForm(e), i)
  {
    if e.Node? {
      assert CheckForm(e, i) == CheckForm(FirstForm(e), i);
    }
  }

  /**
   Main result: whatever is accepted for an interface has only instances of it, as far as the first form is
   read, exactly when the first form alone has only instances of the interface.
   */
  lemma SecondFormIsSoundIff(matches: Engine, e: Schema)
    requires WellFormed(FirstForm(e), true)
    ensures (forall i :: Conforms(e, i) && Read(matches, FirstForm(e), i) ==> Included(matches, i, e))
       <==> Included(matches, FirstForm(e), e)
  {
    var first := FirstForm(e);
    if Included(matches, first, e) {
      forall i, v | Conforms(e, i) && Read(matches, first, i) && Valid(matches, i, v) ensures Valid(matches, e, v) {
        OnlyFirstFormIsChecked(e, i);
        ConformanceIsSound(matches, first, i, v);
      }
    } else {
      OnlyFirstFormIsChecked(e, first);
      ConformanceIsReflexive(first);
      ReadReflexive(matches, first);
      assert Conforms(e, first) && Read(matches, first, first) && !Included(matches, first, e);
    }
  }

  // ---------------------------------------------------------------- anyOf

  /**
   Whatever is accepted for an `anyOf` has only instances of it exactly when everything is one: an
   implementation may add any alternative to the expected ones.
   */
  lemma AnyOfIsSoundIff(matches: Engine, es: seq<Schema>)
    requires es != [] && WellFormedList(es, true)
    ensures (forall i :: Conforms(AnyOfThese(es), i) ==> Included(matches, i, AnyOfThese(es)))
       <==> Included(matches, Always(true), AnyOfThese(es))
  {
    if !Included(matches, Always(true), AnyOfThese(es)) {
      var v :| !Valid(matches, AnyOfThese(es), v);
      var i := AnyOfThese(es + [Always(true)]);
      ConformanceIsReflexive(es[0]);
      assert FirstMatch(es[0], es + [Always(true)]).Accept?;
      assert AnyMatch(es, es + [Always(true)]).Accept?;
      assert CheckForm(AnyOfThese(es), i) == CheckAny(es, es + [Always(true)]);
      assert CheckForm(AnyOfThese(es), i).Accept?;
      assert i.anyOf.schemas[|es|] == Always(true) && Valid(matches, i.anyOf.schemas[|es|], v);
      assert Conforms(AnyOfThese(es), i) && Valid(matches, i, v);
    }
  }

  // ---------------------------------------------------------------- oneOf

  function OneOfThese(es: seq<Schema>): Schema {
    Node(None, Absent, Absent, Listed(es), Untyped)
  }

  /** Every implemented option is empty, or matches an expected one and is read. */
  ghost predicate OptionsMatched(matches: Engine, es: seq<Schema>, i: Schema) {
    OneOf(i).Listed? &&
    forall m :: 0 <= m < |OneOf(i).schemas| ==> OptionMatched(matches, es, OneOf(i).schemas[m])
  }

  ghost predicate OptionMatched(matches: Engine, es: seq<Schema>, option: Schema) {
    option == Always(false) || SomeReadIn(matches, es, option)
  }

  /** No two options have an instance in common. */
  ghost predicate Disjoint(matches: Engine, es: seq<Schema>) {
    forall k, l, v :: 0 <= k < l < |es| ==> !(Valid(matches, es[k], v) && Valid(matches, es[l], v))
  }

  /** Options that differ in type, constant, bounds or a discriminator are disjoint. */
  lemma ApartOptionsAreDisjoint(matches: Engine, es: seq<Schema>)
    requires forall k, l :: 0 <= k < l < |es| ==> Apart(matches, es[k], es[l])
    ensures Disjoint(matches, es)
  {
    forall k, l, v | 0 <= k < l < |es| ensures !(Valid(matches, es[k], v) && Valid(matches, es[l], v)) {
      ApartIsDisjoint(matches, es[k], es[l], v);
    }
  }

  lemma OneOfValidIff(matches: Engine, es: seq<Schema>, v: Json)
    ensures Valid(matches, OneOfThese(es), v) <==> exists k: nat :: OnlyOption(matches, es, k, v)
  {
    if Valid(matches, OneOfThese(es), v) {
      var k := ValidOption(matches, OneOfThese(es), v);
    } else {
      forall k: nat ensures !OnlyOption(matches, es, k, v) {
        assert OneOfThese(es).oneOf.schemas == es && BodyValid(matches, Untyped, v);
      }
    }
  }

  /** A schema that conforms to `s` without any instance. */
  function Emptied(s: Schema): Schema {
    match s
    case Node(_, _, _, oneOf, _) => if oneOf.Listed? then s.(anyOf := Listed([])) else s.(oneOf := Listed([]))
    case _ => Always(false)
  }

  lemma EmptiedHasNone(matches: Engine, s: Schema, v: Json)
    ensures !Valid(matches, Emptied(s), v)
  {
  }

  lemma EmptiedConforms(matches: Engine, s: Schema)
    requires s.Node? && WellFormed(s, true)
    ensures Conforms(s, Emptied(s)) && Read(matches, s, Emptied(s)) && ReferencesResolve(Emptied(s))
  {
    ConformanceIsReflexive(s);
    ReadReflexive(matches, s);
    WellFormedIsSafe(s, true);
    assert CheckForm(s, Emptied(s)) == CheckForm(s, s);
  }

  /** The options with all but one of them emptied; it stays `true` where it can. */
  function Narrowed(es: seq<Schema>, p: nat): (impls: seq<Schema>)
    requires p < |es|
    ensures |impls| == |es|
    ensures forall m :: 0 <= m < |es| ==> impls[m] == if m == p then es[p] else Emptied(es[m])
  {
    seq(|es|, m requires 0 <= m < |es| => if m == p then es[p] else Emptied(es[m]))
  }

  lemma NarrowedOption(matches: Engine, es: seq<Schema>, p: nat, m: nat)
    requires WellFormedList(es, true) && p < |es| && m < |es|
    requires Always(true) in es ==> es[p] == Always(true)
    ensures ReferencesResolve(Narrowed(es, p)[m]) && Matched(es[m], Narrowed(es, p))
    ensures OptionMatched(matches, es, Narrowed(es, p)[m])
  {
    var impls := Narrowed(es, p);
    if m == p || es[m] == Always(true) {
      WellFormedIsSafe(es[p], true);
      ConformanceIsReflexive(es[p]);
      ReadReflexive(matches, es[p]);
      assert impls[p] == es[p] && Conforms(es[m], impls[p]);
    } else {
      if es[m].Node? {
        EmptiedConforms(matches, es[m]);
      }
      assert Conforms(es[m], impls[m]);
    }
  }

  lemma OneOfConforms(es: seq<Schema>, impls: seq<Schema>)
    requires AllHaveForms(es) && AllResolve(impls) && EachMatched(es, impls) && |es| == |impls|
    ensures Conforms(OneOfThese(es), OneOfThese(impls))
  {
    ConformsEach(es, impls);
    assert CheckForm(OneOfThese(es), OneOfThese(impls)) == CheckEach(es, impls);
  }

  lemma NarrowedConforms(matches: Engine, es: seq<Schema>, p: nat)
    requires WellFormedList(es, true) && p < |es|
    requires Always(true) in es ==> es[p] == Always(true)
    ensures Conforms(OneOfThese(es), OneOfThese(Narrowed(es, p)))
    ensures OptionsMatched(matches, es, OneOfThese(Narrowed(es, p)))
  {
    var impls := Narrowed(es, p);
    assert AllResolve(impls) by {
      forall m | 0 <= m < |es| ensures ReferencesResolve(impls[m]) {
        NarrowedOption(matches, es, p, m);
      }
    }
    assert EachMatched(es, impls) by {
      forall m | 0 <= m < |es| ensures Matched(es[m], impls) {
        NarrowedOption(matches, es, p, m);
      }
    }
    assert OptionsMatched(matches, es, OneOfThese(impls)) by {
      forall m | 0 <= m < |es| ensures OptionMatched(matches, es, impls[m]) {
        NarrowedOption(matches, es, p, m);
      }
    }
    assert AllHaveForms(es) by {
      WellFormedListIsSafe(es, true);
    }
    OneOfConforms(es, impls);
  }

  /** Options that overlap are implemented by an accepted union with an instance that the interface lacks. */
  lemma OverlapIsUnsound(matches: Engine, es: seq<Schema>, k: nat, l: nat, v: Json) returns (i: Schema)
    requires WellFormedList(es, true) && k < l < |es|
    requires Valid(matches, es[k], v) && Valid(matches, es[l], v)
    ensures Conforms(OneOfThese(es), i) && OptionsMatched(matches, es, i)
    ensures Valid(matches, i, v) && !Valid(matches, OneOfThese(es), v)
  {
    var p := k;
    if Always(true) in es {
      p :| 0 <= p < |es| && es[p] == Always(true);
    }
    var impls := Narrowed(es, p);
    i := OneOfThese(impls);
    NarrowedConforms(matches, es, p);
    OneOfValidIff(matches, es, v);
    OneOfValidIff(matches, impls, v);
    assert OnlyOption(matches, impls, p, v) by {
      forall m | 0 <= m < |impls| && m != p ensures !Valid(matches, impls[m], v) {
        EmptiedHasNone(matches, es[m], v);
      }
    }
  }

  /**
   Main result: whatever is accepted for a `oneOf`, as far as its options are read, has only instances of
   it exactly when the expected options are disjoint.
   */
  lemma OneOfIsSoundIff(matches: Engine, es: seq<Schema>)
    requires WellFormedList(es, true)
    ensures (forall i :: Conforms(OneOfThese(es), i) && OptionsMatched(matches, es, i) ==>
                           Included(matches, i, OneOfThese(es)))
       <==> Disjoint(matches, es)
  {
    if Disjoint(matches, es) {
      forall i, v | Conforms(OneOfThese(es), i) && OptionsMatched(matches, es, i) && Valid(matches, i, v)
        ensures Valid(matches, OneOfThese(es), v)
      {
        DisjointIsSound(matches, es, i, v);
      }
    } else {
      var k, l, v :| 0 <= k < l < |es| && Valid(matches, es[k], v) && Valid(matches, es[l], v);
      var i := OverlapIsUnsound(matches, es, k, l, v);
      assert !Included(matches, i, OneOfThese(es));
    }
  }

  lemma DisjointIsSound(matches: Engine, es: seq<Schema>, i: Schema, v: Json)
    requires Disjoint(matches, es) && OptionsMatched(matches, es, i) && Valid(matches, i, v)
    ensures Valid(matches, OneOfThese(es), v)
  {
    var impls := OneOf(i).schemas;
    var m := ValidOption(matches, i, v);
    assert OptionMatched(matches, es, impls[m]);
    var k :| 0 <= k < |es| && Conforms(es[k], impls[m]) && Read(matches, es[k], impls[m]);
    ConformanceIsSound(matches, es[k], impls[m], v);
    assert OnlyOption(matches, es, k, v) by {
      forall j | 0 <= j < |es| && j != k ensures !Valid(matches, es[j], v) {
        assert j < k || k < j;
      }
    }
    OneOfValidIff(matches, es, v);
  }
}
