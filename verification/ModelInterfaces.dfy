/**
 Which interfaces a model implements, directly and through other interfaces
 (packages/stream-model/src/model.ts:16-73).
 */
module ModelInterfaces {
  import opened Wrappers

  type ModelId = string

  datatype Version = Version(major: nat, minor: nat)

  datatype Model = Model(version: Version, isInterface: bool, implements: Option<seq<ModelId>>)

  /** The models that can be loaded: their content never changes. */
  type Models = map<ModelId, Model>

  /** An interface can be loaded, says so, and has a version with interfaces. */
  predicate IsInterface(models: Models, id: ModelId) {
    id in models && models[id].isInterface && models[id].version != Version(1, 0)
  }

  /** The interface `a` names `b` among those it implements. */
  predicate Names(models: Models, a: ModelId, b: ModelId) {
    IsInterface(models, a) && models[a].implements.Some? && b in models[a].implements.value
  }

  function LoadInterfaceImplements(models: Models, id: ModelId): (r: Result<seq<ModelId>, string>)
    ensures r.Success? <==> IsInterface(models, id)
    ensures r.Success? ==> forall b :: b in r.value <==> Names(models, id, b)
  {
    if id !in models then Failure("cannot be loaded")
    else if models[id].version == Version(1, 0) || !models[id].isInterface then Failure("is not an interface")
    else Success(if models[id].implements.Some? then models[id].implements.value else [])
  }

  /** What an interface implements directly. */
  function Parents(models: Models, id: ModelId): (r: seq<ModelId>)
    ensures forall b :: b in r <==> Names(models, id, b)
  {
    var own := LoadInterfaceImplements(models, id);
    if own.Success? then own.value else []
  }

  // ---------------------------------------------------------------- reachability

  predicate IsChain(models: Models, chain: seq<ModelId>) {
    chain != [] && forall k :: 0 <= k < |chain| - 1 ==> Names(models, chain[k], chain[k + 1])
  }

  predicate Links(models: Models, chain: seq<ModelId>, a: ModelId, b: ModelId) {
    IsChain(models, chain) && chain[0] == a && chain[|chain| - 1] == b
  }

  /** Some chain of direct implementations leads from `a` to `b`. */
  ghost predicate Reaches(models: Models, a: ModelId, b: ModelId) {
    exists chain :: Links(models, chain, a, b)
  }

  ghost predicate ReachedFrom(models: Models, start: seq<ModelId>, b: ModelId) {
    exists a :: a in start && Reaches(models, a, b)
  }

  ghost predicate AllInterfaces(models: Models, start: seq<ModelId>) {
    forall b :: ReachedFrom(models, start, b) ==> IsInterface(models, b)
  }

  /** A content-addressed identifier cannot occur in what it names, so there is such a rank. */
  ghost predicate Ranked(models: Models, rank: ModelId -> nat) {
    forall a, b :: Names(models, a, b) ==> rank(b) < rank(a)
  }

  lemma ReachesItself(models: Models, a: ModelId)
    ensures Reaches(models, a, a)
  {
    assert Links(models, [a], a, a);
  }

  lemma ReachesFurther(models: Models, a: ModelId, b: ModelId, c: ModelId)
    requires Names(models, a, b) && Reaches(models, b, c)
    ensures Reaches(models, a, c)
  {
    var chain :| Links(models, chain, b, c);
    assert Links(models, [a] + chain, a, c);
  }

  lemma ReachesBySteps(models: Models, a: ModelId, c: ModelId)
    ensures Reaches(models, a, c) <==> a == c || ReachedFrom(models, Parents(models, a), c)
  {
    if Reaches(models, a, c) && a != c {
      var chain :| Links(models, chain, a, c);
      assert Names(models, chain[0], chain[1]);
      assert Links(models, chain[1..], chain[1], c);
    } else if a == c {
      ReachesItself(models, a);
    } else if ReachedFrom(models, Parents(models, a), c) {
      var b :| b in Parents(models, a) && Reaches(models, b, c);
      ReachesFurther(models, a, b, c);
    }
  }

  // ---------------------------------------------------------------- the shared table

  /** A right answer for one interface: everything it implements, or a failure when that is not all interfaces. */
  ghost predicate RightEntry(models: Models, id: ModelId, entry: Result<seq<ModelId>, string>) {
    && (entry.Success? <==> AllInterfaces(models, [id]))
    && (entry.Success? ==> forall x :: x in entry.value <==> ReachedFrom(models, Parents(models, id), x))
  }

  ghost predicate Filled(models: Models, loading: map<ModelId, Result<seq<ModelId>, string>>) {
    forall id :: id in loading ==> RightEntry(models, id, loading[id])
  }

  ghost predicate RightAnswer(models: Models, start: seq<ModelId>, answer: Result<seq<ModelId>, string>) {
    && (answer.Success? <==> AllInterfaces(models, start))
    && (answer.Success? ==> forall x :: x in answer.value <==> ReachedFrom(models, start, x))
  }

  lemma FailedEntryIsRight(models: Models, id: ModelId, e: string)
    requires !IsInterface(models, id)
    ensures RightEntry(models, id, Failure(e))
  {
    ReachesItself(models, id);
    assert ReachedFrom(models, [id], id);
  }

  lemma AllInterfacesBySteps(models: Models, id: ModelId)
    ensures AllInterfaces(models, [id]) <==> IsInterface(models, id) && AllInterfaces(models, Parents(models, id))
  {
    ReachesItself(models, id);
    assert ReachedFrom(models, [id], id);
    forall x ensures ReachedFrom(models, [id], x) <==> x == id || ReachedFrom(models, Parents(models, id), x) {
      ReachesBySteps(models, id, x);
      assert id in [id];
    }
  }

  lemma EntryFromParents(models: Models, id: ModelId, sub: Result<seq<ModelId>, string>)
    requires IsInterface(models, id) && RightAnswer(models, Parents(models, id), sub)
    ensures sub.Failure? ==> RightEntry(models, id, sub)
    ensures sub.Success? ==> RightEntry(models, id, Success(Parents(models, id) + sub.value))
  {
    AllInterfacesBySteps(models, id);
    if sub.Success? {
      var own := Parents(models, id);
      forall x ensures x in own + sub.value <==> ReachedFrom(models, own, x) {
        if x in own {
          ReachesItself(models, x);
        }
      }
    }
  }

  /** The answers for all starting points together are the answer for the list of them. */
  lemma AnswerFromEntries(models: Models, start: seq<ModelId>, loading: map<ModelId, Result<seq<ModelId>, string>>)
    requires Filled(models, loading) && forall id :: id in start ==> id in loading
    ensures AllInterfaces(models, start) <==> forall id :: id in start ==> loading[id].Success?
    ensures (forall id :: id in start ==> loading[id].Success?) ==>
              forall x :: ReachedFrom(models, start, x) <==> x in start || InSome(start, loading, x)
  {
    forall id | id in start ensures loading[id].Success? <==> AllInterfaces(models, [id]) {
    }
    if AllInterfaces(models, start) {
      forall id | id in start ensures AllInterfaces(models, [id]) {
        forall x | ReachedFrom(models, [id], x) ensures IsInterface(models, x) {
          assert ReachedFrom(models, start, x);
        }
      }
    }
    if forall id :: id in start ==> loading[id].Success? {
      forall x | ReachedFrom(models, start, x) ensures IsInterface(models, x) {
        var a :| a in start && Reaches(models, a, x);
        assert a in [a] && ReachedFrom(models, [a], x);
        assert AllInterfaces(models, [a]);
      }
      forall x ensures ReachedFrom(models, start, x) <==> x in start || InSome(start, loading, x) {
        ReachedByEntries(models, start, loading, x);
      }
    }
  }

  predicate InSome(start: seq<ModelId>, loading: map<ModelId, Result<seq<ModelId>, string>>, x: ModelId) {
    exists id :: id in start && id in loading && loading[id].Success? && x in loading[id].value
  }

  lemma ReachedByEntries(models: Models, start: seq<ModelId>, loading: map<ModelId, Result<seq<ModelId>, string>>,
                         x: ModelId)
    requires Filled(models, loading) && forall id :: id in start ==> id in loading && loading[id].Success?
    ensures ReachedFrom(models, start, x) <==> x in start || InSome(start, loading, x)
  {
    if ReachedFrom(models, start, x) {
      var a :| a in start && Reaches(models, a, x);
      ReachesBySteps(models, a, x);
      assert RightEntry(models, a, loading[a]);
    } else {
      if x in start {
        ReachesItself(models, x);
      } else if InSome(start, loading, x) {
        var id :| id in start && id in loading && loading[id].Success? && x in loading[id].value;
        assert RightEntry(models, id, loading[id]);
        ReachesBySteps(models, id, x);
      }
    }
  }

  predicate Distinct(s: seq<ModelId>) {
    forall i, j :: 0 <= i < j < |s| ==> s[i] != s[j]
  }

  /** `Array.from(new Set(s))` */
  function Unique(s: seq<ModelId>): (r: seq<ModelId>)
    ensures Distinct(r)
    ensures forall x :: x in r <==> x in s
  {
    if s == [] then []
    else
      var front := Unique(s[..|s| - 1]);
      var last := s[|s| - 1];
      assert s == s[..|s| - 1] + [last];
      if last in front then front else front + [last]
  }

  /** The table of interfaces being loaded, shared by the recursive calls and between the models of one request. */
  class LoadingInterfaceImplements {
    const models: Models
    ghost const rank: ModelId -> nat
    var loading: map<ModelId, Result<seq<ModelId>, string>>
    /** The interfaces fetched from the network, in order. */
    ghost var fetched: seq<ModelId>

    constructor (models: Models, ghost rank: ModelId -> nat)
      requires Ranked(models, rank)
      ensures this.models == models && this.rank == rank && Valid() && loading == map[] && fetched == []
    {
      this.models := models;
      this.rank := rank;
      loading := map[];
      fetched := [];
    }

    ghost predicate Valid()
      reads this
    {
      Ranked(models, rank) && Filled(models, loading) && Distinct(fetched)
    }

    /** Whatever was fetched and is not in the table yet belongs to a call further up. */
    ghost predicate Settled(bound: nat)
      reads this
    {
      forall id :: id in fetched ==> id in loading || bound <= rank(id)
    }

    /** Everything fetched since then has its entry by now. */
    ghost predicate Finished(was: seq<ModelId>)
      reads this
    {
      forall id :: id in fetched ==> id in loading || id in was
    }

    ghost predicate Extends(was: map<ModelId, Result<seq<ModelId>, string>>)
      reads this
    {
      forall id :: id in was ==> id in loading && loading[id] == was[id]
    }

    /** Exactly the interfaces reachable from the given ones, each once, and nothing is fetched twice. */
    method LoadAllModelInterfaces(interfaces: seq<ModelId>, ghost bound: nat) returns (r: Result<seq<ModelId>, string>)
      requires Valid() && Settled(bound)
      requires forall id :: id in interfaces ==> rank(id) < bound
      modifies this
      ensures Valid() && Finished(old(fetched))
      ensures Extends(old(loading))
      ensures RightAnswer(models, interfaces, r)
      ensures r.Success? ==> Distinct(r.value)
      decreases bound, 2
    {
      LoadEach(interfaces, bound);
      r := Collect(interfaces);
    }

    ghost predicate AllLoaded(ids: seq<ModelId>)
      reads this
    {
      forall id :: id in ids ==> id in loading
    }

    method LoadEach(interfaces: seq<ModelId>, ghost bound: nat)
      requires Valid() && Settled(bound)
      requires forall id :: id in interfaces ==> rank(id) < bound
      modifies this
      ensures Valid() && Finished(old(fetched))
      ensures Extends(old(loading)) && AllLoaded(interfaces)
      decreases bound, 1
    {
      for i := 0 to |interfaces|
        invariant Valid()
        invariant Finished(old(fetched))
        invariant Extends(old(loading))
        invariant AllLoaded(interfaces[..i])
      {
        assert interfaces[..i + 1] == interfaces[..i] + [interfaces[i]];
        LoadOne(interfaces[i], bound);
      }
      assert interfaces[..|interfaces|] == interfaces;
    }

    method LoadOne(id: ModelId, ghost bound: nat)
      requires Valid() && Settled(bound) && rank(id) < bound
      modifies this
      ensures Valid() && Finished(old(fetched))
      ensures Extends(old(loading)) && id in loading
      decreases bound, 0
    {
      if id in loading {
        return;
      }
      fetched := fetched + [id];
      var own := LoadInterfaceImplements(models, id);
      if own.Failure? {
        FailedEntryIsRight(models, id, own.error);
        loading := loading[id := Failure(own.error)];
      } else {
        var sub := LoadAllModelInterfaces(own.value, rank(id));
        EntryFromParents(models, id, sub);
        var entry := if sub.Failure? then sub else Success(own.value + sub.value);
        loading := loading[id := entry];
      }
    }

    /** `Promise.all` and the removal of duplicates. */
    method Collect(interfaces: seq<ModelId>) returns (r: Result<seq<ModelId>, string>)
      requires Filled(models, loading) && AllLoaded(interfaces)
      ensures RightAnswer(models, interfaces, r)
      ensures r.Success? ==> Distinct(r.value)
    {
      r := Flatten(interfaces);
      AnswerFromEntries(models, interfaces, loading);
      if r.Success? {
        r := Success(Unique(r.value));
      }
    }

    /** The first failure, or all answers in a row behind the interfaces themselves. */
    method Flatten(interfaces: seq<ModelId>) returns (r: Result<seq<ModelId>, string>)
      requires AllLoaded(interfaces)
      ensures r.Success? <==> forall id :: id in interfaces ==> loading[id].Success?
      ensures r.Success? ==> forall x :: x in r.value <==> x in interfaces || InSome(interfaces, loading, x)
    {
      var all := interfaces;
      var i := 0;
      while i < |interfaces|
        invariant 0 <= i <= |interfaces|
        invariant forall id :: id in interfaces[..i] ==> loading[id].Success?
        invariant forall x :: x in all <==> x in interfaces || InSome(interfaces[..i], loading, x)
      {
        var entry := loading[interfaces[i]];
        if entry.Failure? {
          assert interfaces[i] in interfaces;
          return Failure(entry.error);
        }
        assert interfaces[..i + 1] == interfaces[..i] + [interfaces[i]];
        all := all + entry.value;
        i := i + 1;
      }
      assert interfaces[..i] == interfaces;
      r := Success(all);
    }
  }
}
