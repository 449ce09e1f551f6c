/**
 Which models are indexed, and which of them a query over an interface reads
 (packages/indexing/src/database-index-api.ts, packages/indexing/src/local-index-api.ts).
 */
module ModelIndex {
  import opened Wrappers
  import opened ModelInterfaces

  /** The highest major version of model definitions that is understood. */
  const SUPPORTED_MAJOR: nat := 2

  /** The models on the network, and the identifier that stands for the model of models. */
  datatype Network = Network(models: Models, metaModel: ModelId) {
    /** What a model itself names. */
    predicate Declares(m: ModelId, i: ModelId) {
      m != metaModel && m in models && models[m].implements.Some? && i in models[m].implements.value
    }

    /** Directly or through other interfaces. */
    ghost predicate Implements(m: ModelId, i: ModelId) {
      exists d :: Declares(m, d) && Reaches(models, d, i)
    }

    ghost predicate Indexable(m: ModelId) {
      || m == metaModel
      || (&& m in models && models[m].version.major <= SUPPORTED_MAJOR && !models[m].isInterface
          && forall i :: Implements(m, i) ==> IsInterface(models, i))
    }
  }

  type Implementers = map<ModelId, set<ModelId>>

  predicate Records(implementers: Implementers, i: ModelId, m: ModelId) {
    i in implementers && m in implementers[i]
  }

  datatype IndexModelArgs = IndexModelArgs(model: ModelId, implements: Option<seq<ModelId>>) {
    predicate Announces(i: ModelId) {
      implements.Some? && i in implements.value
    }
  }

  predicate Announced(args: seq<IndexModelArgs>, i: ModelId, m: ModelId) {
    exists a :: a in args && a.model == m && a.Announces(i)
  }

  predicate Named(args: seq<IndexModelArgs>, i: ModelId) {
    exists a :: a in args && a.Announces(i)
  }

  /** What a query names: `models` when given and not empty, otherwise `model`. */
  datatype BaseQuery = BaseQuery(models: Option<seq<ModelId>>, model: Option<ModelId>) {
    function Ids(): (r: seq<ModelId>)
      ensures forall m :: m in r <==> if models.Some? && models.value != [] then m in models.value else model == Some(m)
    {
      if models.Some? && models.value != [] then models.value
      else if model.Some? then [model.value]
      else []
    }
  }

  /** An identifier with known implementers stands for those that are indexed, any other for itself. */
  predicate StandsFor(indexed: seq<ModelId>, implementers: Implementers, id: ModelId, m: ModelId) {
    if id in implementers then m in implementers[id] && m in indexed else m == id
  }

  predicate Selected(indexed: seq<ModelId>, implementers: Implementers, ids: seq<ModelId>, m: ModelId) {
    exists id :: id in ids && StandsFor(indexed, implementers, id, m)
  }

  function Without(s: seq<ModelId>, gone: seq<ModelId>): (r: seq<ModelId>)
    ensures forall m :: m in r <==> m in s && m !in gone
    ensures Distinct(s) ==> Distinct(r)
  {
    if s == [] then []
    else
      var front := Without(s[..|s| - 1], gone);
      assert s == s[..|s| - 1] + [s[|s| - 1]];
      if s[|s| - 1] in gone then front else front + [s[|s| - 1]]
  }

  function ModelsOf(args: seq<IndexModelArgs>): (r: seq<ModelId>)
    ensures |r| == |args| && forall k :: 0 <= k < |r| ==> r[k] == args[k].model
  {
    seq(|args|, k requires 0 <= k < |args| => args[k].model)
  }

  class DatabaseIndexApi {
    const allowQueriesBeforeHistoricalSync: bool
    var indexedModels: seq<ModelId>
    var interfacesModels: Implementers
    /** The table of model configurations: whether a model is indexed, for every model that ever was. */
    var config: map<ModelId, bool>

    constructor (allowQueriesBeforeHistoricalSync: bool)
      ensures this.allowQueriesBeforeHistoricalSync == allowQueriesBeforeHistoricalSync
      ensures indexedModels == [] && interfacesModels == map[] && config == map[]
    {
      this.allowQueriesBeforeHistoricalSync := allowQueriesBeforeHistoricalSync;
      indexedModels, interfacesModels, config := [], map[], map[];
    }

    method AddModelImplements(modelID: ModelId, interfaceID: ModelId)
      modifies `interfacesModels
      ensures interfacesModels.Keys == old(interfacesModels).Keys + {interfaceID}
      ensures forall i, m :: Records(interfacesModels, i, m) <==>
                Records(old(interfacesModels), i, m) || (i == interfaceID && m == modelID)
    {
      var models := if interfaceID in interfacesModels then interfacesModels[interfaceID] else {};
      interfacesModels := interfacesModels[interfaceID := models + {modelID}];
    }

    method AddImplements(args: IndexModelArgs)
      modifies `interfacesModels
      ensures forall i :: i in interfacesModels <==> i in old(interfacesModels) || args.Announces(i)
      ensures forall i, m :: Records(interfacesModels, i, m) <==>
                Records(old(interfacesModels), i, m) || (m == args.model && args.Announces(i))
    {
      var names := if args.implements.Some? then args.implements.value else [];
      var k := 0;
      while k < |names|
        invariant 0 <= k <= |names|
        invariant forall i :: i in interfacesModels <==> i in old(interfacesModels) || i in names[..k]
        invariant forall i, m :: Records(interfacesModels, i, m) <==>
                    Records(old(interfacesModels), i, m) || (m == args.model && i in names[..k])
      {
        AddModelImplements(args.model, names[k]);
        assert names[..k + 1] == names[..k] + [names[k]];
        k := k + 1;
      }
      assert names[..k] == names;
    }

    /** Every announced implementation is on record afterwards, and nothing else is added. */
    method IndexModelsInDatabase(models: seq<IndexModelArgs>)
      modifies `config, `interfacesModels
      ensures forall m :: m in config <==> m in old(config) || m in ModelsOf(models)
      ensures forall m :: m in config ==> config[m] == (m in ModelsOf(models) || old(config)[m])
      ensures forall i, m :: Records(interfacesModels, i, m) <==>
                Records(old(interfacesModels), i, m) || Announced(models, i, m)
      ensures forall i :: i in interfacesModels <==> i in old(interfacesModels) || Named(models, i)
    {
      var named := set m | m in ModelsOf(models);
      config := map m | m in config.Keys + named :: m in named || config[m];
      label Configured:
      var k := 0;
      while k < |models|
        invariant 0 <= k <= |models| && config == old@Configured(config)
        invariant forall i, m :: Records(interfacesModels, i, m) <==>
                    Records(old(interfacesModels), i, m) || Announced(models[..k], i, m)
        invariant forall i :: i in interfacesModels <==>
                    i in old(interfacesModels) || Named(models[..k], i)
      {
        AddImplements(models[k]);
        AnnouncedByOneMore(models, k);
        k := k + 1;
      }
      assert models[..k] == models;
    }

    /** Stops at the first model that is still being synchronised: the models before it are indexed. */
    method IndexModels(models: seq<IndexModelArgs>, synced: set<ModelId>)
      returns (r: Result<(), string>, ghost done: nat)
      modifies `config, `interfacesModels, `indexedModels
      ensures forall m :: m in config <==> m in old(config) || m in ModelsOf(models)
      ensures forall m :: m in config ==> config[m] == (m in ModelsOf(models) || old(config)[m])
      ensures forall i, m :: Records(interfacesModels, i, m) <==>
                Records(old(interfacesModels), i, m) || Announced(models, i, m)
      ensures forall i :: i in interfacesModels <==> i in old(interfacesModels) || Named(models, i)
      ensures done <= |models| && (r.Success? <==> done == |models|)
      ensures forall k :: 0 <= k < done ==> allowQueriesBeforeHistoricalSync || models[k].model in synced
      ensures r.Failure? ==> !allowQueriesBeforeHistoricalSync && models[done].model !in synced
      ensures forall m :: m in indexedModels <==> m in old(indexedModels) || m in ModelsOf(models)[..done]
      ensures old(indexedModels) <= indexedModels
      ensures Distinct(old(indexedModels)) ==> Distinct(indexedModels)
    {
      IndexModelsInDatabase(models);
      label Recorded:
      done := 0;
      var k := 0;
      while k < |models|
        invariant 0 <= k <= |models| && done == k
        invariant config == old@Recorded(config) && interfacesModels == old@Recorded(interfacesModels)
        invariant forall j :: 0 <= j < k ==> allowQueriesBeforeHistoricalSync || models[j].model in synced
        invariant forall m :: m in indexedModels <==> m in old(indexedModels) || m in ModelsOf(models)[..k]
        invariant old(indexedModels) <= indexedModels
        invariant Distinct(old(indexedModels)) ==> Distinct(indexedModels)
      {
        if !allowQueriesBeforeHistoricalSync && models[k].model !in synced {
          return Failure("not available while synchronising"), k;
        }
        assert ModelsOf(models)[..k + 1] == ModelsOf(models)[..k] + [models[k].model];
        if models[k].model !in indexedModels {
          indexedModels := indexedModels + [models[k].model];
        }
        k := k + 1;
        done := k;
      }
      r := Success(());
    }

    method StopIndexingModels(models: seq<ModelId>)
      modifies `config, `indexedModels
      ensures indexedModels == Without(old(indexedModels), models)
      ensures forall m :: m in config <==> m in old(config) || m in models
      ensures forall m :: m in config ==> config[m] == (m !in models && old(config)[m])
    {
      var named := set m | m in models;
      config := map m | m in config.Keys + named :: m !in named && config[m];
      indexedModels := Without(indexedModels, models);
    }

    predicate Queryable(m: ModelId, synced: set<ModelId>)
      reads this
    {
      m in indexedModels && (allowQueriesBeforeHistoricalSync || m in synced)
    }

    /** The models a query reads, provided that all of them can be queried. */
    method GetQueryModels(query: BaseQuery, synced: set<ModelId>) returns (r: Result<set<ModelId>, string>)
      ensures r.Success? ==> forall m :: m in r.value <==> Selected(indexedModels, interfacesModels, query.Ids(), m)
      ensures r.Success? <==>
                && query.Ids() != []
                && forall m :: Selected(indexedModels, interfacesModels, query.Ids(), m) ==> Queryable(m, synced)
    {
      var ids := query.Ids();
      if ids == [] {
        return Failure("Missing models values to execute query");
      }
      var models: set<ModelId> := {};
      var k := 0;
      while k < |ids|
        invariant 0 <= k <= |ids|
        invariant forall m :: m in models <==> Selected(indexedModels, interfacesModels, ids[..k], m)
      {
        SelectedByOneMore(indexedModels, interfacesModels, ids, k);
        if ids[k] !in interfacesModels {
          models := models + {ids[k]};
        } else {
          models := models + (set m | m in interfacesModels[ids[k]] && m in indexedModels);
        }
        k := k + 1;
      }
      assert ids[..k] == ids;
      if forall m :: m in models ==> Queryable(m, synced) {
        r := Success(models);
      } else {
        r := Failure("Query failed");
      }
    }
  }

  lemma AnnouncedByOneMore(args: seq<IndexModelArgs>, k: nat)
    requires k < |args|
    ensures forall i, m :: Announced(args[..k + 1], i, m) <==>
              Announced(args[..k], i, m) || (m == args[k].model && args[k].Announces(i))
    ensures forall i :: Named(args[..k + 1], i) <==> Named(args[..k], i) || args[k].Announces(i)
  {
    assert args[..k + 1] == args[..k] + [args[k]];
    forall i | args[k].Announces(i) ensures Named(args[..k + 1], i) {
      assert args[k] in args[..k + 1];
    }
    forall i | args[k].Announces(i) ensures Announced(args[..k + 1], i, args[k].model) {
      assert args[k] in args[..k + 1];
    }
  }

  lemma SelectedByOneMore(indexed: seq<ModelId>, implementers: Implementers, ids: seq<ModelId>, k: nat)
    requires k < |ids|
    ensures forall m :: Selected(indexed, implementers, ids[..k + 1], m) <==>
              Selected(indexed, implementers, ids[..k], m) || StandsFor(indexed, implementers, ids[k], m)
  {
    assert ids[..k + 1] == ids[..k] + [ids[k]];
    forall m | StandsFor(indexed, implementers, ids[k], m) ensures Selected(indexed, implementers, ids[..k + 1], m) {
      assert ids[k] in ids[..k + 1];
    }
  }

  // ---------------------------------------------------------------- the invariant

  ghost predicate RightRecords(net: Network, implementers: Implementers) {
    && (forall i, m :: Records(implementers, i, m) ==> net.Implements(m, i) && IsInterface(net.models, i))
    && (forall i :: i in implementers ==> implementers[i] != {})
  }

  ghost predicate RightIndex(net: Network, indexed: seq<ModelId>, implementers: Implementers) {
    && Distinct(indexed)
    && (forall m :: m in indexed ==> net.Indexable(m))
    && (forall i, m :: m in indexed && net.Implements(m, i) ==> Records(implementers, i, m))
  }

  /** A query over some identifiers reads an indexed model if it, or an interface it implements, is among them. */
  lemma QueryReadsImplementers(net: Network, indexed: seq<ModelId>, implementers: Implementers, ids: seq<ModelId>,
                               m: ModelId)
    requires net.metaModel !in net.models
    requires RightRecords(net, implementers) && RightIndex(net, indexed, implementers)
    requires m in indexed
    ensures Selected(indexed, implementers, ids, m) <==> m in ids || exists i :: i in ids && net.Implements(m, i)
  {
    assert m !in implementers by {
      if m in implementers {
        var other :| other in implementers[m];
        assert Records(implementers, m, other);
      }
    }
    if Selected(indexed, implementers, ids, m) && m !in ids {
      var id :| id in ids && StandsFor(indexed, implementers, id, m);
      assert Records(implementers, id, m);
    }
    if m in ids {
      assert StandsFor(indexed, implementers, m, m);
    } else if exists i :: i in ids && net.Implements(m, i) {
      var i :| i in ids && net.Implements(m, i);
      assert Records(implementers, i, m);
      assert StandsFor(indexed, implementers, i, m);
    }
  }

  /** Everything selected is indexed unless a name is a model that is not, or an interface nobody implements. */
  lemma QueryFailsOnUnknown(indexed: seq<ModelId>, implementers: Implementers, ids: seq<ModelId>)
    ensures (forall m :: Selected(indexed, implementers, ids, m) ==> m in indexed) <==>
              forall id :: id in ids ==> id in indexed || id in implementers
  {
    forall id | id in ids && id !in implementers ensures Selected(indexed, implementers, ids, id) {
      assert StandsFor(indexed, implementers, id, id);
    }
  }

  class LocalIndexApi {
    const net: Network
    ghost const rank: ModelId -> nat
    const databaseIndexApi: DatabaseIndexApi

    constructor (net: Network, ghost rank: ModelId -> nat, databaseIndexApi: DatabaseIndexApi)
      requires net.metaModel !in net.models && Ranked(net.models, rank)
      requires databaseIndexApi.indexedModels == []
      requires databaseIndexApi.interfacesModels == map[] && databaseIndexApi.config == map[]
      ensures this.net == net && this.databaseIndexApi == databaseIndexApi && Valid()
    {
      this.net, this.rank, this.databaseIndexApi := net, rank, databaseIndexApi;
    }

    ghost predicate Valid()
      reads this, databaseIndexApi
    {
      && net.metaModel !in net.models
      && Ranked(net.models, rank)
      && RightRecords(net, databaseIndexApi.interfacesModels)
      && RightIndex(net, databaseIndexApi.indexedModels, databaseIndexApi.interfacesModels)
      && (forall m :: m in databaseIndexApi.indexedModels ==>
            m in databaseIndexApi.config && databaseIndexApi.config[m])
    }

    predicate Stopped(m: ModelId)
      reads databaseIndexApi
    {
      m in databaseIndexApi.config && !databaseIndexApi.config[m]
    }

    /** What is announced for a model: all the interfaces it implements. */
    ghost predicate RightArgs(args: IndexModelArgs) {
      && net.Indexable(args.model)
      && (forall i :: args.Announces(i) <==> net.Implements(args.model, i))
    }

    method GetIndexModelArgs(m: ModelId, loader: LoadingInterfaceImplements) returns (r: Result<IndexModelArgs, string>)
      requires Valid() && loader.Valid() && loader.models == net.models && loader.rank == rank
      requires loader.Finished([])
      modifies loader
      ensures loader.Valid() && loader.Finished([])
      ensures r.Success? <==> net.Indexable(m)
      ensures r.Success? ==> r.value.model == m && RightArgs(r.value)
    {
      if m != net.metaModel && m !in net.models {
        return Failure("Cannot index, it is not a Model StreamID");
      }
      if m == net.metaModel {
        return Success(IndexModelArgs(m, None));
      }
      var content := net.models[m];
      if content.version.major > SUPPORTED_MAJOR {
        return Failure("Unsupported version");
      }
      if content.isInterface {
        return Failure("is an interface and cannot be indexed");
      }
      if content.implements.None? {
        return Success(IndexModelArgs(m, None));
      }
      ghost var bound := RankBound(content.implements.value, rank);
      var implements := loader.LoadAllModelInterfaces(content.implements.value, bound);
      if implements.Failure? {
        return Failure(implements.error);
      }
      r := Success(IndexModelArgs(m, Some(implements.value)));
    }

    method ConvertModels(models: seq<ModelId>) returns (r: Result<seq<IndexModelArgs>, string>)
      requires Valid()
      ensures r.Success? <==> forall m :: m in models ==> !Stopped(m) && net.Indexable(m)
      ensures r.Success? ==> ModelsOf(r.value) == models
      ensures r.Success? ==> forall a :: a in r.value ==> RightArgs(a)
    {
      var loader := new LoadingInterfaceImplements(net.models, rank);
      var args: seq<IndexModelArgs> := [];
      var k := 0;
      while k < |models|
        invariant 0 <= k == |args| <= |models|
        invariant loader.Valid() && loader.Finished([]) && loader.models == net.models && loader.rank == rank
        invariant fresh(loader)
        invariant forall j :: 0 <= j < k ==> !Stopped(models[j]) && args[j].model == models[j] && RightArgs(args[j])
      {
        if Stopped(models[k]) {
          return Failure("Cannot re-index model, data may not be up-to-date");
        }
        var a := GetIndexModelArgs(models[k], loader);
        if a.Failure? {
          return Failure(a.error);
        }
        args := args + [a.value];
        k := k + 1;
      }
      r := Success(args);
    }

    /** Models are refused without any change when one of them was stopped before or cannot be indexed. */
    method IndexModels(models: seq<ModelId>, synced: set<ModelId>) returns (r: Result<(), string>)
      requires Valid()
      modifies databaseIndexApi
      ensures Valid()
      ensures forall m :: old(Stopped(m)) ==> Stopped(m)
      ensures r.Success? <==> forall m :: m in models ==>
                && !old(Stopped(m)) && net.Indexable(m)
                && (databaseIndexApi.allowQueriesBeforeHistoricalSync || m in synced)
      ensures (exists m :: m in models && (old(Stopped(m)) || !net.Indexable(m))) ==>
                r.Failure? && unchanged(databaseIndexApi)
      ensures forall m :: m in databaseIndexApi.indexedModels ==>
        m in old(databaseIndexApi.indexedModels) || m in models
      ensures old(databaseIndexApi.indexedModels) <= databaseIndexApi.indexedModels
      ensures r.Success? ==> forall m :: m in models ==> m in databaseIndexApi.indexedModels
    {
      var args := ConvertModels(models);
      if args.Failure? {
        return Failure(args.error);
      }
      ghost var done;
      r, done := databaseIndexApi.IndexModels(args.value, synced);
      RecordsStayRight(old(databaseIndexApi.interfacesModels), databaseIndexApi.interfacesModels, args.value);
    }

    lemma RecordsStayRight(before: Implementers, after: Implementers, args: seq<IndexModelArgs>)
      requires RightRecords(net, before)
      requires forall a :: a in args ==> RightArgs(a)
      requires forall i, m :: Records(after, i, m) <==> Records(before, i, m) || Announced(args, i, m)
      requires forall i :: i in after <==> i in before || Named(args, i)
      ensures RightRecords(net, after)
      ensures forall a, i :: a in args && net.Implements(a.model, i) ==> Records(after, i, a.model)
    {
      forall i, m | Announced(args, i, m) ensures net.Implements(m, i) && IsInterface(net.models, i) {
      }
      forall i | i in after ensures after[i] != {} {
        if i in before {
          var m :| m in before[i];
          assert Records(before, i, m) && Records(after, i, m);
        } else {
          var a :| a in args && a.Announces(i);
          assert Announced(args, i, a.model) && Records(after, i, a.model);
        }
      }
      forall a, i | a in args && net.Implements(a.model, i) ensures Records(after, i, a.model) {
        assert a.Announces(i);
        assert Announced(args, i, a.model);
      }
    }

    method StopIndexingModels(models: seq<ModelId>)
      requires Valid()
      modifies databaseIndexApi
      ensures Valid()
      ensures forall m :: m in models || old(Stopped(m)) ==> Stopped(m)
      ensures databaseIndexApi.indexedModels == Without(old(databaseIndexApi.indexedModels), models)
    {
      databaseIndexApi.StopIndexingModels(models);
    }

    /** An indexed model, or an interface that some model implements which is or was indexed. */
    predicate Known(id: ModelId)
      reads databaseIndexApi
    {
      id in databaseIndexApi.indexedModels || id in databaseIndexApi.interfacesModels
    }

    /** The model, or an interface it implements, is named. */
    ghost predicate Meant(ids: seq<ModelId>, m: ModelId) {
      m in ids || exists i :: i in ids && net.Implements(m, i)
    }

    /** After any run: an interface is resolved to exactly the indexed models that implement it. */
    method QueryModels(query: BaseQuery, synced: set<ModelId>) returns (r: Result<set<ModelId>, string>)
      requires Valid()
      ensures r.Success? ==>
                forall m :: m in r.value <==>
                  m in databaseIndexApi.indexedModels && Meant(query.Ids(), m)
      ensures r.Failure? <==>
                || query.Ids() == []
                || (exists id :: id in query.Ids() && !Known(id))
                || (exists m :: m in databaseIndexApi.indexedModels
                                && Meant(query.Ids(), m) && !databaseIndexApi.Queryable(m, synced))
    {
      r := databaseIndexApi.GetQueryModels(query, synced);
      var indexed, implementers := databaseIndexApi.indexedModels, databaseIndexApi.interfacesModels;
      QueryFailsOnUnknown(indexed, implementers, query.Ids());
      forall m | m in indexed
        ensures Selected(indexed, implementers, query.Ids(), m) <==> Meant(query.Ids(), m)
      {
        QueryReadsImplementers(net, indexed, implementers, query.Ids(), m);
      }
    }
  }

  /** One more than the rank of any of them. */
  ghost function RankBound(ids: seq<ModelId>, rank: ModelId -> nat): (bound: nat)
    ensures forall id :: id in ids ==> rank(id) < bound
  {
    if ids == [] then 0
    else
      var others := RankBound(ids[1..], rank);
      assert ids == [ids[0]] + ids[1..];
      if rank(ids[0]) < others then others else rank(ids[0]) + 1
  }
}
