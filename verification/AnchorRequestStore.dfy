/**
 The endless scan over the stored anchor requests
 (packages/core/src/store/anchor-request-store.ts), while entries come and go.
 */
module AnchorRequestStore {
  import opened Wrappers
  import opened KeyOrder

  /** One query of the scan: the keys in the store at that moment, and the batch they gave. */
  datatype Round = Round(keys: set<Key>, batch: seq<Key>)

  function LastKey(batch: seq<Key>): Key
    requires batch != []
  {
    batch[|batch| - 1]
  }

  /** The queries from `gt` to the empty batch that ends the sweep. */
  ghost predicate IsSweep(batchSize: nat, gt: Option<Key>, rounds: seq<Round>)
    decreases |rounds|
  {
    && rounds != []
    && IsFind(rounds[0].keys, gt, batchSize, rounds[0].batch)
    && if rounds[0].batch == [] then |rounds| == 1
       else IsSweep(batchSize, Some(LastKey(rounds[0].batch)), rounds[1..])
  }

  function Yields(rounds: seq<Round>): seq<Key> {
    if rounds == [] then [] else rounds[0].batch + Yields(rounds[1..])
  }

  // ---------------------------------------------------------------- the generator

  class InfiniteList {
    const batchSize: nat
    var gt: Option<Key>
    var numEntries: nat
    var yielded: seq<Key>  // what the consumer received so far

    constructor (batchSize: nat)
      ensures this.batchSize == batchSize && gt == None && numEntries == 0 && yielded == []
    {
      this.batchSize, gt, numEntries, yielded := batchSize, None, 0, [];
    }

    /** One iteration of the loop, once the batch has arrived. */
    method Iterate(batch: seq<Key>)
      modifies this
      ensures yielded == old(yielded) + batch
      ensures gt == if batch == [] then None else Some(LastKey(batch))
      ensures numEntries == if batch == [] then 0 else old(numEntries) + |batch|
    {
      if |batch| > 0 {
        gt := Some(batch[|batch| - 1]);
        for k := 0 to |batch|
          invariant gt == Some(LastKey(batch))
          invariant yielded == old(yielded) + batch[..k] && numEntries == old(numEntries) + k
        {
          numEntries := numEntries + 1;
          yielded := yielded + [batch[k]];
        }
        assert batch[..|batch|] == batch;
      } else {
        // Restarting loop
        gt := None;
        numEntries := 0;
      }
    }

    /** A whole sweep over a store that changes between the queries. */
    method Sweep(rounds: seq<Round>)
      requires IsSweep(batchSize, gt, rounds)
      modifies this
      ensures yielded == old(yielded) + Yields(rounds)
      ensures gt == None && numEntries == 0
    {
      ghost var before := yielded;
      var k := 0;
      while k < |rounds|
        invariant k <= |rounds|
        invariant k < |rounds| ==> IsSweep(batchSize, gt, rounds[k..])
        invariant k == |rounds| ==> gt == None && numEntries == 0
        invariant yielded == before + Yields(rounds[..k])
      {
        SweepGoesOn(batchSize, gt, rounds, k);
        Iterate(rounds[k].batch);
        k := k + 1;
      }
      assert rounds[..k] == rounds;
    }
  }

  /** What the query at `k` does to a sweep and to what it has yielded. */
  lemma SweepGoesOn(batchSize: nat, gt: Option<Key>, rounds: seq<Round>, k: nat)
    requires k < |rounds| && IsSweep(batchSize, gt, rounds[k..])
    ensures Yields(rounds[..k + 1]) == Yields(rounds[..k]) + rounds[k].batch
    ensures if rounds[k].batch == [] then k + 1 == |rounds|
            else k + 1 < |rounds| && IsSweep(batchSize, Some(LastKey(rounds[k].batch)), rounds[k + 1..])
  {
    assert rounds[k..][0] == rounds[k] && rounds[k..][1..] == rounds[k + 1..];
    assert rounds[..k + 1] == rounds[..k] + [rounds[k]];
    YieldsAppend(rounds[..k], rounds[k]);
  }

  lemma {:induction false} YieldsAppend(rounds: seq<Round>, round: Round)
    ensures Yields(rounds + [round]) == Yields(rounds) + round.batch
  {
    if rounds == [] {
      assert [round][1..] == [] && rounds + [round] == [round];
    } else {
      YieldsAppend(rounds[1..], round);
      assert (rounds + [round])[1..] == rounds[1..] + [round];
    }
  }

  // ---------------------------------------------------------------- fairness

  lemma {:induction false} SweepAscends(batchSize: nat, gt: Option<Key>, rounds: seq<Round>)
    requires IsSweep(batchSize, gt, rounds)
    ensures Ascending(Yields(rounds))
    ensures forall i :: 0 <= i < |Yields(rounds)| ==> Above(gt, Yields(rounds)[i])
    decreases |rounds|
  {
    var batch := rounds[0].batch;
    if batch == [] {
      assert Yields(rounds[1..]) == [];
    } else {
      var last := Some(LastKey(batch));
      var rest := Yields(rounds[1..]);
      SweepAscends(batchSize, last, rounds[1..]);
      forall i, j | 0 <= i < |batch| && 0 <= j < |rest| ensures Less(batch[i], rest[j]) && Above(gt, rest[j]) {
        assert Above(last, rest[j]);
        if i < |batch| - 1 {
          LessTransitive(batch[i], last.value, rest[j]);
        }
        if gt.Some? {
          LessTransitive(gt.value, last.value, rest[j]);
        }
      }
    }
  }

  lemma {:induction false} SweepIsComplete(batchSize: nat, gt: Option<Key>, rounds: seq<Round>, k: Key)
    requires batchSize > 0 && IsSweep(batchSize, gt, rounds)
    requires Above(gt, k) && forall i :: 0 <= i < |rounds| ==> k in rounds[i].keys
    ensures k in Yields(rounds)
    decreases |rounds|
  {
    var batch := rounds[0].batch;
    if k !in batch {
      assert |batch| == batchSize;
      assert Less(LastKey(batch), k);
      SweepIsComplete(batchSize, Some(LastKey(batch)), rounds[1..], k);
    }
  }

  /**
   Main result: whatever is inserted and removed during a sweep, the keys come in ascending order, and
   a key that is there throughout comes exactly once.
   */
  lemma SweepIsFair(batchSize: nat, rounds: seq<Round>, k: Key)
    requires batchSize > 0 && IsSweep(batchSize, None, rounds)
    requires forall i :: 0 <= i < |rounds| ==> k in rounds[i].keys
    ensures Ascending(Yields(rounds))
    ensures exists i :: 0 <= i < |Yields(rounds)| && Yields(rounds)[i] == k
              && forall j :: 0 <= j < |Yields(rounds)| && Yields(rounds)[j] == k ==> j == i
  {
    SweepAscends(batchSize, None, rounds);
    SweepIsComplete(batchSize, None, rounds, k);
    LessIrreflexive(k);
    var i :| 0 <= i < |Yields(rounds)| && Yields(rounds)[i] == k;
  }

  /** Nothing is yielded that was never stored. */
  lemma {:induction false} SweepYieldsStoredKeys(batchSize: nat, gt: Option<Key>, rounds: seq<Round>, k: Key)
    requires IsSweep(batchSize, gt, rounds) && k in Yields(rounds)
    ensures exists i :: 0 <= i < |rounds| && k in rounds[i].keys
    decreases |rounds|
  {
    if k in rounds[0].batch {
      assert k in rounds[0].keys;
    } else {
      SweepYieldsStoredKeys(batchSize, Some(LastKey(rounds[0].batch)), rounds[1..], k);
      var i :| 0 <= i < |rounds[1..]| && k in rounds[1..][i].keys;
      assert k in rounds[i + 1].keys;
    }
  }
}
