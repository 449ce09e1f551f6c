/**
 The feed of changed streams: monotone keys, a store ordered by them, and a source that reads on from
 a token (packages/core/src/store/feed-aggregation-store.ts).
 */
module FeedAggregationStore {
  import opened Wrappers
  import opened KeyOrder

  type StreamID = string

  // ---------------------------------------------------------------- numbers as text

  function Digit(n: nat): char
    requires n < 10
  {
    '0' + n as char
  }

  /** `String(n)` */
  function Digits(n: nat): string {
    if n < 10 then [Digit(n)] else Digits(n / 10) + [Digit(n % 10)]
  }

  function PadStart(s: string, width: nat): string
    decreases width - |s|
  {
    if |s| >= width then s else PadStart("0" + s, width)
  }

  /** The key of the counter value `counter` in the millisecond `ms`. */
  function KeyOf(ms: nat, counter: nat): Key {
    Digits(ms) + PadStart(Digits(counter), 6)
  }

  // ---------------------------------------------------------------- monotone keys

  class MonotonicKey {
    var previous: nat
    var counter: nat

    constructor (now: nat)
      ensures previous == now && counter == 0
    {
      previous, counter := now, 0;
    }

    method Next(now: nat) returns (key: Key)
      modifies this
      ensures previous == now
      ensures counter == if now == old(previous) then old(counter) + 1 else 1
      ensures key == KeyOf(previous, counter - 1)
    {
      if previous == now {
        key := Digits(previous) + PadStart(Digits(counter), 6);
        counter := counter + 1;
      } else {
        counter := 1;
        previous := now;
        key := Digits(previous) + "000000";
        assert PadStart(Digits(0), 6) == "000000" by {
          PadZeros();
        }
      }
    }
  }

  lemma PadZeros()
    ensures PadStart(Digits(0), 6) == "000000"
  {
    assert Digits(0) == "0";
    assert PadStart("000000", 6) == "000000";
    assert PadStart("00000", 6) == "000000" by { assert "0" + "00000" == "000000"; }
    assert PadStart("0000", 6) == "000000" by { assert "0" + "0000" == "00000"; }
    assert PadStart("000", 6) == "000000" by { assert "0" + "000" == "0000"; }
    assert PadStart("00", 6) == "000000" by { assert "0" + "00" == "000"; }
    assert PadStart("0", 6) == "000000" by { assert "0" + "0" == "00"; }
  }

  // ---------------------------------------------------------------- the store and its readers

  datatype Entry = Entry(resumeToken: Key, streamID: StreamID)

  class FeedAggregationStore {
    var store: map<Key, StreamID>
    const keyGenerator: MonotonicKey

    constructor (now: nat)
      ensures store == map[] && fresh(keyGenerator)
    {
      store := map[];
      keyGenerator := new MonotonicKey(now);
    }

    method Put(streamId: StreamID, now: nat)
      modifies this, keyGenerator
      ensures keyGenerator.previous == now
      ensures keyGenerator.counter == if now == old(keyGenerator.previous) then old(keyGenerator.counter) + 1 else 1
      ensures store == old(store)[KeyOf(now, keyGenerator.counter - 1) := streamId]
    {
      var key := keyGenerator.Next(now);
      store := store[key := streamId];
    }

    /** Delete entries older than `lessThanMs`; `keys` is what the store finds below the threshold. */
    method DeleteStale(lessThanMs: nat, keys: seq<Key>) returns (n: nat)
      requires forall k :: k in keys <==> k in store && Less(k, Digits(lessThanMs * 1000))
      modifies this
      ensures store == map k | k in old(store) && !Less(k, Digits(lessThanMs * 1000)) :: old(store)[k]
      ensures n == |keys|
    {
      for i := 0 to |keys|
        invariant store == map k | k in old(store) && k !in keys[..i] :: old(store)[k]
      {
        store := store - {keys[i]};
        assert keys[..i + 1] == keys[..i] + [keys[i]];
      }
      assert keys[..|keys|] == keys;
      n := |keys|;
    }
  }

  class StreamIDFeedSource {
    var token: Key
    var enqueued: seq<Entry>

    /** Without a token to resume from, the reader starts at the first key of the millisecond of opening. */
    constructor (token: Option<Key>, created: nat, now: nat)
      ensures this.token == (if token.Some? then token.value else KeyOf(now, 0)) && enqueued == []
    {
      var start: Key;
      if token.Some? {
        start := token.value;
      } else {
        var keyGenerator := new MonotonicKey(created);
        start := keyGenerator.Next(now);
      }
      this.token, enqueued := start, [];
    }

    /** One attempt of `pull`, with the entries that were found above the token. */
    method Pull(entries: seq<Entry>)
      modifies this
      ensures enqueued == old(enqueued) + entries
      ensures token == if entries == [] then old(token) else entries[|entries| - 1].resumeToken
    {
      if |entries| == 0 {
        return;  // wait for a write, then pull again
      }
      for i := 0 to |entries|
        invariant enqueued == old(enqueued) + entries[..i] && token == old(token)
      {
        enqueued := enqueued + [entries[i]];
      }
      assert entries[..|entries|] == entries;
      token := entries[|entries| - 1].resumeToken;
    }
  }
}
