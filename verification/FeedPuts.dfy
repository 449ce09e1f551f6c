/**
 The feed of a store that writes one entry at a time, and of a reader that opens without a token
 (packages/core/src/store/feed-aggregation-store.ts): which writes such a reader never sees.
 */
module FeedPuts {
  import opened Wrappers
  import opened KeyOrder
  import opened FeedAggregationStore
  import opened FeedKeys
  import opened FeedDelivery

  /** The clock does not go back or change its number of digits, and no millisecond has too many keys. */
  ghost predicate WithinLimits(clock: seq<nat>, ms: nat) {
    && NonDecreasing(clock)
    && forall i :: 0 <= i < |clock| ==> SameWidth(clock[i], ms) && CounterAt(clock, i) < MILLION
  }

  /** The millisecond `ms` lies between the first `n` readings and the others. */
  ghost predicate OpensAfter(clock: seq<nat>, n: nat, ms: nat) {
    && n <= |clock|
    && (forall i :: 0 <= i < n ==> clock[i] <= ms)
    && (forall i :: n <= i < |clock| ==> ms <= clock[i])
  }

  /** The first write after opening, when the store has written nothing in that millisecond before. */
  predicate IsFirstOf(clock: seq<nat>, n: nat, ms: nat, i: nat)
    requires i < |clock|
  {
    i == n && clock[i] == ms && (i > 0 ==> clock[i - 1] != ms)
  }

  /** A write after opening is above the starting token unless it is the first of the millisecond of opening. */
  lemma AboveTheStartIff(clock: seq<nat>, n: nat, ms: nat, i: nat)
    requires WithinLimits(clock, ms) && OpensAfter(clock, n, ms) && n <= i < |clock|
    ensures Less(KeyOf(ms, 0), Keys(clock)[i]) <==> !IsFirstOf(clock, n, ms, i)
  {
    KeyOrderIsTimeOrder(ms, 0, clock[i], CounterAt(clock, i));
    if i > n {
      assert ms <= clock[i - 1] <= clock[i];
    }
  }

  /** The keys of the commits among these events, in order. */
  function CommitKeys(events: seq<Event>): seq<Key> {
    if events == [] then []
    else (if events[0].Commit? then [events[0].key] else []) + CommitKeys(events[1..])
  }

  /** Commits that go on with an ascending list of keys are ordered. */
  lemma {:induction false} AscendingCommitsAreOrdered(keys: seq<Key>, n: nat, s: Feed, start: Key, events: seq<Event>)
    requires Ascending(keys) && n + |CommitKeys(events)| <= |keys|
    requires CommitKeys(events) == keys[n..n + |CommitKeys(events)|]
    requires forall k :: k in s.committed ==> k in keys[..n]
    ensures OrderedCommits(s, start, events)
    decreases |events|
  {
    if events != [] {
      var rest := CommitKeys(events[1..]);
      if events[0].Commit? {
        assert CommitKeys(events)[0] == keys[n] && CommitKeys(events)[1..] == rest;
        assert keys[..n + 1] == keys[..n] + [keys[n]];
        AscendingCommitsAreOrdered(keys, n + 1, Next(s, start, events[0]), start, events[1..]);
      } else {
        assert CommitKeys(events) == rest;
        AscendingCommitsAreOrdered(keys, n, Next(s, start, events[0]), start, events[1..]);
      }
    }
  }

  lemma {:induction false} CommitsAreCommitted(s: Feed, start: Key, events: seq<Event>, t: Feed)
    requires Runs(s, start, events, t)
    ensures forall k :: k in t.committed <==> k in s.committed || k in CommitKeys(events)
    decreases |events|
  {
    if events != [] {
      CommitsAreCommitted(Next(s, start, events[0]), start, events[1..], t);
    }
  }

  /**
   Main result: a reader opens in the millisecond `ms`, after the first `n` writes of a store that commits
   each write before the next takes its key. It receives everything above its starting token once and in
   order. When it finds nothing more, it has received each write since it opened, except the first of the
   millisecond of opening: that one has the very key the reader starts at.
   */
  lemma FeedOfPuts(clock: seq<nat>, n: nat, ms: nat, stored: map<Key, StreamID>, events: seq<Event>, t: Feed)
    requires WithinLimits(clock, ms) && OpensAfter(clock, n, ms)
    requires forall k :: k in stored ==> k in Keys(clock)[..n]
    requires CommitKeys(events) == Keys(clock)[n..]
    requires Runs(Initial(stored, KeyOf(ms, 0)), KeyOf(ms, 0), events, t)
    ensures IsListing(t.committed, {}, KeyOf(ms, 0), t.token, t.delivered)
    ensures forall demand, i :: Enabled(t, Pull(demand, [])) && n <= i < |clock| ==>
              (Keys(clock)[i] in KeysOf(t.delivered) <==> !IsFirstOf(clock, n, ms, i))
  {
    var keys, start := Keys(clock), KeyOf(ms, 0);
    PutsAreOrdered(clock, n, ms, stored, events);
    OrderedFeedIsComplete(stored, start, events, t);
    InitialInv(stored, start);
    OrderedCommitsAreNotLate(Initial(stored, start), start, events, t);
    CommitsAreCommitted(Initial(stored, start), start, events, t);
    forall demand, i | Enabled(t, Pull(demand, [])) && n <= i < |clock|
      ensures keys[i] in KeysOf(t.delivered) <==> !IsFirstOf(clock, n, ms, i)
    {
      CaughtUp(stored, start, events, t, demand);
      AboveTheStartIff(clock, n, ms, i);
      assert keys[n..][i - n] == keys[i];
    }
  }

  lemma PutsAreOrdered(clock: seq<nat>, n: nat, ms: nat, stored: map<Key, StreamID>, events: seq<Event>)
    requires WithinLimits(clock, ms) && n <= |clock|
    requires forall k :: k in stored ==> k in Keys(clock)[..n]
    requires CommitKeys(events) == Keys(clock)[n..]
    ensures OrderedCommits(Initial(stored, KeyOf(ms, 0)), KeyOf(ms, 0), events)
  {
    KeysAscendIff(clock);
    AscendingCommitsAreOrdered(Keys(clock), n, Initial(stored, KeyOf(ms, 0)), KeyOf(ms, 0), events);
  }

  /** The first write of the millisecond of opening is committed, is not late, and is never delivered. */
  lemma FirstPutIsNeverDelivered(ms: nat, streamID: StreamID, events: seq<Event>, t: Feed)
    requires Runs(Initial(map[], KeyOf(ms, 0)), KeyOf(ms, 0), [Commit(KeyOf(ms, 0), streamID)] + events, t)
    ensures Keys([ms]) == [KeyOf(ms, 0)]
    ensures KeyOf(ms, 0) in t.committed && KeyOf(ms, 0) !in KeysOf(t.delivered)
  {
    var all := [Commit(KeyOf(ms, 0), streamID)] + events;
    LessIrreflexive(KeyOf(ms, 0));
    OnlyAboveTheStart(map[], KeyOf(ms, 0), all, t, KeyOf(ms, 0));
    CommitsAreCommitted(Initial(map[], KeyOf(ms, 0)), KeyOf(ms, 0), all, t);
  }

  /** The objects get into that state: the write takes the key at which the reader has just started. */
  method OpenThenPut(target: FeedAggregationStore, streamID: StreamID, created: nat, ms: nat)
    returns (source: StreamIDFeedSource)
    requires target.keyGenerator.previous != ms
    modifies target, target.keyGenerator
    ensures source.token == KeyOf(ms, 0) && source.enqueued == []
    ensures target.store == old(target.store)[source.token := streamID]
  {
    source := new StreamIDFeedSource(None, created, ms);
    target.Put(streamID, ms);
  }
}
