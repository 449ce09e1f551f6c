/**
 What a reader of the feed receives while entries are written and cleaned up
 (packages/core/src/store/feed-aggregation-store.ts). A write takes its key when it is called and is
 committed later, so commits may come in another order than keys.
 */
module FeedDelivery {
  import opened Wrappers
  import opened KeyOrder
  import opened FeedAggregationStore

  /**
   The store, everything ever committed, the reader's token and what it received. A late key was
   committed above the starting token, but not above the token the reader had reached by then.
   */
  datatype Feed = Feed(
    store: map<Key, StreamID>,
    committed: map<Key, StreamID>,
    token: Key,
    delivered: seq<Entry>,
    late: set<Key>)

  datatype Event =
    | Commit(key: Key, streamID: StreamID)
    | Pull(demand: nat, entries: seq<Entry>)
    | DeleteStale(keys: set<Key>)

  function KeysOf(entries: seq<Entry>): seq<Key> {
    seq(|entries|, i requires 0 <= i < |entries| => entries[i].resumeToken)
  }

  function Initial(stored: map<Key, StreamID>, start: Key): Feed {
    Feed(stored, stored, start, [], {})
  }

  /** Keys are not reused, a pull finds what is stored, and cleaning up spares undelivered entries. */
  ghost predicate Enabled(s: Feed, e: Event) {
    match e
    case Commit(key, _) => key !in s.committed
    case Pull(demand, entries) =>
      && demand > 0
      && IsFind(s.store.Keys, Some(s.token), demand, KeysOf(entries))
      && forall i :: 0 <= i < |entries| ==> Holds(s.store, entries[i])
    case DeleteStale(keys) => forall k :: k in keys ==> AtMost(k, s.token)
  }

  predicate Holds(m: map<Key, StreamID>, entry: Entry) {
    entry.resumeToken in m && m[entry.resumeToken] == entry.streamID
  }

  function Next(s: Feed, start: Key, e: Event): Feed {
    match e
    case Commit(key, streamID) =>
      s.(store := s.store[key := streamID], committed := s.committed[key := streamID],
         late := if Less(start, key) && !Less(s.token, key) then s.late + {key} else s.late)
    case Pull(_, entries) =>
      if entries == [] then s
      else s.(delivered := s.delivered + entries, token := entries[|entries| - 1].resumeToken)
    case DeleteStale(keys) => s.(store := s.store - keys)
  }

  predicate Within(lo: Key, k: Key, hi: Key) {
    Less(lo, k) && AtMost(k, hi)
  }

  /** `list` is the entries of `m` above `lo` and up to `hi`, except those in `late`, in order of their keys. */
  ghost predicate IsListing(m: map<Key, StreamID>, late: set<Key>, lo: Key, hi: Key, list: seq<Entry>) {
    && Ascending(KeysOf(list))
    && (forall i :: 0 <= i < |list| ==>
          Holds(m, list[i]) && list[i].resumeToken !in late && Within(lo, list[i].resumeToken, hi))
    && (forall k :: k in m && k !in late && Within(lo, k, hi) ==> k in KeysOf(list))
  }

  ghost predicate Inv(s: Feed, start: Key) {
    && AtMost(start, s.token)
    && (s.token == start || s.token in s.committed)
    && (forall k :: k in s.late ==> AtMost(k, s.token))
    && (forall k :: k in s.store ==> k in s.committed && s.store[k] == s.committed[k])
    && (forall k :: k in s.committed && Less(s.token, k) ==> k in s.store)
    && IsListing(s.committed, s.late, start, s.token, s.delivered)
  }

  // ---------------------------------------------------------------- listings

  lemma AtMostThenLess(a: Key, b: Key, c: Key)
    requires AtMost(a, b) && Less(b, c)
    ensures Less(a, c)
  {
    if a != b {
      LessTransitive(a, b, c);
    }
  }

  lemma LessThenAtMost(a: Key, b: Key, c: Key)
    requires Less(a, b) && AtMost(b, c)
    ensures Less(a, c)
  {
    if b != c {
      LessTransitive(a, b, c);
    }
  }

  /** Listings of adjoining ranges join to the listing of the whole range. */
  lemma ListingsJoin(m: map<Key, StreamID>, late: set<Key>, lo: Key, mid: Key, hi: Key, a: seq<Entry>, b: seq<Entry>)
    requires IsListing(m, late, lo, mid, a) && IsListing(m, late, mid, hi, b)
    requires AtMost(lo, mid) && AtMost(mid, hi)
    ensures IsListing(m, late, lo, hi, a + b)
  {
    var ka, kb := KeysOf(a), KeysOf(b);
    assert KeysOf(a + b) == ka + kb;
    forall i, j | 0 <= i < |ka| && 0 <= j < |kb| ensures Less(ka[i], kb[j]) {
      AtMostThenLess(ka[i], mid, kb[j]);
    }
    forall i | 0 <= i < |a| ensures AtMost(ka[i], hi) {
      if mid != hi {
        AtMostThenLess(ka[i], mid, hi);
      }
    }
    forall j | 0 <= j < |b| ensures Less(lo, kb[j]) {
      AtMostThenLess(lo, mid, kb[j]);
    }
    forall k | k in m && k !in late && Within(lo, k, hi) ensures k in ka + kb {
      LessTotal(mid, k);
      if Less(mid, k) {
        assert Within(mid, k, hi);
      } else {
        assert Within(lo, k, mid);
      }
    }
  }

  // ---------------------------------------------------------------- every step keeps the invariant

  lemma CommitKeepsInv(s: Feed, start: Key, key: Key, streamID: StreamID)
    requires Inv(s, start) && Enabled(s, Commit(key, streamID))
    ensures Inv(Next(s, start, Commit(key, streamID)), start)
  {
    var t := Next(s, start, Commit(key, streamID));
    LessTotal(s.token, key);
    if Less(s.token, key) {
      forall hi | hi == s.token ensures !AtMost(key, hi) {
        if AtMost(key, hi) {
          AtMostThenLess(key, hi, key);
          LessIrreflexive(key);
        }
      }
    }
    forall k | k in t.committed && k !in t.late && Within(start, k, t.token) ensures k in KeysOf(t.delivered) {
      assert k != key;
    }
  }

  /** A non-empty batch lists everything that was committed from the token to its last key. */
  lemma BatchIsListing(s: Feed, start: Key, demand: nat, entries: seq<Entry>)
    requires Inv(s, start) && Enabled(s, Pull(demand, entries)) && entries != []
    ensures var last := entries[|entries| - 1].resumeToken;
      IsListing(s.committed, s.late, s.token, last, entries) && Less(s.token, last)
  {
    var keys := KeysOf(entries);
    var last := keys[|keys| - 1];
    forall i | 0 <= i < |entries|
      ensures Holds(s.committed, entries[i])
      ensures Within(s.token, entries[i].resumeToken, last) && entries[i].resumeToken !in s.late
    {
      assert keys[i] == entries[i].resumeToken && Holds(s.store, entries[i]);
      if keys[i] in s.late {
        AtMostThenLess(keys[i], s.token, keys[i]);
        LessIrreflexive(keys[i]);
      }
    }
    forall k | k in s.committed && k !in s.late && Within(s.token, k, last) ensures k in keys {
      assert k in s.store;
      if k !in keys {
        assert Less(last, k);
        LessThenAtMost(last, k, last);
        LessIrreflexive(last);
      }
    }
  }

  lemma PullKeepsInv(s: Feed, start: Key, demand: nat, entries: seq<Entry>)
    requires Inv(s, start) && Enabled(s, Pull(demand, entries))
    ensures Inv(Next(s, start, Pull(demand, entries)), start)
  {
    if entries != [] {
      var last := entries[|entries| - 1].resumeToken;
      BatchIsListing(s, start, demand, entries);
      ListingsJoin(s.committed, s.late, start, s.token, last, s.delivered, entries);
      TokenMovesUp(s, start, last);
      assert KeysOf(entries)[|entries| - 1] == last && last in s.store;
    }
  }

  lemma TokenMovesUp(s: Feed, start: Key, last: Key)
    requires Inv(s, start) && Less(s.token, last)
    ensures AtMost(start, last) && forall k :: k in s.late ==> AtMost(k, last)
    ensures forall k :: k in s.committed && Less(last, k) ==> k in s.store
  {
    AtMostThenLess(start, s.token, last);
    forall k | k in s.late ensures AtMost(k, last) {
      AtMostThenLess(k, s.token, last);
    }
    forall k | k in s.committed && Less(last, k) ensures k in s.store {
      LessTransitive(s.token, last, k);
    }
  }

  lemma DeleteKeepsInv(s: Feed, start: Key, keys: set<Key>)
    requires Inv(s, start) && Enabled(s, DeleteStale(keys))
    ensures Inv(Next(s, start, DeleteStale(keys)), start)
  {
    forall k | k in s.committed && Less(s.token, k) ensures k !in keys {
      if k in keys {
        AtMostThenLess(k, s.token, k);
        LessIrreflexive(k);
      }
    }
  }

  lemma StepKeepsInv(s: Feed, start: Key, e: Event)
    requires Inv(s, start) && Enabled(s, e)
    ensures Inv(Next(s, start, e), start)
  {
    match e
    case Commit(key, streamID) => CommitKeepsInv(s, start, key, streamID);
    case Pull(demand, entries) => PullKeepsInv(s, start, demand, entries);
    case DeleteStale(keys) => DeleteKeepsInv(s, start, keys);
  }

  lemma InitialInv(stored: map<Key, StreamID>, start: Key)
    ensures Inv(Initial(stored, start), start)
  {
    forall k | k in stored && Within(start, k, start) ensures false {
      LessThenAtMost(start, k, start);
      LessIrreflexive(start);
    }
  }

  // ---------------------------------------------------------------- the objects make these steps

  method PullInto(source: StreamIDFeedSource, entries: seq<Entry>, ghost s: Feed, ghost start: Key, ghost demand: nat)
    returns (ghost t: Feed)
    requires Enabled(s, Pull(demand, entries))
    requires source.token == s.token && source.enqueued == s.delivered
    modifies source
    ensures t == Next(s, start, Pull(demand, entries))
    ensures source.token == t.token && source.enqueued == t.delivered
  {
    t := Next(s, start, Pull(demand, entries));
    source.Pull(entries);
    assert s.delivered + [] == s.delivered;
  }

  method PutInto(target: FeedAggregationStore, streamID: StreamID, now: nat, ghost s: Feed, ghost start: Key)
    returns (ghost key: Key, ghost t: Feed)
    requires target.store == s.store
    requires KeyOf(now, if now == target.keyGenerator.previous then target.keyGenerator.counter else 0) !in s.committed
    modifies target, target.keyGenerator
    ensures key == KeyOf(now, if now == old(target.keyGenerator.previous) then old(target.keyGenerator.counter) else 0)
    ensures Enabled(s, Commit(key, streamID)) && t == Next(s, start, Commit(key, streamID))
    ensures target.store == t.store
  {
    key := KeyOf(now, if now == target.keyGenerator.previous then target.keyGenerator.counter else 0);
    t := Next(s, start, Commit(key, streamID));
    target.Put(streamID, now);
  }

  method DeleteStaleFrom(target: FeedAggregationStore, lessThanMs: nat, keys: seq<Key>, ghost s: Feed, ghost start: Key)
    returns (ghost t: Feed)
    requires target.store == s.store
    requires forall k :: k in keys <==> k in s.store && Less(k, Digits(lessThanMs * 1000))
    requires forall k :: k in keys ==> AtMost(k, s.token)
    modifies target
    ensures Enabled(s, DeleteStale(set k | k in keys)) && t == Next(s, start, DeleteStale(set k | k in keys))
    ensures target.store == t.store
  {
    t := Next(s, start, DeleteStale(set k | k in keys));
    var n := target.DeleteStale(lessThanMs, keys);
    assert target.store.Keys == t.store.Keys;
  }

  // ---------------------------------------------------------------- whole runs

  ghost predicate Runs(s: Feed, start: Key, events: seq<Event>, t: Feed)
    decreases |events|
  {
    if events == [] then s == t
    else Enabled(s, events[0]) && Runs(Next(s, start, events[0]), start, events[1..], t)
  }

  lemma {:induction false} RunKeepsInv(s: Feed, start: Key, events: seq<Event>, t: Feed)
    requires Inv(s, start) && Runs(s, start, events, t)
    ensures Inv(t, start)
    decreases |events|
  {
    if events != [] {
      StepKeepsInv(s, start, events[0]);
      RunKeepsInv(Next(s, start, events[0]), start, events[1..], t);
    }
  }

  /**
   Main result: in every run the reader has received, once each and in the order of their keys, exactly
   the entries from its starting token to its present one, save the late ones.
   */
  lemma DeliveryIsExact(stored: map<Key, StreamID>, start: Key, events: seq<Event>, t: Feed)
    requires Runs(Initial(stored, start), start, events, t)
    ensures IsListing(t.committed, t.late, start, t.token, t.delivered)
    ensures (forall k :: k in t.committed && Within(start, k, t.token) ==> k in KeysOf(t.delivered))
       <==> (forall k :: k in t.committed && Within(start, k, t.token) ==> k !in t.late)
  {
    InitialInv(stored, start);
    RunKeepsInv(Initial(stored, start), start, events, t);
    forall k | k in KeysOf(t.delivered) ensures k !in t.late {
      var i :| 0 <= i < |t.delivered| && KeysOf(t.delivered)[i] == k;
      assert t.delivered[i].resumeToken == k;
    }
  }

  /** No run delivers an entry whose key is not above the starting token, whenever it is written. */
  lemma OnlyAboveTheStart(stored: map<Key, StreamID>, start: Key, events: seq<Event>, t: Feed, key: Key)
    requires Runs(Initial(stored, start), start, events, t)
    requires !Less(start, key)
    ensures key !in KeysOf(t.delivered)
  {
    DeliveryIsExact(stored, start, events, t);
    forall i | 0 <= i < |t.delivered| ensures KeysOf(t.delivered)[i] != key {
      assert Within(start, t.delivered[i].resumeToken, t.token);
    }
  }

  /** A reader that finds nothing more has received exactly what lies above its start and was not late. */
  lemma CaughtUp(stored: map<Key, StreamID>, start: Key, events: seq<Event>, t: Feed, demand: nat)
    requires Runs(Initial(stored, start), start, events, t) && Enabled(t, Pull(demand, []))
    ensures forall k :: k in t.committed ==> (k in KeysOf(t.delivered) <==> Less(start, k) && k !in t.late)
  {
    InitialInv(stored, start);
    RunKeepsInv(Initial(stored, start), start, events, t);
    forall k | k in t.committed ensures k in KeysOf(t.delivered) <==> Less(start, k) && k !in t.late {
      if k in KeysOf(t.delivered) {
        var i :| 0 <= i < |t.delivered| && KeysOf(t.delivered)[i] == k;
        assert Within(start, t.delivered[i].resumeToken, t.token);
      }
      LessTotal(t.token, k);
      assert !Less(t.token, k);
    }
  }

  /** Commits in the order of their keys: each is above all earlier commits. */
  ghost predicate OrderedCommits(s: Feed, start: Key, events: seq<Event>)
    decreases |events|
  {
    events == [] ||
    (&& (events[0].Commit? ==> forall k :: k in s.committed ==> Less(k, events[0].key))
     && OrderedCommits(Next(s, start, events[0]), start, events[1..]))
  }

  lemma {:induction false} OrderedCommitsAreNotLate(s: Feed, start: Key, events: seq<Event>, t: Feed)
    requires Inv(s, start) && Runs(s, start, events, t) && OrderedCommits(s, start, events) && s.late == {}
    ensures t.late == {}
    decreases |events|
  {
    if events != [] {
      StepKeepsInv(s, start, events[0]);
      OrderedCommitsAreNotLate(Next(s, start, events[0]), start, events[1..], t);
    }
  }

  /**
   When every write commits before the next takes its key, nothing above the starting token is skipped or
   repeated.
   */
  lemma OrderedFeedIsComplete(stored: map<Key, StreamID>, start: Key, events: seq<Event>, t: Feed)
    requires Runs(Initial(stored, start), start, events, t)
    requires OrderedCommits(Initial(stored, start), start, events)
    ensures IsListing(t.committed, {}, start, t.token, t.delivered)
  {
    InitialInv(stored, start);
    OrderedCommitsAreNotLate(Initial(stored, start), start, events, t);
    DeliveryIsExact(stored, start, events, t);
  }

  /** Two overlapping writes may commit in the other order; the reader then skips the smaller key. */
  lemma OverlappingWritesMaySkip()
    ensures exists events, t ::
      && Runs(Initial(map[], "0"), "0", events, t)
      && t.committed == map["2" := "b", "1" := "a"] && Within("0", "1", t.token)
      && t.delivered == [Entry("2", "b")]
  {
    var s0 := Initial(map[], "0");
    var e0, e1, e2 := Commit("2", "b"), Pull(1, [Entry("2", "b")]), Commit("1", "a");
    var s1 := Next(s0, "0", e0);
    var s2 := Next(s1, "0", e1);
    var s3 := Next(s2, "0", e2);
    assert Enabled(s0, e0);
    assert KeysOf([Entry("2", "b")]) == ["2"] && s1.store.Keys == {"2"} && Less("0", "2");
    assert Enabled(s1, e1);
    assert Enabled(s2, e2);
    assert Runs(s3, "0", [], s3);
    assert [e2][1..] == [] && Runs(s2, "0", [e2], s3);
    assert [e1, e2][1..] == [e2] && Runs(s1, "0", [e1, e2], s3);
    assert [e0, e1, e2][1..] == [e1, e2] && Runs(s0, "0", [e0, e1, e2], s3);
    assert Less("0", "1") && Less("1", "2") && s3.token == "2";
    assert s3.delivered == [] + [Entry("2", "b")] == [Entry("2", "b")];
  }

  lemma PrefixAscends(keys: seq<Key>, i: nat)
    requires Ascending(keys) && i < |keys|
    ensures Ascending(keys[..i + 1]) && forall j :: 0 <= j <= i ==> AtMost(keys[j], keys[i])
  {
  }

  lemma PrefixIsListing(m: map<Key, StreamID>, start: Key, token: Key, list: seq<Entry>, i: nat)
    requires IsListing(m, {}, start, token, list) && i < |list|
    ensures IsListing(m, {}, start, list[i].resumeToken, list[..i + 1]) && Less(start, list[i].resumeToken)
  {
    var keys, r := KeysOf(list), list[i].resumeToken;
    assert keys[i] == r && KeysOf(list[..i + 1]) == keys[..i + 1];
    PrefixAscends(keys, i);
    assert forall j :: 0 <= j <= i ==> keys[j] == list[j].resumeToken;
    forall k | k in m && Within(start, k, r) ensures k in keys[..i + 1] {
      KeyUpTo(keys, start, token, i, k);
    }
  }

  lemma KeyUpTo(keys: seq<Key>, start: Key, token: Key, i: nat, k: Key)
    requires Ascending(keys) && i < |keys| && AtMost(keys[i], token) && Within(start, k, keys[i])
    requires Within(start, k, token) ==> k in keys
    ensures k in keys[..i + 1]
  {
    if k != keys[i] {
      LessThenAtMost(k, keys[i], token);
    }
    var j :| 0 <= j < |keys| && keys[j] == k;
    if j > i {
      LessThenAtMost(keys[i], k, keys[i]);
      LessIrreflexive(keys[i]);
    }
    assert keys[..i + 1][j] == k;
  }

  /**
   Reading on from any token that was delivered: what was received up to it, followed by what a new
   reader receives from it, is the listing that one reader would have received.
   */
  lemma ResumingNeitherRepeatsNorSkips(m: map<Key, StreamID>, start: Key, token: Key, first: seq<Entry>, i: nat,
                                       resumed: Key, second: seq<Entry>)
    requires IsListing(m, {}, start, token, first) && i < |first|
    requires AtMost(first[i].resumeToken, resumed)
    requires IsListing(m, {}, first[i].resumeToken, resumed, second)
    ensures IsListing(m, {}, start, resumed, first[..i + 1] + second)
  {
    PrefixIsListing(m, start, token, first, i);
    ListingsJoin(m, {}, start, first[i].resumeToken, resumed, first[..i + 1], second);
  }
}
