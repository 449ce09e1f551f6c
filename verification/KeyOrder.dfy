/**
 Key-value stores that keep their keys in lexicographic order, and what a range query returns
 (packages/core/src/store/level-kv-store.ts).
 */
module KeyOrder {
  import opened Wrappers

  type Key = string

  /** Lexicographic order; a proper prefix comes first. */
  predicate Less(a: Key, b: Key) {
    b != [] && (a == [] || a[0] < b[0] || (a[0] == b[0] && Less(a[1..], b[1..])))
  }

  predicate AtMost(a: Key, b: Key) {
    a == b || Less(a, b)
  }

  lemma {:induction false} LessIrreflexive(a: Key)
    ensures !Less(a, a)
  {
    if a != [] {
      LessIrreflexive(a[1..]);
    }
  }

  lemma {:induction false} LessTransitive(a: Key, b: Key, c: Key)
    requires Less(a, b) && Less(b, c)
    ensures Less(a, c)
  {
    if a != [] && a[0] == b[0] == c[0] {
      LessTransitive(a[1..], b[1..], c[1..]);
    }
  }

  lemma {:induction false} LessTotal(a: Key, b: Key)
    ensures Less(a, b) || a == b || Less(b, a)
  {
    if a != [] && b != [] && a[0] == b[0] {
      LessTotal(a[1..], b[1..]);
      if a[1..] == b[1..] {
        assert a == [a[0]] + a[1..] && b == [b[0]] + b[1..];
      }
    }
  }

  lemma {:induction false} LessCommonPrefix(p: Key, a: Key, b: Key)
    ensures Less(p + a, p + b) <==> Less(a, b)
  {
    if p == [] {
      assert p + a == a && p + b == b;
    } else {
      LessCommonPrefix(p[1..], a, b);
      assert (p + a)[1..] == p[1..] + a && (p + b)[1..] == p[1..] + b;
    }
  }

  lemma {:induction false} LessByPrefix(a: Key, b: Key, x: Key, y: Key)
    requires |a| == |b| && Less(a, b)
    ensures Less(a + x, b + y)
  {
    if a[0] == b[0] {
      LessByPrefix(a[1..], b[1..], x, y);
      assert (a + x)[1..] == a[1..] + x && (b + y)[1..] == b[1..] + y;
    }
  }

  ghost predicate Ascending(keys: seq<Key>) {
    forall i, j :: 0 <= i < j < |keys| ==> Less(keys[i], keys[j])
  }

  predicate Above(gt: Option<Key>, k: Key) {
    gt.Some? ==> Less(gt.value, k)
  }

  /** `batch` is what `find({ limit, gt })` returns when the store holds `keys`. */
  ghost predicate IsFind(keys: set<Key>, gt: Option<Key>, limit: nat, batch: seq<Key>) {
    && |batch| <= limit
    && Ascending(batch)
    && (forall i :: 0 <= i < |batch| ==> batch[i] in keys && Above(gt, batch[i]))
    && (forall k :: k in keys && Above(gt, k) ==>
          k in batch || (|batch| == limit && forall i :: 0 <= i < |batch| ==> Less(batch[i], k)))
  }
}
