/**
 When an accepted number schema has only instances of the interface: the check compares constants and
 bounds but never `enum`, so the admitted numbers have to be listed anyway.
 */
module InterfaceNumbers {
  import opened Wrappers
  import opened JsonSchema
  import opened InterfacesUtils

  predicate Admits(integer: bool, rules: NumberRules, n: real) {
    (integer ==> IsInteger(n)) && NumberValid(rules, n)
  }

  /** The larger of the lower bounds. */
  function Lower(r: NumberRules): Option<real> {
    if r.minimum.None? then r.exclusiveMinimum
    else if r.exclusiveMinimum.None? || r.exclusiveMinimum.value < r.minimum.value then r.minimum
    else r.exclusiveMinimum
  }

  /** The smaller of the upper bounds. */
  function Upper(r: NumberRules): Option<real> {
    if r.maximum.None? then r.exclusiveMaximum
    else if r.exclusiveMaximum.None? || r.maximum.value < r.exclusiveMaximum.value then r.maximum
    else r.exclusiveMaximum
  }

  /**
   Every number that the implementation admits is one of `values`: its constant, the members of its own
   enumeration, the integers between its bounds, or the one point that its bounds leave.
   */
  predicate ListsAll(values: seq<real>, integer: bool, i: NumberRules) {
    if i.constant.Some? then Admits(integer, i, i.constant.value) ==> i.constant.value in values
    else if i.enumeration.Some? then forall n :: n in i.enumeration.value && Admits(integer, i, n) ==> n in values
    else if Lower(i).None? || Upper(i).None? then false
    else if integer then
      forall k: int :: Lower(i).value.Floor <= k <= Upper(i).value.Floor ==> ListsInteger(values, i, k)
    else Lower(i).value >= Upper(i).value && (Admits(false, i, Lower(i).value) ==> Lower(i).value in values)
  }

  predicate ListsInteger(values: seq<real>, i: NumberRules, k: int) {
    Admits(true, i, k as real) ==> k as real in values
  }

  predicate EnumImplemented(integer: bool, e: NumberRules, i: NumberRules) {
    e.enumeration.Some? ==> ListsAll(e.enumeration.value, integer, i)
  }

  /** Between two different numbers there is one that a finite list misses. */
  lemma {:induction false} Gap(low: real, high: real, values: seq<real>) returns (n: real)
    requires low < high
    ensures low < n < high && n !in values
    decreases |values|
  {
    if values == [] {
      n := (low + high) / 2.0;
    } else {
      n := Gap(low, if low < values[0] < high then values[0] else high, values[1..]);
    }
  }

  /** Arbitrarily far up, or down, there is an integer that a finite list misses. */
  lemma {:induction false} FarInteger(bound: int, up: bool, values: seq<real>) returns (k: int)
    ensures (if up then k > bound else k < bound) && k as real !in values
    decreases values
  {
    if values == [] {
      k := if up then bound + 1 else bound - 1;
    } else {
      var v := values[0].Floor;
      k := FarInteger(if up then (if v > bound then v else bound) else if v < bound then v else bound, up, values[1..]);
      assert (k as real).Floor == k;
    }
  }

  /** An unbounded schema admits a number that is not listed. */
  lemma UnboundedIsUnlisted(values: seq<real>, integer: bool, i: NumberRules) returns (n: real)
    requires i.constant.None? && i.enumeration.None? && (Lower(i).None? || Upper(i).None?)
    ensures Admits(integer, i, n) && n !in values
  {
    var up := Upper(i).None?;
    var bound := if up then (if Lower(i).Some? then Lower(i).value else 0.0) else Upper(i).value;
    var k := FarInteger(bound.Floor, up, values);
    n := k as real;
    assert n.Floor == k;
  }

  /** The integers that a schema admits lie between the floors of its bounds. */
  lemma IntegersAreBetween(i: NumberRules, n: real)
    requires Lower(i).Some? && Upper(i).Some? && Admits(true, i, n)
    ensures Lower(i).value.Floor <= n.Floor <= Upper(i).value.Floor && n.Floor as real == n
  {
  }

  /** Listing all is exactly that no admitted number is missing. */
  lemma ListsAllExactly(values: seq<real>, integer: bool, i: NumberRules)
    ensures ListsAll(values, integer, i) <==> forall n :: Admits(integer, i, n) ==> n in values
  {
    if i.constant.None? && i.enumeration.None? {
      if Lower(i).None? || Upper(i).None? {
        var n := UnboundedIsUnlisted(values, integer, i);
      } else if integer {
        IntegersListed(values, i);
      } else if Lower(i).value < Upper(i).value {
        var n := Gap(Lower(i).value, Upper(i).value, values);
        assert Admits(false, i, n);
      }
    }
  }

  lemma IntegersListed(values: seq<real>, i: NumberRules)
    requires i.constant.None? && i.enumeration.None? && Lower(i).Some? && Upper(i).Some?
    ensures ListsAll(values, true, i) <==> forall n :: Admits(true, i, n) ==> n in values
  {
    if ListsAll(values, true, i) {
      forall n | Admits(true, i, n) ensures n in values {
        IntegersAreBetween(i, n);
        assert ListsInteger(values, i, n.Floor);
      }
    }
  }

  /**
   For two accepted number schemas the instances are included exactly when every number that the
   implementation admits is in the expected enumeration, if there is one.
   */
  lemma NumberInclusion(integer: bool, e: NumberRules, i: NumberRules)
    requires NumberConforms(e, i)
    ensures (forall n :: Admits(integer, i, n) ==> Admits(integer, e, n)) <==> EnumImplemented(integer, e, i)
  {
    if e.enumeration.Some? {
      ListsAllExactly(e.enumeration.value, integer, i);
    }
    forall n | Admits(integer, i, n) ensures Admits(integer, e, n) <==> Lists(e.enumeration, n) {
    }
  }
}
