/** The text of monotone keys orders like time, within a digit width and a million keys per millisecond. */
module FeedKeys {
  import opened KeyOrder
  import opened FeedAggregationStore

  const MILLION: nat := 1000000

  function Pow10(w: nat): nat {
    if w == 0 then 1 else 10 * Pow10(w - 1)
  }

  /** The last `w` decimal digits of `n`. */
  function Fixed(w: nat, n: nat): string {
    if w == 0 then "" else Fixed(w - 1, n / 10) + [Digit(n % 10)]
  }

  lemma {:induction false} FixedLength(w: nat, n: nat)
    ensures |Fixed(w, n)| == w
    ensures forall k :: 0 <= k < w ==> '0' <= Fixed(w, n)[k]
  {
    if w > 0 {
      FixedLength(w - 1, n / 10);
    }
  }

  lemma {:induction false} DigitsAreFixed(n: nat)
    ensures |Digits(n)| > 0 && Digits(n) == Fixed(|Digits(n)|, n)
    ensures n < Pow10(|Digits(n)|)
    ensures n > 0 ==> Pow10(|Digits(n)| - 1) <= n
  {
    if n < 10 {
      assert Fixed(0, n / 10) == "" && Fixed(1, n) == [Digit(n)];
      assert Pow10(0) == 1 && Pow10(1) == 10;
    } else {
      DigitsAreFixed(n / 10);
    }
  }

  lemma {:induction false} FixedGrows(w: nat, n: nat)
    requires n < Pow10(w)
    ensures Fixed(w + 1, n) == "0" + Fixed(w, n)
  {
    if w == 0 {
      assert Fixed(0, n / 10) == "";
    } else {
      FixedGrows(w - 1, n / 10);
      assert "0" + Fixed(w - 1, n / 10) + [Digit(n % 10)] == "0" + (Fixed(w - 1, n / 10) + [Digit(n % 10)]);
    }
  }

  lemma {:induction false} Pow10Grows(v: nat, w: nat)
    requires v <= w
    ensures Pow10(v) <= Pow10(w)
  {
    if v < w {
      Pow10Grows(v, w - 1);
    }
  }

  lemma {:induction false} PadFixed(v: nat, w: nat, n: nat)
    requires v <= w && n < Pow10(v)
    ensures PadStart(Fixed(v, n), w) == Fixed(w, n)
    decreases w - v
  {
    FixedLength(v, n);
    if v < w {
      FixedGrows(v, n);
      Pow10Grows(v, v + 1);
      PadFixed(v + 1, w, n);
    }
  }

  lemma MillionIsPow10()
    ensures Pow10(6) == MILLION
  {
    assert Pow10(1) == 10 && Pow10(2) == 100 && Pow10(3) == 1000 && Pow10(4) == 10000 && Pow10(5) == 100000;
  }

  lemma CounterText(counter: nat)
    requires counter < MILLION
    ensures PadStart(Digits(counter), 6) == Fixed(6, counter)
  {
    DigitsAreFixed(counter);
    MillionIsPow10();
    var v := |Digits(counter)|;
    if v > 6 {
      Pow10Grows(6, v - 1);
    }
    PadFixed(v, 6, counter);
  }

  lemma {:induction false} FixedOrder(w: nat, m: nat, n: nat)
    requires m < n < Pow10(w)
    ensures Less(Fixed(w, m), Fixed(w, n))
  {
    var x, y := [Digit(m % 10)], [Digit(n % 10)];
    FixedLength(w - 1, m / 10);
    FixedLength(w - 1, n / 10);
    if m / 10 < n / 10 {
      FixedOrder(w - 1, m / 10, n / 10);
      LessByPrefix(Fixed(w - 1, m / 10), Fixed(w - 1, n / 10), x, y);
    } else {
      LessCommonPrefix(Fixed(w - 1, m / 10), x, y);
    }
  }

  predicate SameWidth(a: nat, b: nat) {
    |Digits(a)| == |Digits(b)|
  }

  lemma DigitsOrder(a: nat, b: nat)
    requires SameWidth(a, b) && a < b
    ensures Less(Digits(a), Digits(b))
  {
    DigitsAreFixed(a);
    DigitsAreFixed(b);
    FixedOrder(|Digits(a)|, a, b);
  }

  lemma EarlierKeyIsLess(ms: nat, c: nat, ns: nat, d: nat)
    requires SameWidth(ms, ns) && c < MILLION && d < MILLION
    requires ms < ns || (ms == ns && c < d)
    ensures Less(KeyOf(ms, c), KeyOf(ns, d))
  {
    CounterText(c);
    CounterText(d);
    if ms < ns {
      DigitsOrder(ms, ns);
      LessByPrefix(Digits(ms), Digits(ns), PadStart(Digits(c), 6), PadStart(Digits(d), 6));
    } else {
      MillionIsPow10();
      FixedOrder(6, c, d);
      LessCommonPrefix(Digits(ms), Fixed(6, c), Fixed(6, d));
    }
  }

  /** Keys compare like (millisecond, counter). */
  lemma KeyOrderIsTimeOrder(ms: nat, c: nat, ns: nat, d: nat)
    requires SameWidth(ms, ns) && c < MILLION && d < MILLION
    ensures Less(KeyOf(ms, c), KeyOf(ns, d)) <==> ms < ns || (ms == ns && c < d)
  {
    if ms < ns || (ms == ns && c < d) {
      EarlierKeyIsLess(ms, c, ns, d);
    } else {
      if ms == ns && c == d {
        LessIrreflexive(KeyOf(ms, c));
      } else {
        EarlierKeyIsLess(ns, d, ms, c);
        if Less(KeyOf(ms, c), KeyOf(ns, d)) {
          LessTransitive(KeyOf(ms, c), KeyOf(ns, d), KeyOf(ms, c));
          LessIrreflexive(KeyOf(ms, c));
        }
      }
    }
  }

  // ---------------------------------------------------------------- whole runs of the generator

  /** How many keys were issued before in the same millisecond. */
  function CounterAt(clock: seq<nat>, i: nat): nat
    requires i < |clock|
  {
    if i > 0 && clock[i - 1] == clock[i] then CounterAt(clock, i - 1) + 1 else 0
  }

  /** The keys for these readings of the clock. */
  function Keys(clock: seq<nat>): seq<Key> {
    seq(|clock|, i requires 0 <= i < |clock| => KeyOf(clock[i], CounterAt(clock, i)))
  }

  method IssueKeys(start: nat, clock: seq<nat>) returns (keys: seq<Key>)
    ensures keys == Keys(clock)
  {
    var generator := new MonotonicKey(start);
    keys := [];
    for i := 0 to |clock|
      invariant fresh(generator)
      invariant |keys| == i && forall k :: 0 <= k < i ==> keys[k] == KeyOf(clock[k], CounterAt(clock, k))
      invariant i == 0 ==> generator.counter == 0
      invariant i > 0 ==> generator.previous == clock[i - 1] && generator.counter == CounterAt(clock, i - 1) + 1
    {
      var key := generator.Next(clock[i]);
      keys := keys + [key];
    }
  }

  ghost predicate NonDecreasing(clock: seq<nat>) {
    forall i, j :: 0 <= i <= j < |clock| ==> clock[i] <= clock[j]
  }

  lemma {:induction false} CounterGrowsWithin(clock: seq<nat>, i: nat, j: nat)
    requires NonDecreasing(clock) && i < j < |clock| && clock[i] == clock[j]
    ensures CounterAt(clock, i) < CounterAt(clock, j)
    decreases j
  {
    assert clock[j - 1] == clock[j];
    if i < j - 1 {
      CounterGrowsWithin(clock, i, j - 1);
    }
  }

  lemma {:induction false} CounterPassesThrough(clock: seq<nat>, i: nat, c: nat) returns (k: nat)
    requires i < |clock| && c <= CounterAt(clock, i)
    ensures k <= i && CounterAt(clock, k) == c && clock[k] == clock[i]
  {
    if CounterAt(clock, i) == c {
      k := i;
    } else {
      k := CounterPassesThrough(clock, i - 1, c);
    }
  }

  lemma MillionthKeyFallsBack(ms: nat)
    ensures !Less(KeyOf(ms, MILLION - 1), KeyOf(ms, MILLION))
  {
    SevenDigitsFallBack(ms, MILLION);
  }

  lemma SevenDigitsFallBack(ms: nat, n: nat)
    requires n == MILLION
    ensures !Less(KeyOf(ms, n - 1), KeyOf(ms, n))
  {
    CounterText(n - 1);
    SevenDigitText(n);
    MillionIsPow10();
    assert Scaled(9, 5) == 900000 && Scaled(10, 5) == 1000000 && Scaled(1, 6) == 1000000 && Scaled(2, 6) == 2000000;
    FirstDigit(5, n - 1, 9);
    FirstDigit(6, n, 1);
    LessCommonPrefix(Digits(ms), Fixed(6, n - 1), Fixed(7, n));
  }

  lemma SevenDigitText(n: nat)
    requires n == MILLION
    ensures PadStart(Digits(n), 6) == Fixed(7, n)
  {
    MillionIsPow10();
    DigitsAreFixed(n);
    var w := |Digits(n)|;
    assert Pow10(7) == 10 * Pow10(6);
    if w > 7 {
      Pow10Grows(7, w - 1);
    } else if w < 7 {
      Pow10Grows(w, 6);
    }
  }

  /** The digit `d` with `w` zeros behind it. */
  function Scaled(d: nat, w: nat): nat {
    if w == 0 then d else 10 * Scaled(d, w - 1)
  }

  /** The first of `w + 1` digits. */
  lemma {:induction false} FirstDigit(w: nat, n: nat, d: nat)
    requires d < 10 && Scaled(d, w) <= n < Scaled(d + 1, w)
    ensures |Fixed(w + 1, n)| == w + 1 && Fixed(w + 1, n)[0] == Digit(d)
  {
    FixedLength(w, n / 10);
    if w == 0 {
      assert Fixed(0, n / 10) == "";
    } else {
      FirstDigit(w - 1, n / 10, d);
    }
  }

  /**
   On a clock that does not go back and keeps its number of digits, the keys are strictly increasing
   exactly when no millisecond issues more than a million of them.
   */
  lemma KeysAscendIff(clock: seq<nat>)
    requires NonDecreasing(clock)
    requires forall i, j :: 0 <= i < |clock| && 0 <= j < |clock| ==> SameWidth(clock[i], clock[j])
    ensures Ascending(Keys(clock)) <==> forall i :: 0 <= i < |clock| ==> CounterAt(clock, i) < MILLION
  {
    if forall i :: 0 <= i < |clock| ==> CounterAt(clock, i) < MILLION {
      forall i, j | 0 <= i < j < |clock| ensures Less(Keys(clock)[i], Keys(clock)[j]) {
        if clock[i] == clock[j] {
          CounterGrowsWithin(clock, i, j);
        }
        EarlierKeyIsLess(clock[i], CounterAt(clock, i), clock[j], CounterAt(clock, j));
      }
    } else {
      var i :| 0 <= i < |clock| && CounterAt(clock, i) >= MILLION;
      var k := CounterPassesThrough(clock, i, MILLION);
      assert CounterAt(clock, k - 1) == MILLION - 1 && clock[k - 1] == clock[k];
      MillionthKeyFallsBack(clock[k]);
      assert !Less(Keys(clock)[k - 1], Keys(clock)[k]);
    }
  }

  // ---------------------------------------------------------------- stale entries

  lemma ThousandfoldText(t: nat)
    requires t > 0
    ensures Digits(t * 1000) == Digits(t) + "000"
  {
    assert Digits(t * 10) == Digits(t) + "0";
    assert Digits(t * 100) == Digits(t * 10) + "0";
    assert Digits(t * 1000) == Digits(t * 100) + "0";
    assert Digits(t) + "0" + "0" + "0" == Digits(t) + "000";
  }

  lemma {:induction false} NotBelowZeros(s: string, n: nat)
    requires n <= |s| && forall k :: 0 <= k < |s| ==> '0' <= s[k]
    ensures !Less(s, seq(n, _ => '0'))
  {
    var zeros := seq(n, _ => '0');
    if n > 0 && s[0] == '0' {
      NotBelowZeros(s[1..], n - 1);
      assert zeros[1..] == seq(n - 1, _ => '0');
    }
  }

  /** The shorter threshold text selects exactly the keys of earlier milliseconds. */
  lemma StaleExactly(ms: nat, counter: nat, lessThanMs: nat)
    requires lessThanMs > 0 && SameWidth(ms, lessThanMs) && counter < MILLION
    ensures Less(KeyOf(ms, counter), Digits(lessThanMs * 1000)) <==> ms < lessThanMs
  {
    ThousandfoldText(lessThanMs);
    CounterText(counter);
    FixedLength(6, counter);
    var text := Fixed(6, counter);
    if ms < lessThanMs {
      DigitsOrder(ms, lessThanMs);
      LessByPrefix(Digits(ms), Digits(lessThanMs), text, "000");
    } else if ms == lessThanMs {
      LessCommonPrefix(Digits(ms), text, "000");
      NotBelowZeros(text, 3);
      assert seq(3, _ => '0') == "000";
    } else {
      DigitsOrder(lessThanMs, ms);
      LessByPrefix(Digits(lessThanMs), Digits(ms), "000", text);
      if Less(KeyOf(ms, counter), Digits(lessThanMs * 1000)) {
        LessTransitive(KeyOf(ms, counter), Digits(lessThanMs * 1000), KeyOf(ms, counter));
        LessIrreflexive(KeyOf(ms, counter));
      }
    }
  }
}
