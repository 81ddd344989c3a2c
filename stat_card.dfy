/**
  components/stat-card.tsx: a statistic card that counts up to the number in
  its value text the first time it scrolls into view, and shows an optional
  trend as an arrow and a percentage.
 */
module StatCard {
  import opened Decimal

  /** `value.replace(/[^0-9]/g, '')`: the digits of s, in order. */
  function DigitsOf(s: string): (d: string)
    ensures AllDigits(d)
    ensures |d| <= |s|
  {
    if s == [] then []
    else if IsDigit(s[0]) then [s[0]] + DigitsOf(s[1..])
    else DigitsOf(s[1..])
  }

  /** `parseInt(digits) || 0`: the number the digits form, 0 when there are
      none (parseInt gives NaN, which is falsy). */
  function NumericValue(value: string): (n: nat)
    ensures DigitsOf(value) == [] ==> n == 0
  {
    var digits := DigitsOf(value);
    if digits == [] then 0 else DecimalValue(digits)
  }

  lemma {:induction false} DigitsOfConcat(a: string, b: string)
    ensures DigitsOf(a + b) == DigitsOf(a) + DigitsOf(b)
  {
    if a == [] {
      assert a + b == b;
    } else {
      assert (a + b)[0] == a[0] && (a + b)[1..] == a[1..] + b;
      DigitsOfConcat(a[1..], b);
      if IsDigit(a[0]) {
        assert DigitsOf(a + b) == [a[0]] + (DigitsOf(a[1..]) + DigitsOf(b));
      }
    }
  }

  lemma {:induction false} DigitsOfAllDigits(s: string)
    requires AllDigits(s)
    ensures DigitsOf(s) == s
  {
    if s != [] {
      DigitsOfAllDigits(s[1..]);
    }
  }

  /** Characters that are not digits, such as thousands separators or a unit,
      do not change the value wherever they stand. */
  lemma {:induction false} NonDigitIsIgnored(a: string, c: char, b: string)
    requires !IsDigit(c)
    ensures NumericValue(a + [c] + b) == NumericValue(a + b)
  {
    DigitsOfConcat(a + [c], b);
    DigitsOfConcat(a, [c]);
    DigitsOfConcat(a, b);
    assert DigitsOf([c]) == DigitsOf([c][1..]) == DigitsOf([]) == [];
    assert DigitsOf(a + [c]) == DigitsOf(a);
  }

  /** The value text of a number, optionally followed by a unit, counts up to
      that number. */
  lemma {:induction false} NumberWithUnit(n: nat, unit: string)
    requires forall i :: 0 <= i < |unit| ==> !IsDigit(unit[i])
    ensures NumericValue(NatToDecimal(n) + unit) == n
  {
    DigitsOfConcat(NatToDecimal(n), unit);
    DigitsOfAllDigits(NatToDecimal(n));
    NoDigits(unit);
    assert NatToDecimal(n) + [] == NatToDecimal(n);
    DecimalRoundTrip(n);
  }

  lemma {:induction false} NoDigits(s: string)
    requires forall i :: 0 <= i < |s| ==> !IsDigit(s[i])
    ensures DigitsOf(s) == []
  {
    if s != [] {
      NoDigits(s[1..]);
    }
  }

  /** A value written with a thousands separator, as the home page does. */
  lemma ThousandsSeparatorExample()
    ensures NumericValue("1.234 jiwa") == 1234
  {
    var unit := " jiwa";
    NumberWithUnit(1234, unit);
    assert NatToDecimal(1234) == "1234";
    NonDigitIsIgnored("1", '.', "234 jiwa");
    assert "1" + ['.'] + "234 jiwa" == "1.234 jiwa";
    assert "1" + "234 jiwa" == NatToDecimal(1234) + unit;
  }

  /** What the value line shows: the counter (formatted for the locale) once
      the animation has started for a positive number, the value text
      otherwise. */
  datatype Display = Counter(count: nat) | Text(value: string)

  /** The animation's length in milliseconds. */
  const Duration: real := 2000.0

  /** `Math.min((currentTime - startTime) / duration, 1)` for a frame
      `elapsed` milliseconds after the first one. */
  function AnimationProgress(elapsed: real): (p: real)
    requires elapsed >= 0.0
    ensures 0.0 <= p <= 1.0
    ensures p == 1.0 <==> elapsed >= Duration
  {
    if elapsed / Duration < 1.0 then elapsed / Duration else 1.0
  }

  lemma {:induction false} Fourth(a: real, b: real)
    requires 0.0 <= b <= a
    ensures 0.0 <= b * b * b * b <= a * a * a * a
  {
    assert 0.0 <= b * b <= a * a by {
      assert b * b <= a * b <= a * a;
    }
    var a2, b2 := a * a, b * b;
    assert b2 * b2 <= a2 * b2 <= a2 * a2;
    assert b * b * b * b == b2 * b2;
    assert a * a * a * a == a2 * a2;
  }

  /** `1 - Math.pow(1 - progress, 4)`: rises from 0 to 1, never falls. */
  function EaseOutQuart(p: real): (e: real)
    requires 0.0 <= p <= 1.0
    ensures 0.0 <= e <= 1.0
    ensures p == 0.0 ==> e == 0.0
    ensures p == 1.0 ==> e == 1.0
  {
    var q := 1.0 - p;
    Fourth(1.0, q);
    1.0 - q * q * q * q
  }

  lemma EaseOutQuartIsMonotonic(p1: real, p2: real)
    requires 0.0 <= p1 <= p2 <= 1.0
    ensures EaseOutQuart(p1) <= EaseOutQuart(p2)
  {
    Fourth(1.0 - p1, 1.0 - p2);
  }

  /** Scaling by the number keeps the order of two eased fractions. */
  lemma Scale(e1: real, e2: real, n: real)
    requires 0.0 <= e1 <= e2 && n >= 0.0
    ensures 0.0 <= e1 * n <= e2 * n
  {
    assert e2 * n - e1 * n == (e2 - e1) * n;
  }

  /** An eased fraction of the number lies between 0 and the number, and so
      does its floor. */
  lemma FloorOfFraction(e: real, n: nat)
    requires 0.0 <= e <= 1.0
    ensures 0.0 <= e * n as real <= n as real
    ensures 0 <= (e * n as real).Floor <= n
    ensures (e * n as real).Floor as real <= e * n as real < (e * n as real).Floor as real + 1.0
  {
    var m := n as real;
    assert m - e * m == (1.0 - e) * m;
  }

  lemma FloorIsMonotonic(x1: real, x2: real)
    requires x1 <= x2
    ensures x1.Floor <= x2.Floor
  {
    assert x1.Floor as real <= x1 <= x2 < x2.Floor as real + 1.0;
  }

  /** `Math.floor(easeOutQuart * numericValue)` for a frame. */
  function FrameCount(n: nat, elapsed: real): (c: int)
    requires elapsed >= 0.0
    ensures 0 <= c <= n
    ensures c as real <= EaseOutQuart(AnimationProgress(elapsed)) * n as real < c as real + 1.0
  {
    var e := EaseOutQuart(AnimationProgress(elapsed));
    FloorOfFraction(e, n);
    (e * n as real).Floor
  }

  /** Later frames never show a smaller count: the counter only counts up,
      and it ends on the number. */
  lemma {:induction false} CountNeverFalls(n: nat, t1: real, t2: real)
    requires 0.0 <= t1 <= t2
    ensures FrameCount(n, t1) <= FrameCount(n, t2)
    ensures t2 >= Duration ==> FrameCount(n, t2) == n
  {
    var p1, p2 := AnimationProgress(t1), AnimationProgress(t2);
    assert p1 <= p2;
    EaseOutQuartIsMonotonic(p1, p2);
    var e1, e2 := EaseOutQuart(p1), EaseOutQuart(p2);
    Scale(e1, e2, n as real);
    FloorIsMonotonic(e1 * n as real, e2 * n as real);
  }

  /** The trend badge: "↑" for a trend of 0 or more, "↓" below 0, and the
      size of the trend as the percentage. */
  datatype TrendBadge = TrendBadge(arrow: string, percent: real, positive: bool)

  function Trend(v: real): (t: TrendBadge)
    ensures t.positive <==> v >= 0.0
    ensures t.arrow == if v >= 0.0 then "↑" else "↓"
    ensures t.percent >= 0.0 && (t.percent == v || t.percent == -v)
  {
    if v >= 0.0 then TrendBadge("↑", v, true) else TrendBadge("↓", -v, false)
  }

  /** Opposite trends show opposite arrows and the same percentage. */
  lemma OppositeTrends(v: real)
    requires v > 0.0
    ensures Trend(v).arrow != Trend(-v).arrow && Trend(v).percent == Trend(-v).percent
  {
  }

  class Card {
    const value: string
    var hasAnimated: bool
    var count: nat
    /** How many times the count-up animation has been started. */
    var animationsStarted: nat

    /** The animation runs at most once, and only for a positive number. */
    predicate Valid()
      reads this
    {
      animationsStarted == (if hasAnimated then 1 else 0) &&
      (hasAnimated ==> NumericValue(value) > 0) &&
      count <= NumericValue(value)
    }

    constructor (value: string)
      ensures Valid() && this.value == value && !hasAnimated && count == 0 && animationsStarted == 0
    {
      this.value := value;
      hasAnimated := false;
      count := 0;
      animationsStarted := 0;
    }

    /** The effect run on each change of visibility: it starts the animation
        only when the card is visible, has not animated yet and its number is
        positive. */
    method Effect(isVisible: bool)
      requires Valid()
      modifies this
      ensures Valid()
      ensures hasAnimated == (old(hasAnimated) || (isVisible && NumericValue(value) > 0))
      ensures animationsStarted == old(animationsStarted) + (if hasAnimated && !old(hasAnimated) then 1 else 0)
      ensures animationsStarted <= 1
      ensures count == old(count)
    {
      if isVisible && !hasAnimated && NumericValue(value) > 0 {
        hasAnimated := true;
        animationsStarted := animationsStarted + 1;
      }
    }

    /** One animation frame, `elapsed` milliseconds after the first: the
        count is the eased fraction of the number, rounded down; every frame
        from 2 seconds on shows the number itself. */
    method Frame(elapsed: real)
      requires Valid() && hasAnimated && elapsed >= 0.0
      modifies this
      ensures Valid()
      ensures count == FrameCount(NumericValue(value), elapsed)
      ensures elapsed >= Duration ==> count == NumericValue(value)
      ensures hasAnimated == old(hasAnimated) && animationsStarted == old(animationsStarted)
    {
      count := FrameCount(NumericValue(value), elapsed);
    }

    /** `displayValue`: the raw text until the animation has started, and
        always for a value whose number is 0. */
    function DisplayValue(): (d: Display)
      reads this
      ensures d.Text? <==> !hasAnimated || NumericValue(value) == 0
      ensures d.Text? ==> d.value == value
      ensures d.Counter? ==> d.count == count
    {
      if NumericValue(value) > 0 && hasAnimated then Counter(count) else Text(value)
    }
  }
}
