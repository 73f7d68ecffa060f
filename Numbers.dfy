/**
 * The numeric side of the model: a double is a real number or NaN, the two
 * Double sentinels used by MIN/MAX, Computer.round, and the value of a number token.
 */
module Numbers {
  import opened Wrappers
  import opened JavaStrings

  /** A double as the pipeline sees it: a finite value or NaN. */
  datatype Num = Val(v: real) | NaN

  /** Double.MAX_VALUE = (2^53 - 1) * 2^971. */
  const DoubleMaxValue: real := 179769313486231570814527423731704356798070567525844996598917476803157260780028538760589558632766878171540458953514382464234321326889464182768467546703537516986049910576551282076245490090389328944075868508455133942304583236903222948165808559332123348274797826204144723168738177180919299881250404026184124858368.0

  /** Double.MIN_VALUE = 2^-1074, the smallest POSITIVE double. */
  const DoubleMinValue: real := 1.0 / 202402253307310618352495346718917307049556649764142118356901358027430339567995346891960383701437124495187077864316811911389808737385793476867013399940738509921517424276566361364466907742093216341239767678472745068562007483424692698618103355649159556340810056512358769552333414615230502532186327508646006263307707741093494784.0

  // ---------------------------------------------------------------------------
  // Computer.round: Math.round(v * 10^6) / 10^6, Math.round(x) being floor(x + 0.5)

  /** The number of millionths Math.round(v * 10^6) yields. */
  function Micro(x: real): int
  {
    (x * 1000000.0 + 0.5).Floor
  }

  /** A value that is a whole number of millionths. */
  predicate OnGrid(r: real)
  {
    (r * 1000000.0).Floor as real == r * 1000000.0
  }

  /** Rounds half up to six decimal places. */
  function Round(x: real): (r: real)
    ensures OnGrid(r)
    ensures x - 0.0000005 < r <= x + 0.0000005
  {
    Micro(x) as real / 1000000.0
  }

  /** The two facts Round ensures pin its result down: there is one grid point in the window. */
  lemma RoundIsUnique(x: real, r: real)
    requires OnGrid(r)
    requires x - 0.0000005 < r <= x + 0.0000005
    ensures r == Round(x)
  {
    var k := (r * 1000000.0).Floor;
    var q := Round(x);
    var m := (q * 1000000.0).Floor;
    assert r == k as real / 1000000.0;
    assert q == m as real / 1000000.0;
    assert (k - m) as real / 1000000.0 < 0.000001;
    assert (m - k) as real / 1000000.0 < 0.000001;
  }

  /** A step of at least half a millionth moves the rounded value at least a millionth past v's grid point. */
  lemma RoundProgress(v: real, step: real)
    requires step >= 0.0000005
    ensures Micro(v + step) >= (v * 1000000.0).Floor + 1
    ensures Round(v + step) > v
  {
    var k := (v * 1000000.0).Floor;
    var y := (v + step) * 1000000.0 + 0.5;
    assert y == v * 1000000.0 + step * 1000000.0 + 0.5;
    assert step * 1000000.0 >= 0.5;
    assert y >= k as real + 1.0;
  }

  /** On the grid, a step below half a millionth never moves the rounded value up, and a non-negative one keeps it. */
  lemma RoundNoProgress(v: real, step: real)
    requires OnGrid(v) && step < 0.0000005
    ensures Round(v + step) <= v
    ensures step >= 0.0 ==> Round(v + step) == v
  {
    var k := (v * 1000000.0).Floor;
    assert (v + step) * 1000000.0 + 0.5 == k as real + step * 1000000.0 + 0.5;
    assert (v + step) * 1000000.0 + 0.5 < k as real + 1.0;
    assert Micro(v + step) <= k;
    assert Round(v + step) == Micro(v + step) as real / 1000000.0;
    assert v == k as real / 1000000.0;
    if step >= 0.0 {
      assert Micro(v + step) == k;
    }
  }

  // ---------------------------------------------------------------------------
  // Decimal text

  function DigitValue(c: char): nat
  {
    if IsDigit(c) then (c as int - '0' as int) else 0
  }

  /** The value of a run of decimal digits, most significant first. */
  function DigitsValue(s: string): nat
  {
    if s == [] then 0 else 10 * DigitsValue(s[..|s| - 1]) + DigitValue(s[|s| - 1])
  }

  function Pow10(n: nat): (r: nat)
    ensures r >= 1
  {
    if n == 0 then 1 else 10 * Pow10(n - 1)
  }

  /** The number of leading digits of s. */
  function DigitRun(s: string): (r: nat)
    ensures r <= |s|
    ensures AllDigits(s[..r])
    ensures r < |s| ==> !IsDigit(s[r])
  {
    if s == [] || !IsDigit(s[0]) then 0 else 1 + DigitRun(s[1..])
  }

  /** The grammar's number token: `[0-9]+(\.[0-9]+)?`. */
  predicate IsConstantLiteral(t: string)
  {
    var k := DigitRun(t);
    k > 0 && (k == |t| || (t[k] == '.' && k + 1 < |t| && AllDigits(t[k + 1..])))
  }

  /**
   * The value of a number token: its integer digits plus its fraction digits scaled down.
   * It is the exact decimal value; the nearest double is not modelled.
   */
  function ConstantValue(t: string): (r: real)
    ensures r >= 0.0
  {
    var k := DigitRun(t);
    var frac := if k < |t| then t[k + 1..] else [];
    DigitsValue(t[..k]) as real + DigitsValue(frac) as real / Pow10(|frac|) as real
  }

  /** %d spells n: the digits NatToString renders read back as n. */
  lemma {:induction false} NatToStringValue(n: nat)
    ensures DigitsValue(NatToString(n)) == n
  {
    var s := NatToString(n);
    if n < 10 {
      assert s[..0] == [];
    } else {
      assert s[..|s| - 1] == NatToString(n / 10);
      NatToStringValue(n / 10);
    }
  }

  /** Appending digits shifts the value of the first part by one decimal place per digit. */
  lemma {:induction false} DigitsValueAppend(a: string, b: string)
    ensures DigitsValue(a + b) == DigitsValue(a) * Pow10(|b|) + DigitsValue(b)
    decreases |b|
  {
    if b == [] {
      assert a + b == a;
    } else {
      var c := a + b;
      var b' := b[..|b| - 1];
      assert c[..|c| - 1] == a + b';
      assert c[|c| - 1] == b[|b| - 1];
      DigitsValueAppend(a, b');
      var x, q, y, d := DigitsValue(a), Pow10(|b'|), DigitsValue(b'), DigitValue(b[|b| - 1]);
      assert DigitsValue(c) == 10 * DigitsValue(a + b') + d;
      assert DigitsValue(b) == 10 * y + d && Pow10(|b|) == 10 * q;
      ShiftDigit(x, q, y, d);
    }
  }

  lemma ShiftDigit(x: nat, q: nat, y: nat, d: nat)
    ensures 10 * (x * q + y) + d == x * (10 * q) + (10 * y + d)
  {
  }

  /**
   * A number token with a fraction is the integer its digits spell, the point left out,
   * divided by ten to the number of fraction digits.
   */
  lemma {:induction false} ConstantValueDigits(t: string)
    requires IsConstantLiteral(t) && DigitRun(t) < |t|
    ensures var k := DigitRun(t);
      ConstantValue(t) == DigitsValue(t[..k] + t[k + 1..]) as real / Pow10(|t| - k - 1) as real
  {
    var k := DigitRun(t);
    FractionValue(t[..k], t[k + 1..]);
  }

  /** The integer part a plus the fraction digits b scaled down is the digits of a + b scaled down. */
  lemma {:induction false} FractionValue(a: string, b: string)
    ensures DigitsValue(a) as real + DigitsValue(b) as real / Pow10(|b|) as real
         == DigitsValue(a + b) as real / Pow10(|b|) as real
  {
    DigitsValueAppend(a, b);
    ScaledSum(DigitsValue(a + b), DigitsValue(a), Pow10(|b|), DigitsValue(b));
  }

  lemma ScaledSum(d: nat, x: nat, q: nat, y: nat)
    requires q >= 1 && d == x * q + y
    ensures x as real + y as real / q as real == d as real / q as real
  {
  }

  lemma {:induction false} DigitRunOfDigits(s: string)
    requires AllDigits(s)
    ensures DigitRun(s) == |s|
  {
    if s != [] {
      DigitRunOfDigits(s[1..]);
    }
  }

  /** A token without a point is read as the integer its digits spell. */
  lemma IntegerConstantValue(t: string)
    requires AllDigits(t)
    ensures ConstantValue(t) == DigitsValue(t) as real
  {
    DigitRunOfDigits(t);
    assert t[..|t|] == t;
    var empty: string := [];
    assert DigitsValue(empty) == 0 && Pow10(|empty|) == 1;
    assert DigitsValue(empty) as real / Pow10(|empty|) as real == 0.0;
  }
}
