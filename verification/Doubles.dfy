/**
 Doubles: rounding a decimal to the nearest binary64 value of IEEE 754, and the
 shortest decimal that names a double, which is what Number::toString of ECMA-262
 (section 6.1.6.1.20) prints. Only magnitudes; a sign is printed apart.

 Rounding is any function to a nearest double, whichever way it breaks ties.
 */
module Doubles {
  import opened Text
  import opened JsonNumber

  const MIN_EXPONENT := -1074
  const MAX_EXPONENT := 971

  /** m times two to the power e. */
  function Binary(m: int, e: int): (x: real)
    ensures (m > 0 ==> x > 0.0) && (m == 0 ==> x == 0.0) && (m < 0 ==> x < 0.0)
    decreases if e < 0 then -e else e
  {
    if e == 0 then m as real else if e > 0 then 2.0 * Binary(m, e - 1) else Binary(m, e + 1) / 2.0
  }

  function Abs(x: real): real {
    if x < 0.0 then -x else x
  }

  /** 53 bits, and an exponent in range. */
  predicate DoubleParts(m: int, e: int) {
    -0x20_0000_0000_0000 < m < 0x20_0000_0000_0000 && MIN_EXPONENT <= e <= MAX_EXPONENT
  }

  ghost predicate IsDouble(d: real) {
    exists m, e :: DoubleParts(m, e) && d == Binary(m, e)
  }

  ghost predicate Nearest(x: real, d: real) {
    IsDouble(d) && forall other | IsDouble(other) :: Abs(x - d) <= Abs(x - other)
  }

  ghost predicate Rounds(f: real -> real) {
    forall x :: Nearest(x, f(x))
  }

  // ----- powers of two -----

  lemma BinaryStep(m: int, e: int)
    ensures Binary(m, e + 1) == 2.0 * Binary(m, e)
  {
  }

  lemma {:induction false} BinaryTwice(m: int, e: int)
    ensures Binary(2 * m, e) == Binary(m, e + 1)
    decreases if e < 0 then -e else e
  {
    BinaryStep(m, e);
    if e > 0 { BinaryTwice(m, e - 1); }
    if e < 0 { BinaryTwice(m, e + 1); }
  }

  lemma {:induction false} BinarySum(m: int, n: int, e: int)
    ensures Binary(m + n, e) == Binary(m, e) + Binary(n, e)
    decreases if e < 0 then -e else e
  {
    if e > 0 { BinarySum(m, n, e - 1); }
    if e < 0 { BinarySum(m, n, e + 1); }
  }

  lemma BinaryOrder(m: int, n: int, e: int)
    requires m <= n
    ensures Binary(m, e) <= Binary(n, e) && (m < n ==> Binary(m, e) < Binary(n, e))
  {
    BinarySum(m, n - m, e);
  }

  lemma {:induction false} BinaryGrows(a: int, b: int)
    requires a <= b
    ensures Binary(1, a) <= Binary(1, b)
    decreases b - a
  {
    if a < b {
      BinaryStep(1, b - 1);
      BinaryGrows(a, b - 1);
    }
  }

  function Two(n: nat): int {
    if n == 0 then 1 else 2 * Two(n - 1)
  }

  lemma {:induction false} BinaryShift(m: int, n: nat, e: int)
    ensures Binary(m * Two(n), e) == Binary(m, e + n)
    decreases n
  {
    if n > 0 {
      BinaryShift(2 * m, n - 1, e);
      BinaryTwice(m, e + n - 1);
      assert 2 * m * Two(n - 1) == m * Two(n);
    }
  }

  /** A number of 53 bits is at least 2^52 times its last bit. */
  lemma {:induction false} FullBits(e: int)
    ensures Binary(0x10_0000_0000_0000, e) == 4503599627370496.0 * Binary(1, e)
    decreases if e < 0 then -e else e
  {
    if e > 0 { FullBits(e - 1); }
    if e < 0 { FullBits(e + 1); }
  }

  lemma FullBitsShift(e: int)
    ensures Binary(0x10_0000_0000_0000, e) == Binary(1, e + 52)
  {
    assert Two(13) == 8192;
    BinaryShift(1, 13, e + 39);
    BinaryShift(8192, 13, e + 26);
    BinaryShift(0x400_0000, 13, e + 13);
    BinaryShift(0x80_0000_0000, 13, e);
  }

  // ----- how far apart doubles are -----

  /** The same double with its last bits filled. */
  lemma {:induction false} Normalise(m: int, e: int, d: real, low: int) returns (n: int, f: int)
    requires 0 < m && DoubleParts(m, e) && d == Binary(m, e) && d >= Binary(1, low) && MIN_EXPONENT + 52 <= low
    ensures 0x10_0000_0000_0000 <= n && DoubleParts(n, f) && d == Binary(n, f)
    decreases e - MIN_EXPONENT
  {
    if 0x10_0000_0000_0000 <= m {
      n, f := m, e;
    } else {
      if e == MIN_EXPONENT { TooSmall(m, e, low); }
      BinaryTwice(m, e - 1);
      n, f := Normalise(2 * m, e - 1, d, low);
    }
  }

  lemma TooSmall(m: int, e: int, low: int)
    requires 0 < m < 0x10_0000_0000_0000 && e + 52 <= low
    ensures Binary(m, e) < Binary(1, low)
  {
    FullBitsShift(e);
    BinaryGrows(e + 52, low);
    BinaryOrder(m, 0x10_0000_0000_0000, e);
  }

  lemma NotTooLarge(n: int, f: int, high: int)
    requires 0x10_0000_0000_0000 <= n && Binary(n, f) < Binary(1, high)
    ensures f + 52 < high
  {
    FullBitsShift(f);
    BinaryOrder(0x10_0000_0000_0000, n, f);
    if high <= f + 52 { BinaryGrows(high, f + 52); }
  }

  /** A double in range has doubles on either side, as far apart as its last bit
      says; u is the value of that bit. */
  ghost predicate HasNeighbours(d: real, u: real) {
    u > 0.0 && IsDouble(d - u) && IsDouble(d + u) && 4503599627370496.0 * u <= d
  }

  lemma IsDoubleAt(m: int, e: int)
    requires DoubleParts(m, e)
    ensures IsDouble(Binary(m, e))
  {
  }

  lemma NeighboursOf(n: int, f: int)
    requires 0x10_0000_0000_0000 <= n && DoubleParts(n, f) && f < MAX_EXPONENT
    ensures HasNeighbours(Binary(n, f), Binary(1, f))
  {
    FullBits(f);
    BinaryOrder(0x10_0000_0000_0000, n, f);
    BinarySum(n - 1, 1, f);
    BinarySum(n, 1, f);
    IsDoubleAt(n - 1, f);
    if n + 1 < 0x20_0000_0000_0000 {
      IsDoubleAt(n + 1, f);
    } else {
      BinaryTwice(0x10_0000_0000_0000, f);
      IsDoubleAt(0x10_0000_0000_0000, f + 1);
    }
  }

  lemma Neighbours(d: real, low: int, high: int) returns (u: real)
    requires IsDouble(d) && Binary(1, low) <= d < Binary(1, high) && MIN_EXPONENT + 52 <= low && high <= MAX_EXPONENT
    ensures HasNeighbours(d, u)
  {
    var m, e :| DoubleParts(m, e) && d == Binary(m, e);
    var n, f := Normalise(m, e, d, low);
    NotTooLarge(n, f, high);
    u := Binary(1, f);
    NeighboursOf(n, f);
  }

  /** What rounds to a double lies within half of its last bit. */
  lemma WithinHalf(x: real, d: real, u: real)
    requires Nearest(x, d) && HasNeighbours(d, u)
    ensures d - u / 2.0 <= x <= d + u / 2.0
  {
    assert Abs(x - d) <= Abs(x - (d + u)) && Abs(x - d) <= Abs(x - (d - u));
  }

  /** x lies where doubles have their full precision. */
  predicate InRange(x: real, low: int, high: int) {
    Binary(1, low) <= x < Binary(1, high) && MIN_EXPONENT + 52 <= low <= high < MAX_EXPONENT
  }

  lemma RoundsInRange(f: real -> real, x: real, low: int, high: int)
    requires Rounds(f) && InRange(x, low, high)
    ensures Binary(1, low) <= f(x) < Binary(1, high + 1) && IsDouble(f(x))
  {
    IsDoubleAt(1, low);
    IsDoubleAt(1, high);
    BinaryStep(1, high);
    assert Nearest(x, f(x));
    assert Abs(x - f(x)) <= Abs(x - Binary(1, low)) && Abs(x - f(x)) <= Abs(x - Binary(1, high));
  }

  /** Reals that round alike are close, compared to their size. */
  lemma RoundAlike(f: real -> real, x: real, y: real, low: int, high: int)
    requires Rounds(f) && f(x) == f(y) && InRange(x, low, high)
    ensures Abs(x - y) * 2251799813685248.0 <= x
  {
    var d := f(x);
    RoundsInRange(f, x, low, high);
    var u := Neighbours(d, low, high + 1);
    assert Nearest(x, d) && Nearest(y, d);
    WithinHalf(x, d, u);
    WithinHalf(y, d, u);
  }

  // ----- decimals -----

  /** m times ten to the power q. */
  function Scaled(m: int, q: int): (x: real)
    ensures (m > 0 ==> x > 0.0) && (m == 0 ==> x == 0.0) && (m < 0 ==> x < 0.0)
    decreases if q < 0 then -q else q
  {
    if q == 0 then m as real else if q > 0 then 10.0 * Scaled(m, q - 1) else Scaled(m, q + 1) / 10.0
  }

  function Ten(n: nat): int {
    if n == 0 then 1 else 10 * Ten(n - 1)
  }

  lemma {:induction false} ScaledTen(m: int, q: int)
    ensures Scaled(10 * m, q) == Scaled(m, q + 1)
    decreases if q < 0 then -q else q
  {
    if q > 0 { ScaledTen(m, q - 1); }
    if q < 0 { ScaledTen(m, q + 1); }
  }

  lemma Reassociate(m: int, t: int)
    ensures 10 * m * t == m * (10 * t)
  {
  }

  lemma {:induction false} ScaledShift(m: int, n: nat, q: int)
    ensures Scaled(m * Ten(n), q) == Scaled(m, q + n)
    decreases n
  {
    if n > 0 {
      ScaledShift(10 * m, n - 1, q);
      ScaledTen(m, q + n - 1);
      Reassociate(m, Ten(n - 1));
    }
  }

  lemma {:induction false} ScaledSum(m: int, n: int, q: int)
    ensures Scaled(m + n, q) == Scaled(m, q) + Scaled(n, q)
    decreases if q < 0 then -q else q
  {
    if q > 0 { ScaledSum(m, n, q - 1); }
    if q < 0 { ScaledSum(m, n, q + 1); }
  }

  lemma {:induction false} ScaledBy(m: int, q: int)
    ensures Scaled(2251799813685248 * m, q) == 2251799813685248.0 * Scaled(m, q)
    decreases if q < 0 then -q else q
  {
    if q > 0 { ScaledBy(m, q - 1); }
    if q < 0 { ScaledBy(m, q + 1); }
  }

  lemma ScaledOrder(m: int, n: int, q: int)
    requires Scaled(m, q) <= Scaled(n, q)
    ensures m <= n
  {
    ScaledSum(n, m - n, q);
  }

  const DIGITS_15 := 1_000_000_000_000_000

  /** On one decimal grid, two numbers that close are one, if either has at most
      fifteen digits. */
  lemma CloseIsEqual(m: int, n: int, q: int)
    requires m >= 0 && n >= 0 && (m < DIGITS_15 || n < DIGITS_15)
    requires Abs(Scaled(m, q) - Scaled(n, q)) * 2251799813685248.0 <= Scaled(m, q)
    ensures m == n
  {
    NotMore(m, n, m - n, q, m);
    NotMore(n, m, n - m, q, m);
  }

  lemma NotMore(a: int, b: int, k: int, q: int, m: int)
    requires k == a - b && Abs(Scaled(a, q) - Scaled(b, q)) * 2251799813685248.0 <= Scaled(m, q)
    ensures 2251799813685248 * k <= m
  {
    ScaledGap(a, b, k, q);
    ScaledOrder(2251799813685248 * k, m, q);
  }

  lemma ScaledGap(m: int, n: int, k: int, q: int)
    requires k == m - n
    ensures Scaled(2251799813685248 * k, q) == 2251799813685248.0 * (Scaled(m, q) - Scaled(n, q))
  {
    ScaledSum(n, k, q);
    ScaledBy(k, q);
  }

  // ----- digits -----

  lemma {:induction false} ParseBound(ds: Text)
    requires AllDigits(ds)
    ensures ParseDecimal(ds) < Ten(|ds|)
  {
    if ds != [] { ParseBound(ds[..|ds| - 1]); }
  }

  lemma {:induction false} ParsePositive(ds: Text)
    requires AllDigits(ds) && ds != [] && ds[0] != ZERO
    ensures ParseDecimal(ds) > 0
  {
    if |ds| > 1 { ParsePositive(ds[..|ds| - 1]); }
  }

  lemma {:induction false} DecimalOfParse(ds: Text)
    requires AllDigits(ds) && ds != [] && ds[0] != ZERO
    ensures Decimal(ParseDecimal(ds)) == ds
  {
    var n, before := |ds| - 1, ds[..|ds| - 1];
    assert ds == before + [ds[n]];
    if before == [] {
      assert ParseDecimal(before) == 0;
    } else {
      DecimalOfParse(before);
      ParsePositive(before);
      assert ParseDecimal(ds) / 10 == ParseDecimal(before) && ParseDecimal(ds) % 10 == ds[n] - 48;
    }
  }

  lemma {:induction false} ParseZeros(ds: Text, z: nat)
    requires AllDigits(ds)
    ensures ParseDecimal(ds + Zeros(z)) == ParseDecimal(ds) * Ten(z)
    decreases z
  {
    var t := ds + Zeros(z);
    if z == 0 {
      assert t == ds;
    } else {
      assert t[..|t| - 1] == ds + Zeros(z - 1);
      ParseZeros(ds, z - 1);
      TenTimes(ParseDecimal(ds), Ten(z - 1));
    }
  }

  lemma {:induction false} DecimalLength(g: nat, k: nat)
    requires g < Ten(k) && k > 0
    ensures |Decimal(g)| <= k
    decreases k
  {
    if g >= 10 { DecimalLength(g / 10, k - 1); }
  }

  // ----- what is printed -----

  function Value(n: Number): real
    requires n.Finite? && AllDigits(n.digits)
  {
    Scaled(ParseDecimal(n.digits), n.point - |n.digits|)
  }

  /** The number of grams, as kilograms. */
  function Kilograms(g: nat): real {
    Scaled(g, -3)
  }

  lemma ValueOfGrams(g: nat)
    requires g > 0
    ensures Value(OfGrams(false, g)) == Kilograms(g)
  {
    var d := Decimal(g);
    var r := TrimRight(d);
    var z := |d| - |r|;
    ParseOfDecimal(g);
    LeadingDigitKept(d);
    ParseZeros(r, z);
    ScaledShift(ParseDecimal(r), z, -3);
  }

  lemma LastDigit(ds: Text)
    requires Significant(ds)
    ensures ParseDecimal(ds) % 10 != 0
  {
    var n := |ds| - 1;
    UnitsDigit(ParseDecimal(ds[..n]), ds[n] - 48);
  }

  lemma UnitsDigit(tens: int, c: int)
    requires 0 <= c < 10
    ensures (10 * tens + c) % 10 == c
  {
  }

  lemma SameGrid(a: int, b: int, q: int, k: nat)
    requires Scaled(a, q) == Scaled(b, q + k)
    ensures a == b * Ten(k)
  {
    ScaledShift(b, k, q);
    ScaledOrder(a, b * Ten(k), q);
    ScaledOrder(b * Ten(k), a, q);
  }

  lemma NoZeroNoShift(a: int, b: int, k: nat)
    requires a % 10 != 0 && a == b * Ten(k)
    ensures k == 0
  {
    if k > 0 { EndsInZero(b, k); }
  }

  lemma EndsInZero(b: int, k: nat)
    requires k > 0
    ensures (b * Ten(k)) % 10 == 0
  {
    TenTimes(b, Ten(k - 1));
  }

  lemma TenTimes(b: int, t: int)
    ensures b * (10 * t) == 10 * (b * t)
  {
  }

  /** Numbers of equal value are equal: neither end is a zero digit. */
  lemma ValueInjective(m: Number, n: Number)
    requires m.Finite? && n.Finite? && !m.neg && !n.neg && Valid(m) && Valid(n) && Value(m) == Value(n)
    requires m.point - |m.digits| <= n.point - |n.digits|
    ensures m == n
  {
    var k := (n.point - |n.digits|) - (m.point - |m.digits|);
    var a, b := ParseDecimal(m.digits), ParseDecimal(n.digits);
    SameGrid(a, b, m.point - |m.digits|, k);
    LastDigit(m.digits);
    NoZeroNoShift(a, b, k);
    DecimalOfParse(m.digits);
    DecimalOfParse(n.digits);
  }

  lemma SameValue(m: Number, n: Number)
    requires m.Finite? && n.Finite? && !m.neg && !n.neg && Valid(m) && Valid(n) && Value(m) == Value(n)
    ensures m == n
  {
    if m.point - |m.digits| <= n.point - |n.digits| { ValueInjective(m, n); } else { ValueInjective(n, m); }
  }

  /** Grams at which a double still has its full precision: below 10^12 kg. */
  predicate Weighable(g: nat) {
    0 < g < DIGITS_15
  }

  /** A number of at most fifteen digits that rounds as the grams do is that of
      the grams. */
  lemma RoundsLikeGrams(f: real -> real, g: nat, n: Number)
    requires Rounds(f) && Weighable(g) && n.Finite? && !n.neg && Valid(n) && |n.digits| <= 15
    requires f(Value(n)) == f(Kilograms(g))
    ensures n == OfGrams(false, g)
  {
    var s, q := ParseDecimal(n.digits), n.point - |n.digits|;
    KilogramsInRange(g);
    RoundAlike(f, Kilograms(g), Value(n), -10, 40);
    DigitsBound(n.digits);
    if q >= -3 {
      ScaledShift(s, q + 3, -3);
      CloseIsEqual(g, s * Ten(q + 3), -3);
    } else {
      ScaledShift(g, -3 - q, q);
      CloseIsEqual(g * Ten(-3 - q), s, q);
    }
    ValueOfGrams(g);
    SameValue(n, OfGrams(false, g));
  }

  lemma DigitsBound(ds: Text)
    requires AllDigits(ds) && |ds| <= 15
    ensures 0 <= ParseDecimal(ds) < DIGITS_15
  {
    ParseBound(ds);
    TenGrows(|ds|, 15);
    assert Ten(15) == DIGITS_15;
  }

  lemma {:induction false} TenPositive(n: nat)
    ensures Ten(n) >= 1
  {
    if n > 0 { TenPositive(n - 1); }
  }

  lemma {:induction false} TenGrows(a: nat, b: nat)
    requires a <= b
    ensures Ten(a) <= Ten(b)
    decreases b
  {
    if a < b {
      TenGrows(a, b - 1);
      TenPositive(b - 1);
    }
  }

  lemma KilogramsInRange(g: nat)
    requires Weighable(g)
    ensures InRange(Kilograms(g), -10, 40)
  {
    assert Kilograms(g) == g as real / 1000.0;
    assert Binary(1, -5) == 0.03125;
    assert Binary(1, -10) == 0.0009765625;
    PowerOf40();
  }

  lemma PowerOf40()
    ensures Binary(1, 40) == 1099511627776.0
  {
    assert Two(13) == 8192;
    BinaryShift(0x400_0000, 13, 0);
    BinaryShift(8192, 13, 13);
    BinaryShift(1, 13, 26);
    BinaryStep(1, 39);
  }

  /** n is what is printed for the double d: it names d, and nothing shorter does. */
  ghost predicate Prints(f: real -> real, d: real, n: Number) {
    && n.Finite? && !n.neg && Valid(n) && f(Value(n)) == d
    && forall m: Number | m.Finite? && !m.neg && Valid(m) && f(Value(m)) == d :: |n.digits| <= |m.digits|
  }

  lemma GramsHaveFewDigits(g: nat)
    requires Weighable(g)
    ensures |OfGrams(false, g).digits| <= 15
  {
    assert Ten(15) == DIGITS_15;
    DecimalLength(g, 15);
  }

  /** Below 10^12 kg, rounding the quantised decimal to a double and printing that
      double gives the digits of the grams, and no others. */
  lemma DoublesPrintGrams(f: real -> real, g: nat, n: Number)
    requires Rounds(f) && Weighable(g)
    ensures Prints(f, f(Kilograms(g)), n) <==> n == OfGrams(false, g)
  {
    ValueOfGrams(g);
    GramsHaveFewDigits(g);
    var o := OfGrams(false, g);
    if Prints(f, f(Kilograms(g)), n) {
      assert f(Value(o)) == f(Kilograms(g));
      RoundsLikeGrams(f, g, n);
    }
    forall m: Number | m.Finite? && !m.neg && Valid(m) && f(Value(m)) == f(Kilograms(g)) ensures |o.digits| <= |m.digits| {
      if |m.digits| <= 15 { RoundsLikeGrams(f, g, m); }
    }
  }

  /** The double nearest to a number of grams is nearer than half a gram. */
  lemma RoundingIsNoise(f: real -> real, g: nat)
    requires Rounds(f) && Weighable(g)
    ensures -0.0005 < f(Kilograms(g)) - Kilograms(g) < 0.0005
  {
    var x := Kilograms(g);
    var d := f(x);
    assert Nearest(x, d) && Nearest(d, f(d));
    assert Abs(d - f(d)) <= Abs(d - d);
    KilogramsInRange(g);
    RoundAlike(f, x, d, -10, 40);
    assert x == g as real / 1000.0;
  }
}
