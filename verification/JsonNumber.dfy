/**
 JavaScript numbers as JSON.stringify prints them.

 A finite non-zero number is given by the sign, digits and exponent that
 Number::toString of ECMA-262 (section 6.1.6.1.20) selects for it: the value is
 0.digits times ten to the power `point`, with no zero digit at either end.
 */
module JsonNumber {
  import opened Wrappers
  import opened Text

  datatype Number =
    | NaN
    | Infinite(neg: bool)
    | Zero(neg: bool)
    | Finite(neg: bool, digits: Text, point: int)

  const EXP: CodeUnit := 101

  predicate Significant(ds: Text) {
    |ds| > 0 && AllDigits(ds) && ds[0] != ZERO && ds[|ds| - 1] != ZERO
  }

  predicate Valid(n: Number) {
    n.Finite? ==> Significant(n.digits)
  }

  predicate IsFinite(n: Number) {
    n.Zero? || n.Finite?
  }

  function Mantissa(ds: Text): Text {
    if |ds| <= 1 then ds else ds[..1] + [DOT] + ds[1..]
  }

  function Exponent(e: int): Text {
    if e >= 0 then [PLUS] + Decimal(e) else [MINUS] + Decimal(-e)
  }

  function Scientific(ds: Text, e: int): Text {
    Mantissa(ds) + [EXP] + Exponent(e)
  }

  function Magnitude(ds: Text, point: int): Text {
    var k := |ds|;
    if k <= point <= 21 then ds + Zeros(point - k)
    else if 0 < point <= 21 then ds[..point] + [DOT] + ds[point..]
    else if -6 < point <= 0 then [ZERO] + [DOT] + (Zeros(-point) + ds)
    else Scientific(ds, point - 1)
  }

  function Format(n: Number): Text
    requires IsFinite(n)
  {
    if n.Zero? then [ZERO]
    else (if n.neg then [MINUS] else []) + Magnitude(n.digits, n.point)
  }

  predicate NumberUnit(u: CodeUnit) {
    IsDigit(u) || u == MINUS || u == PLUS || u == DOT || u == EXP
  }

  predicate AllNumberUnits(t: Text) {
    forall i | 0 <= i < |t| :: NumberUnit(t[i])
  }

  // ----- reading a number back -----

  function IndexOf(t: Text, c: CodeUnit): (i: nat)
    ensures i <= |t|
    ensures i < |t| ==> t[i] == c
  {
    if t == [] || t[0] == c then 0 else 1 + IndexOf(t[1..], c)
  }

  function LeadZeros(t: Text): (z: nat)
    ensures z <= |t|
  {
    if t == [] || t[0] != ZERO then 0 else 1 + LeadZeros(t[1..])
  }

  function TrimRight(t: Text): (r: Text)
    ensures |r| <= |t| && t == r + Zeros(|t| - |r|)
    ensures r != [] ==> r[|r| - 1] != ZERO
  {
    if t == [] || t[|t| - 1] != ZERO then t else
      var r := TrimRight(t[..|t| - 1]);
      assert t == t[..|t| - 1] + [ZERO];
      r
  }

  function ReadExponent(t: Text): Option<int> {
    if |t| > 1 && AllDigits(t[1..]) && t[0] == PLUS then Some(ParseDecimal(t[1..]))
    else if |t| > 1 && AllDigits(t[1..]) && t[0] == MINUS then Some(0 - ParseDecimal(t[1..]))
    else None
  }

  function ReadMantissa(neg: bool, m: Text, e: int): Option<Number> {
    var d := IndexOf(m, DOT);
    var whole := m[..d];
    var frac := if d < |m| then m[d + 1..] else [];
    var all := whole + frac;
    if whole == [] || !AllDigits(all) then None else
    var z := LeadZeros(all);
    if z == |all| then Some(Zero(neg)) else Some(Finite(neg, TrimRight(all[z..]), |whole| - z + e))
  }

  function ReadMagnitude(neg: bool, t: Text): Option<Number> {
    var i := IndexOf(t, EXP);
    if i == |t| then ReadMantissa(neg, t, 0)
    else
      var e := ReadExponent(t[i + 1..]);
      if e.None? then None else ReadMantissa(neg, t[..i], e.value)
  }

  function Read(t: Text): Option<Number> {
    if t != [] && t[0] == MINUS then ReadMagnitude(true, t[1..]) else ReadMagnitude(false, t)
  }

  lemma {:induction false} IndexOfAppend(a: Text, c: CodeUnit, b: Text)
    requires c !in a
    ensures IndexOf(a, c) == |a|
    ensures IndexOf(a + [c] + b, c) == |a|
    ensures (a + [c] + b)[..|a|] == a && (a + [c] + b)[|a| + 1..] == b
    decreases |a|
  {
    if a != [] {
      assert (a + [c] + b)[1..] == a[1..] + [c] + b;
      IndexOfAppend(a[1..], c, b);
    }
  }

  lemma {:induction false} LeadZerosOf(z: nat, ds: Text)
    requires ds != [] && ds[0] != ZERO
    ensures LeadZeros(Zeros(z) + ds) == z && (Zeros(z) + ds)[z..] == ds
  {
    if z > 0 {
      assert (Zeros(z) + ds)[1..] == Zeros(z - 1) + ds;
      LeadZerosOf(z - 1, ds);
    } else {
      assert Zeros(z) + ds == ds;
    }
  }

  lemma {:induction false} TrimRightOf(ds: Text, z: nat)
    requires ds != [] && ds[|ds| - 1] != ZERO
    ensures TrimRight(ds + Zeros(z)) == ds
  {
    var t := ds + Zeros(z);
    if z > 0 {
      assert t[..|t| - 1] == ds + Zeros(z - 1);
      TrimRightOf(ds, z - 1);
    } else {
      assert t == ds;
    }
  }

  /** Whatever zeros surround the significant digits, the same number is read. */
  lemma ReadPadded(neg: bool, m: Text, e: int, whole: Text, frac: Text, ds: Text, a: nat, b: nat)
    requires Significant(ds) && whole != [] && AllDigits(whole) && AllDigits(frac)
    requires m == if frac == [] then whole else whole + [DOT] + frac
    requires whole + frac == Zeros(a) + (ds + Zeros(b))
    ensures ReadMantissa(neg, m, e) == Some(Finite(neg, ds, |whole| - a + e))
  {
    MantissaSplit(m, whole, frac);
    SignificantPart(whole + frac, ds, a, b);
  }

  /** The mantissa is split at its point, if it has one. */
  lemma MantissaSplit(m: Text, whole: Text, frac: Text)
    requires AllDigits(whole) && m == if frac == [] then whole else whole + [DOT] + frac
    ensures IndexOf(m, DOT) == |whole| && m[..|whole|] == whole
    ensures frac == (if |whole| < |m| then m[|whole| + 1..] else [])
  {
    IndexOfAppend(whole, DOT, frac);
  }

  lemma SignificantPart(all: Text, ds: Text, a: nat, b: nat)
    requires Significant(ds) && all == Zeros(a) + (ds + Zeros(b))
    ensures LeadZeros(all) == a < |all| && TrimRight(all[a..]) == ds
  {
    LeadZerosOf(a, ds + Zeros(b));
    TrimRightOf(ds, b);
  }

  lemma ReadOfExponent(e: int)
    ensures ReadExponent(Exponent(e)) == Some(e)
  {
    ParseOfDecimal(if e >= 0 then e else -e);
    assert Exponent(e)[1..] == Decimal(if e >= 0 then e else -e);
  }

  /** t is number text and is read as the number with these parts. */
  ghost predicate Reads(t: Text, neg: bool, ds: Text, point: int) {
    && t != [] && IsDigit(t[0]) && AllNumberUnits(t)
    && ReadMagnitude(neg, t) == Some(Finite(neg, ds, point))
  }

  /** The forms without an exponent. */
  lemma ReadPlain(neg: bool, t: Text, whole: Text, frac: Text, ds: Text, a: nat, b: nat, point: int)
    requires Significant(ds) && whole != [] && AllDigits(whole) && AllDigits(frac)
    requires t == if frac == [] then whole else whole + [DOT] + frac
    requires whole + frac == Zeros(a) + (ds + Zeros(b))
    requires point == |whole| - a
    ensures Reads(t, neg, ds, point)
  {
    PlainUnits(t, whole, frac);
    ReadPadded(neg, t, 0, whole, frac, ds, a, b);
    ReadUnsplit(neg, t);
  }

  lemma PlainUnits(t: Text, whole: Text, frac: Text)
    requires whole != [] && AllDigits(whole) && AllDigits(frac)
    requires t == if frac == [] then whole else whole + [DOT] + frac
    ensures AllNumberUnits(t) && EXP !in t && t != [] && IsDigit(t[0])
  {
  }

  /** Text without the letter is all mantissa. */
  lemma ReadUnsplit(neg: bool, t: Text)
    requires EXP !in t
    ensures ReadMagnitude(neg, t) == ReadMantissa(neg, t, 0)
  {
    IndexOfAppend(t, EXP, []);
    assert t + [] == t;
  }

  lemma MantissaUnits(ds: Text)
    requires Significant(ds)
    ensures AllNumberUnits(Mantissa(ds)) && EXP !in Mantissa(ds) && Mantissa(ds)[0] == ds[0]
  {
  }

  lemma ReadScientific(neg: bool, ds: Text, point: int, t: Text)
    requires Significant(ds) && t == Scientific(ds, point - 1)
    ensures Reads(t, neg, ds, point)
  {
    MantissaUnits(ds);
    ReadOfExponent(point - 1);
    MantissaRead(neg, ds, point - 1);
    ReadSplit(neg, Mantissa(ds), Exponent(point - 1), point - 1, t);
    ScientificUnits(Mantissa(ds), point - 1, t);
  }

  lemma ScientificUnits(m: Text, e: int, t: Text)
    requires m != [] && AllNumberUnits(m) && t == m + [EXP] + Exponent(e)
    ensures AllNumberUnits(t) && t != [] && t[0] == m[0]
  {
    assert AllNumberUnits(Exponent(e));
  }

  /** Mantissa and exponent are read apart at the letter between them. */
  lemma ReadSplit(neg: bool, m: Text, x: Text, e: int, t: Text)
    requires EXP !in m && t == m + [EXP] + x && ReadExponent(x) == Some(e)
    ensures ReadMagnitude(neg, t) == ReadMantissa(neg, m, e)
  {
    IndexOfAppend(m, EXP, x);
    assert t[..|m|] == m && t[|m| + 1..] == x;
  }

  lemma MantissaRead(neg: bool, ds: Text, e: int)
    requires Significant(ds)
    ensures ReadMantissa(neg, Mantissa(ds), e) == Some(Finite(neg, ds, 1 + e))
  {
    assert ds[..1] + ds[1..] == Zeros(0) + (ds + Zeros(0));
    assert |ds| == 1 ==> ds[..1] == ds && ds[1..] == [];
    ReadPadded(neg, Mantissa(ds), e, ds[..1], ds[1..], ds, 0, 0);
  }

  /** The forms of Magnitude, each as the concatenation that ReadPlain takes. */
  lemma ReadInteger(neg: bool, ds: Text, point: int, t: Text)
    requires Significant(ds) && |ds| <= point && t == ds + Zeros(point - |ds|)
    ensures Reads(t, neg, ds, point)
  {
    assert t + [] == Zeros(0) + (ds + Zeros(point - |ds|));
    ReadPlain(neg, t, t, [], ds, 0, point - |ds|, point);
  }

  lemma ReadPointed(neg: bool, ds: Text, point: int, t: Text)
    requires Significant(ds) && 0 < point < |ds| && t == ds[..point] + [DOT] + ds[point..]
    ensures Reads(t, neg, ds, point)
  {
    var whole, frac := ds[..point], ds[point..];
    assert whole + frac == ds;
    assert Zeros(0) + (ds + Zeros(0)) == ds;
    ReadPlain(neg, t, whole, frac, ds, 0, 0, point);
  }

  lemma ReadFraction(neg: bool, ds: Text, point: int, t: Text)
    requires Significant(ds) && point <= 0 && t == [ZERO] + [DOT] + (Zeros(-point) + ds)
    ensures Reads(t, neg, ds, point)
  {
    var frac := Zeros(-point) + ds;
    assert [ZERO] + frac == Zeros(1 - point) + (ds + Zeros(0));
    ReadPlain(neg, t, [ZERO], frac, ds, 1 - point, 0, point);
  }

  lemma ReadOfMagnitude(neg: bool, ds: Text, point: int)
    requires Significant(ds)
    ensures Reads(Magnitude(ds, point), neg, ds, point)
  {
    var t := Magnitude(ds, point);
    if |ds| <= point <= 21 {
      ReadInteger(neg, ds, point, t);
    } else if 0 < point <= 21 {
      ReadPointed(neg, ds, point, t);
    } else if -6 < point <= 0 {
      ReadFraction(neg, ds, point, t);
    } else {
      ReadScientific(neg, ds, point, t);
    }
  }

  lemma ReadOfZero()
    ensures Read([ZERO]) == Some(Zero(false))
  {
    var t: Text := [ZERO];
    IndexOfAppend(t, EXP, []);
    IndexOfAppend(t, DOT, []);
    assert t[..1] == t && t + [] == t;
    assert LeadZeros(t) == 1 + LeadZeros(t[1..]);
  }

  /** A printed number can be read back; only the sign of zero is lost. */
  lemma ReadOfFormat(n: Number)
    requires IsFinite(n) && Valid(n)
    ensures Read(Format(n)) == Some(if n.Zero? then Zero(false) else n)
    ensures AllNumberUnits(Format(n)) && Format(n) != []
    ensures IsDigit(Format(n)[0]) || Format(n)[0] == MINUS
  {
    if n.Zero? {
      ReadOfZero();
    } else {
      var t := Magnitude(n.digits, n.point);
      ReadOfMagnitude(n.neg, n.digits, n.point);
      assert ([MINUS] + t)[1..] == t && [] + t == t;
    }
  }

  // ----- weights: grams as a number of kilograms -----

  /** The number printed for a weight of `grams` thousandths. */
  function OfGrams(neg: bool, grams: nat): (n: Number)
    ensures Valid(n) && IsFinite(n)
  {
    if grams == 0 then Zero(neg)
    else
      var d := Decimal(grams);
      LeadingDigitKept(d);
      Finite(neg, TrimRight(d), |d| - 3)
  }

  lemma LeadingDigitKept(d: Text)
    requires d != [] && AllDigits(d) && d[0] != ZERO
    ensures Significant(TrimRight(d))
  {
    var r := TrimRight(d);
    var z := Zeros(|d| - |r|);
    assert d == r + z;
    assert r[0] == d[0];
  }

  lemma OfGramsInjective(m: bool, g: nat, n: bool, h: nat)
    requires g > 0 && h > 0
    ensures OfGrams(m, g) == OfGrams(n, h) <==> m == n && g == h
  {
    if OfGrams(m, g) == OfGrams(n, h) {
      assert Decimal(g) == Decimal(h);
      ParseOfDecimal(g);
      ParseOfDecimal(h);
    }
  }

  // ----- which notation is written -----

  /** An exponent is written exactly outside the range from 10^-6 to 10^21. */
  lemma ExponentExactlyWhen(n: Number)
    requires n.Finite? && Valid(n)
    ensures EXP in Format(n) <==> !(-5 <= n.point <= 21)
  {
    if -5 <= n.point <= 21 {
      PlainHasNoExponent(n.digits, n.point);
    } else {
      ScientificHasExponent(n.digits, n.point - 1);
    }
  }

  /** Within it there is no zero that does not count: digits and then zeros up to
      the point, or digits on both sides of it, or zeros between it and the digits. */
  lemma PlainForm(n: Number)
    requires n.Finite? && Valid(n) && !n.neg && -5 <= n.point <= 21
    ensures |n.digits| <= n.point ==> Format(n) == n.digits + Zeros(n.point - |n.digits|)
    ensures 0 < n.point < |n.digits| ==> Format(n) == n.digits[..n.point] + Lit(".") + n.digits[n.point..]
    ensures n.point <= 0 ==> Format(n) == Lit("0.") + Zeros(-n.point) + n.digits
  {
    var m := Magnitude(n.digits, n.point);
    assert [] + m == m && Lit(".") == [DOT] && Lit("0.") == [ZERO] + [DOT];
  }

  /** The sign comes first, and zero has none. */
  lemma SignForm(n: Number)
    requires n.Finite? && Valid(n) && n.neg
    ensures Format(n) == Lit("-") + Format(n.(neg := false))
    ensures Format(Zero(true)) == Format(Zero(false)) == Lit("0")
  {
    var m := Magnitude(n.digits, n.point);
    assert [] + m == m && Lit("-") == [MINUS];
  }

  /** Then it is the digits with a point after the first, the letter, the sign, and
      the power of ten of the first digit. */
  lemma ExponentForm(n: Number, e: int)
    requires n.Finite? && Valid(n) && !n.neg && e == n.point - 1 && !(-6 <= e <= 20)
    ensures Format(n) == (if |n.digits| == 1 then n.digits else n.digits[..1] + Lit(".") + n.digits[1..])
                       + Lit(if e >= 0 then "e+" else "e-") + Decimal(if e >= 0 then e else -e)
  {
    ScientificHasExponent(n.digits, e);
    WrittenScientific(n, e);
  }

  lemma WrittenScientific(n: Number, e: int)
    requires n.Finite? && Valid(n) && !n.neg && e == n.point - 1 && !(-6 <= e <= 20)
    ensures Format(n) == Scientific(n.digits, e)
  {
    var m := Magnitude(n.digits, n.point);
    assert [] + m == m;
  }

  lemma PlainHasNoExponent(ds: Text, point: int)
    requires Significant(ds) && -5 <= point <= 21
    ensures EXP !in Magnitude(ds, point)
  {
  }

  lemma ScientificHasExponent(ds: Text, e: int)
    requires Significant(ds)
    ensures EXP in Scientific(ds, e)
    ensures Scientific(ds, e) == (if |ds| == 1 then ds else ds[..1] + Lit(".") + ds[1..])
                               + Lit(if e >= 0 then "e+" else "e-") + Decimal(if e >= 0 then e else -e)
  {
    var m, x := Mantissa(ds), Decimal(if e >= 0 then e else -e);
    assert (m + [EXP])[|m|] == EXP;
    assert Lit(".") == [DOT] && Lit(if e >= 0 then "e+" else "e-") == [EXP, if e >= 0 then PLUS else MINUS];
    assert m + [EXP] + ([if e >= 0 then PLUS else MINUS] + x) == m + [EXP, if e >= 0 then PLUS else MINUS] + x;
  }
}
