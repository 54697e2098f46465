/** Strings as JavaScript has them, sequences of 16-bit code units, with the
    decimal notation of natural numbers. */
module Text {

  type CodeUnit = x: int | 0 <= x < 0x1_0000
  type Text = seq<CodeUnit>

  const LF: CodeUnit := 10
  const CR: CodeUnit := 13
  const QUOTE: CodeUnit := 34
  const PLUS: CodeUnit := 43
  const COMMA: CodeUnit := 44
  const MINUS: CodeUnit := 45
  const DOT: CodeUnit := 46
  const ZERO: CodeUnit := 48
  const COLON: CodeUnit := 58

  /** The code units of a literal in the Basic Multilingual Plane. */
  function Lit(s: string): (t: Text)
    ensures |t| == |s|
    ensures forall i | 0 <= i < |s| :: s[i] < 128 as char ==> t[i] == s[i] as int
  {
    seq(|s|, i requires 0 <= i < |s| => if s[i] as int < 0x1_0000 then s[i] as int else 0xFFFD)
  }

  lemma Assoc<T>(a: seq<T>, b: seq<T>, c: seq<T>)
    ensures (a + b) + c == a + (b + c)
  {
  }

  predicate IsDigit(u: CodeUnit) {
    48 <= u <= 57
  }

  predicate AllDigits(t: Text) {
    forall i | 0 <= i < |t| :: IsDigit(t[i])
  }

  /** Decimal notation without leading zeros. */
  function Decimal(n: nat): (t: Text)
    ensures |t| > 0 && AllDigits(t)
    ensures t[0] == ZERO ==> n == 0
    ensures n == 0 ==> t == [ZERO]
  {
    if n < 10 then [48 + n] else Decimal(n / 10) + [48 + n % 10]
  }

  function ParseDecimal(t: Text): nat
    requires AllDigits(t)
  {
    if t == [] then 0 else 10 * ParseDecimal(t[..|t| - 1]) + (t[|t| - 1] - 48)
  }

  lemma {:induction false} ParseOfDecimal(n: nat)
    ensures ParseDecimal(Decimal(n)) == n
  {
    var t := Decimal(n);
    if n < 10 {
      assert t[..0] == [];
    } else {
      assert t[..|t| - 1] == Decimal(n / 10);
      ParseOfDecimal(n / 10);
    }
  }

  function Zeros(n: nat): (t: Text)
    ensures |t| == n && AllDigits(t) && forall i | 0 <= i < n :: t[i] == ZERO
  {
    seq(n, i => ZERO)
  }

  lemma {:induction false} LeadingZeros(z: nat, t: Text)
    requires AllDigits(t)
    ensures ParseDecimal(Zeros(z) + t) == ParseDecimal(t)
    decreases z + |t|
  {
    var w := Zeros(z) + t;
    if t != [] {
      assert w[..|w| - 1] == Zeros(z) + t[..|t| - 1];
      LeadingZeros(z, t[..|t| - 1]);
    } else if z > 0 {
      assert w == Zeros(z) && w[..|w| - 1] == Zeros(z - 1) + [];
      LeadingZeros(z - 1, []);
    }
  }

  function Join(parts: seq<Text>, separator: Text): Text {
    if parts == [] then []
    else if |parts| == 1 then parts[0]
    else parts[0] + (separator + Join(parts[1..], separator))
  }
}
