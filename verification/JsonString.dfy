/**
 JSON.stringify on strings (QuoteJSONString, section 25.5.2.3 of ECMA-262): the
 two-character escapes, \uXXXX in lower case for the other control characters
 and for surrogates outside a pair, everything else as it is.
 */
module JsonString {
  import opened Wrappers
  import opened Text

  const BACKSLASH: CodeUnit := 92
  const LOWER_U: CodeUnit := 117

  predicate HighSurrogate(u: CodeUnit) {
    0xD800 <= u <= 0xDBFF
  }

  predicate LowSurrogate(u: CodeUnit) {
    0xDC00 <= u <= 0xDFFF
  }

  function HexDigit(d: int): CodeUnit
    requires 0 <= d < 16
  {
    if d < 10 then 48 + d else 87 + d
  }

  function UnicodeEscape(u: CodeUnit): Text {
    [BACKSLASH, LOWER_U, HexDigit(u / 4096), HexDigit(u / 256 % 16), HexDigit(u / 16 % 16), HexDigit(u % 16)]
  }

  function EscapeUnit(u: CodeUnit): Text {
    if u == 8 then [BACKSLASH, 98]
    else if u == 9 then [BACKSLASH, 116]
    else if u == 10 then [BACKSLASH, 110]
    else if u == 12 then [BACKSLASH, 102]
    else if u == 13 then [BACKSLASH, 114]
    else if u == QUOTE || u == BACKSLASH then [BACKSLASH, u]
    else if u < 32 || HighSurrogate(u) || LowSurrogate(u) then UnicodeEscape(u)
    else [u]
  }

  function Escape(s: Text): Text {
    if s == [] then []
    else if |s| > 1 && HighSurrogate(s[0]) && LowSurrogate(s[1]) then [s[0]] + ([s[1]] + Escape(s[2..]))
    else EscapeUnit(s[0]) + Escape(s[1..])
  }

  function Quote(s: Text): Text {
    [QUOTE] + Escape(s) + [QUOTE]
  }

  // ----- reading a string body -----

  datatype Parsed<+T> = Parsed(value: T, rest: Text)

  function HexValue(u: CodeUnit): Option<int> {
    if 48 <= u <= 57 then Some(u - 48) else if 97 <= u <= 102 then Some(u - 87) else None
  }

  /** One character of a string body: a raw unit or an escape. */
  function ReadUnit(t: Text): (r: Option<Parsed<CodeUnit>>)
    ensures r.Some? ==> |r.value.rest| < |t|
  {
    if t == [] || t[0] == QUOTE || t[0] < 32 then None
    else if t[0] != BACKSLASH then Some(Parsed(t[0], t[1..]))
    else if |t| < 2 then None
    else if t[1] == 98 then Some(Parsed(8, t[2..]))
    else if t[1] == 116 then Some(Parsed(9, t[2..]))
    else if t[1] == 110 then Some(Parsed(10, t[2..]))
    else if t[1] == 102 then Some(Parsed(12, t[2..]))
    else if t[1] == 114 then Some(Parsed(13, t[2..]))
    else if t[1] == QUOTE || t[1] == BACKSLASH then Some(Parsed(t[1], t[2..]))
    else if t[1] == LOWER_U && |t| >= 6 then
      match (HexValue(t[2]), HexValue(t[3]), HexValue(t[4]), HexValue(t[5]))
      case (Some(a), Some(b), Some(c), Some(d)) =>
        var u := ((a * 16 + b) * 16 + c) * 16 + d;
        if 0 <= u < 0x1_0000 then Some(Parsed(u, t[6..])) else None
      case _ => None
    else None
  }

  /** The rest of a string after its opening quote. */
  function ReadBody(t: Text): (r: Option<Parsed<Text>>)
    ensures r.Some? ==> |r.value.rest| < |t|
    decreases |t|
  {
    if t == [] then None
    else if t[0] == QUOTE then Some(Parsed([], t[1..]))
    else
      var u := ReadUnit(t);
      if u.None? then None else
      var more := ReadBody(u.value.rest);
      if more.None? then None else Some(Parsed([u.value.value] + more.value.value, more.value.rest))
  }

  lemma HexDigits(u: CodeUnit)
    ensures u == ((u / 4096 * 16 + u / 256 % 16) * 16 + u / 16 % 16) * 16 + u % 16
  {
    assert u / 16 == u / 256 * 16 + u / 16 % 16;
    assert u / 256 == u / 4096 * 16 + u / 256 % 16;
  }

  lemma ReadUnicodeEscape(u: CodeUnit, t: Text)
    ensures ReadUnit(UnicodeEscape(u) + t) == Some(Parsed(u, t))
  {
    var a, b, c, d := u / 4096, u / 256 % 16, u / 16 % 16, u % 16;
    HexDigits(u);
    assert HexValue(HexDigit(a)) == Some(a) && HexValue(HexDigit(b)) == Some(b);
    assert HexValue(HexDigit(c)) == Some(c) && HexValue(HexDigit(d)) == Some(d);
    assert (UnicodeEscape(u) + t)[6..] == t;
  }

  lemma ReadEscapedUnit(u: CodeUnit, t: Text)
    ensures ReadUnit(EscapeUnit(u) + t) == Some(Parsed(u, t))
    ensures EscapeUnit(u)[0] != QUOTE
  {
    var e := EscapeUnit(u);
    if |e| == 1 {
      assert (e + t)[1..] == t;
    } else if |e| == 2 {
      assert (e + t)[2..] == t;
    } else {
      ReadUnicodeEscape(u, t);
    }
  }

  lemma ReadRawUnit(u: CodeUnit, t: Text)
    requires u >= 32 && u != QUOTE && u != BACKSLASH
    ensures ReadUnit([u] + t) == Some(Parsed(u, t))
  {
    assert ([u] + t)[1..] == t;
  }

  lemma ReadBodyStep(e: Text, u: CodeUnit, t: Text, s: Text, rest: Text)
    requires e != [] && e[0] != QUOTE
    requires ReadUnit(e + t) == Some(Parsed(u, t)) && ReadBody(t) == Some(Parsed(s, rest))
    ensures ReadBody(e + t) == Some(Parsed([u] + s, rest))
  {
  }

  lemma ReadPair(a: CodeUnit, b: CodeUnit, t: Text, s: Text, rest: Text)
    requires HighSurrogate(a) && LowSurrogate(b) && ReadBody(t) == Some(Parsed(s, rest))
    ensures ReadBody([a] + ([b] + t)) == Some(Parsed([a] + ([b] + s), rest))
  {
    ReadRawUnit(b, t);
    ReadBodyStep([b], b, t, s, rest);
    ReadRawUnit(a, [b] + t);
    ReadBodyStep([a], a, [b] + t, [b] + s, rest);
  }

  lemma ReadOne(u: CodeUnit, t: Text, s: Text, rest: Text)
    requires ReadBody(t) == Some(Parsed(s, rest))
    ensures ReadBody(EscapeUnit(u) + t) == Some(Parsed([u] + s, rest))
  {
    ReadEscapedUnit(u, t);
    ReadBodyStep(EscapeUnit(u), u, t, s, rest);
  }

  lemma EscapePair(s: Text, t: Text)
    requires |s| > 1 && HighSurrogate(s[0]) && LowSurrogate(s[1])
    ensures Escape(s) + t == [s[0]] + ([s[1]] + (Escape(s[2..]) + t))
  {
    var e := Escape(s[2..]);
    assert Escape(s) == [s[0]] + ([s[1]] + e);
    Assoc([s[0]], [s[1]] + e, t);
    Assoc([s[1]], e, t);
  }

  lemma EscapeOne(s: Text, t: Text)
    requires s != [] && !(|s| > 1 && HighSurrogate(s[0]) && LowSurrogate(s[1]))
    ensures Escape(s) + t == EscapeUnit(s[0]) + (Escape(s[1..]) + t)
  {
    var a, e := EscapeUnit(s[0]), Escape(s[1..]);
    assert Escape(s) == a + e;
    Assoc(a, e, t);
  }

  /** The body of a quoted string is read back, surrogate pairs and lone
      surrogates included. */
  lemma {:induction false} ReadEscaped(s: Text, rest: Text)
    ensures ReadBody(Escape(s) + ([QUOTE] + rest)) == Some(Parsed(s, rest))
    decreases |s|
  {
    var tail := [QUOTE] + rest;
    if s == [] {
      assert Escape(s) + tail == tail && tail[1..] == rest;
    } else if |s| > 1 && HighSurrogate(s[0]) && LowSurrogate(s[1]) {
      var a, b, t := s[0], s[1], s[2..];
      assert s == [a] + ([b] + t);
      ReadEscaped(t, rest);
      ReadPair(a, b, Escape(t) + tail, t, rest);
      EscapePair(s, tail);
    } else {
      var u, t := s[0], s[1..];
      assert s == [u] + t;
      ReadEscaped(t, rest);
      ReadOne(u, Escape(t) + tail, t, rest);
      EscapeOne(s, tail);
    }
  }

  // ----- which form is written -----

  predicate MustEscape(u: CodeUnit) {
    u < 32 || u == 34 || u == 92 || 0xD800 <= u <= 0xDFFF
  }

  /** Seven units have a form of two characters. */
  lemma ShortForms()
    ensures EscapeUnit(8) == Lit("\\b") && EscapeUnit(9) == Lit("\\t") && EscapeUnit(10) == Lit("\\n")
    ensures EscapeUnit(12) == Lit("\\f") && EscapeUnit(13) == Lit("\\r")
    ensures EscapeUnit(34) == Lit("\\\"") && EscapeUnit(92) == Lit("\\\\")
  {
  }

  predicate HasShortForm(u: CodeUnit) {
    8 <= u <= 10 || u == 12 || u == 13 || u == 34 || u == 92
  }

  /** A unit is written as itself unless it must be escaped, and then in its short
      form or as four lower-case hexadecimal digits. */
  lemma EscapedForms(u: CodeUnit)
    ensures EscapeUnit(u) == [u] <==> !MustEscape(u)
    ensures MustEscape(u) && HasShortForm(u) ==> |EscapeUnit(u)| == 2
    ensures MustEscape(u) && !HasShortForm(u) ==> EscapeUnit(u) == UnicodeEscape(u)
    ensures UnicodeEscape(u)[..2] == [92, 117] && |UnicodeEscape(u)| == 6
    ensures forall i | 2 <= i < 6 :: 48 <= UnicodeEscape(u)[i] <= 57 || 97 <= UnicodeEscape(u)[i] <= 102
  {
  }

  /** A surrogate pair is written as it is. */
  lemma PairsAreRaw(a: CodeUnit, b: CodeUnit, s: Text)
    requires 0xD800 <= a <= 0xDBFF && 0xDC00 <= b <= 0xDFFF
    ensures Escape([a, b] + s) == [a, b] + Escape(s)
  {
    assert ([a, b] + s)[2..] == s;
    assert [a] + ([b] + Escape(s)) == [a, b] + Escape(s);
  }

  /** Text without anything to escape is only put in quotes. */
  lemma {:induction false} QuotePlain(s: Text)
    requires forall i | 0 <= i < |s| :: !MustEscape(s[i])
    ensures Escape(s) == s && Quote(s) == [QUOTE] + s + [QUOTE]
  {
    if s != [] {
      QuotePlain(s[1..]);
      assert s == [s[0]] + s[1..];
    }
  }
}
