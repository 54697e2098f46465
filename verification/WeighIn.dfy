/**
 The string a device signs: nine fields, the weight quantised to grams.

 A weight is the exact real value of the double that carries it; toFixed works
 on that value. The quantised number is printed from its grams.
 */
module WeighIn {
  import opened Wrappers
  import opened Text
  import opened Sorting
  import JsonNumber
  import Doubles
  import opened Canonical

  datatype Weight = NonFinite | Kg(x: real)

  datatype Payload = Payload(
    schema: Text,
    collectorId: Text,
    hubId: Text,
    deviceId: Text,
    weightKg: Weight,
    material: Text,
    capturedAt: Text,
    photoHash: Text,
    nonce: Text)

  /** Nearest thousandth, halves away from zero (Number.prototype.toFixed). */
  function Grams(x: real): int {
    if x < 0.0 then -((-x * 1000.0 + 0.5).Floor) else (x * 1000.0 + 0.5).Floor
  }

  function Quantise(w: Weight): Result<JsonNumber.Number, EncodeError> {
    if w.NonFinite? then Err(NonFiniteNumber)
    else
      var g := Grams(w.x);
      Ok(JsonNumber.OfGrams(w.x < 0.0, if g < 0 then -g else g))
  }

  function Fields(p: Payload, weight: JsonNumber.Number): (ms: seq<Member>)
    ensures |ms| == 9
    ensures forall i | 0 <= i < 9 :: if i == 4 then ms[i].value == Num(weight) else ms[i].value.Str?
  {
    [ Member(Lit("schema"), Str(p.schema)),
      Member(Lit("collectorId"), Str(p.collectorId)),
      Member(Lit("hubId"), Str(p.hubId)),
      Member(Lit("deviceId"), Str(p.deviceId)),
      Member(Lit("weightKg"), Num(weight)),
      Member(Lit("material"), Str(p.material)),
      Member(Lit("capturedAt"), Str(p.capturedAt)),
      Member(Lit("photoHash"), Str(p.photoHash)),
      Member(Lit("nonce"), Str(p.nonce)) ]
  }

  function CanonicalEventPayload(p: Payload): Result<Text, EncodeError> {
    var weight := Quantise(p.weightKg);
    if weight.Err? then Err(weight.error) else Encode(Obj(Fields(p, weight.value)))
  }

  /** All nine fields agree, the weights to the gram. */
  predicate Agree(p: Payload, q: Payload)
    requires p.weightKg.Kg? && q.weightKg.Kg?
  {
    && Grams(p.weightKg.x) == Grams(q.weightKg.x)
    && p.(weightKg := q.weightKg) == q
  }

  /** Noise below half a gram does not change the quantised weight. */
  lemma QuantiseAbsorbsNoise(grams: int, noise: real)
    requires -0.0005 < noise < 0.0005
    ensures Grams(grams as real / 1000.0 + noise) == grams
  {
    var x := grams as real / 1000.0 + noise;
    if x < 0.0 {
      assert -grams as real <= -x * 1000.0 + 0.5 < -grams as real + 1.0;
    } else {
      assert grams as real <= x * 1000.0 + 0.5 < grams as real + 1.0;
    }
  }

  /** The quantised weight is a nearest number of grams, and of two the one away from
      zero. */
  lemma QuantiseIsNearest(x: real)
    ensures Grams(x) as real - 0.5 <= x * 1000.0 <= Grams(x) as real + 0.5
    ensures x >= 0.0 ==> x * 1000.0 < Grams(x) as real + 0.5
    ensures x < 0.0 ==> Grams(x) as real - 0.5 < x * 1000.0
  {
  }

  /** The nine names are told apart by their first letter and their length. */
  lemma FieldsDistinct(ms: seq<Member>, p: Payload, weight: JsonNumber.Number)
    requires ms == Fields(p, weight)
    ensures DistinctKeys(ms, MemberKey)
  {
    assert ms[0].key[0] == 's' as int && ms[1].key[0] == 'c' as int && ms[2].key[0] == 'h' as int;
    assert ms[3].key[0] == 'd' as int && ms[4].key[0] == 'w' as int && ms[5].key[0] == 'm' as int;
    assert ms[6].key[0] == 'c' as int && ms[7].key[0] == 'p' as int && ms[8].key[0] == 'n' as int;
    assert |ms[1].key| == 11 && |ms[6].key| == 10;
    forall i, j | 0 <= i < j < |ms| ensures MemberKey(ms[i]) != MemberKey(ms[j]) {
      assert ms[i].key[0] != ms[j].key[0] || |ms[i].key| != |ms[j].key|;
      assert MemberKey(ms[i])[0] == ms[i].key[0] && MemberKey(ms[j])[0] == ms[j].key[0];
    }
  }

  lemma FieldsWellFormed(p: Payload, weight: JsonNumber.Number)
    requires JsonNumber.Valid(weight)
    ensures WellFormed(Obj(Fields(p, weight)))
    ensures JsonNumber.IsFinite(weight) ==> Encodable(Obj(Fields(p, weight)))
  {
    var ms := Fields(p, weight);
    FieldsDistinct(ms, p, weight);
    forall m | m in ms ensures WellFormed(m.value) && (JsonNumber.IsFinite(weight) ==> Encodable(m.value)) {
      var i :| 0 <= i < |ms| && ms[i] == m;
    }
  }

  lemma {:induction false} MeanPointwise(ms: seq<Member>, ns: seq<Member>)
    requires |ms| == |ns|
    requires forall i | 0 <= i < |ms| :: ms[i].key == ns[i].key && Mean(ms[i].value) == Mean(ns[i].value)
    ensures MeanMembers(ms) == MeanMembers(ns)
  {
    if ms != [] { MeanPointwise(ms[1..], ns[1..]); }
  }

  lemma SameKeysMeaning(ms: seq<Member>, ns: seq<Member>)
    requires DistinctKeys(ms, MemberKey) && DistinctKeys(ns, MemberKey)
    requires |ms| == |ns| && forall i | 0 <= i < |ms| :: ms[i].key == ns[i].key
    ensures MeanMembers(ms) == MeanMembers(ns)
       <==> forall i | 0 <= i < |ms| :: Mean(ms[i].value) == Mean(ns[i].value)
  {
    MeanMembersIs(ms);
    MeanMembersIs(ns);
    if forall i | 0 <= i < |ms| :: Mean(ms[i].value) == Mean(ns[i].value) {
      MeanPointwise(ms, ns);
    } else {
      var i :| 0 <= i < |ms| && Mean(ms[i].value) != Mean(ns[i].value);
      assert MeanMembers(ms)[ms[i].key] != MeanMembers(ns)[ns[i].key];
    }
  }

  lemma FieldKeys(p: Payload, v: JsonNumber.Number, q: Payload, w: JsonNumber.Number, ms: seq<Member>, ns: seq<Member>)
    requires ms == Fields(p, v) && ns == Fields(q, w)
    ensures |ms| == |ns| && forall i | 0 <= i < |ms| :: ms[i].key == ns[i].key
  {
  }

  lemma FieldsMeaning(p: Payload, v: JsonNumber.Number, q: Payload, w: JsonNumber.Number, ms: seq<Member>, ns: seq<Member>)
    requires ms == Fields(p, v) && ns == Fields(q, w)
    requires JsonNumber.Valid(v) && JsonNumber.Valid(w)
    ensures MeanMembers(ms) == MeanMembers(ns)
       <==> Mean(Num(v)) == Mean(Num(w)) && p.(weightKg := q.weightKg) == q
  {
    FieldsDistinct(ms, p, v);
    FieldsDistinct(ns, q, w);
    FieldKeys(p, v, q, w, ms, ns);
    FieldValues(p, v, q, w, ms, ns);
    SameKeysMeaning(ms, ns);
  }

  lemma FieldValues(p: Payload, v: JsonNumber.Number, q: Payload, w: JsonNumber.Number, ms: seq<Member>, ns: seq<Member>)
    requires ms == Fields(p, v) && ns == Fields(q, w)
    ensures (forall i | 0 <= i < |ms| :: Mean(ms[i].value) == Mean(ns[i].value))
       <==> Mean(Num(v)) == Mean(Num(w)) && p.(weightKg := q.weightKg) == q
  {
    if forall i | 0 <= i < |ms| :: Mean(ms[i].value) == Mean(ns[i].value) {
      SameFields(p, v, q, w, ms, ns);
    } else if p.(weightKg := q.weightKg) == q {
      assert forall i | 0 <= i < |ms| && i != 4 :: ms[i] == ns[i];
    }
  }

  lemma SameFields(p: Payload, v: JsonNumber.Number, q: Payload, w: JsonNumber.Number, ms: seq<Member>, ns: seq<Member>)
    requires ms == Fields(p, v) && ns == Fields(q, w)
    requires forall i | 0 <= i < |ms| :: Mean(ms[i].value) == Mean(ns[i].value)
    ensures Mean(Num(v)) == Mean(Num(w)) && p.(weightKg := q.weightKg) == q
  {
    assert Mean(ms[4].value) == Mean(ns[4].value);
    forall i | 0 <= i < |ms| && i != 4 ensures ms[i].value == ns[i].value {
      assert Mean(ms[i].value) == Mean(ns[i].value);
    }
    assert ms[0].value == ns[0].value && ms[1].value == ns[1].value && ms[2].value == ns[2].value;
    assert ms[3].value == ns[3].value && ms[5].value == ns[5].value && ms[6].value == ns[6].value;
    assert ms[7].value == ns[7].value && ms[8].value == ns[8].value;
  }

  lemma OfGramsMeaning(m: bool, g: nat, n: bool, h: nat)
    ensures Mean(Num(JsonNumber.OfGrams(m, g))) == Mean(Num(JsonNumber.OfGrams(n, h)))
       <==> g == h && (g > 0 ==> m == n)
  {
    if g > 0 && h > 0 { JsonNumber.OfGramsInjective(m, g, n, h); }
  }

  lemma SignOfGrams(x: real)
    ensures (x < 0.0 ==> Grams(x) <= 0) && (x >= 0.0 ==> Grams(x) >= 0)
  {
  }

  lemma GramsMeaning(x: real, y: real)
    ensures Mean(Num(Quantise(Kg(x)).value)) == Mean(Num(Quantise(Kg(y)).value)) <==> Grams(x) == Grams(y)
  {
    var g, h := Grams(x), Grams(y);
    SignOfGrams(x);
    SignOfGrams(y);
    OfGramsMeaning(x < 0.0, if g < 0 then -g else g, y < 0.0, if h < 0 then -h else h);
  }

  lemma PayloadIsValue(p: Payload)
    requires p.weightKg.Kg?
    ensures var v := Obj(Fields(p, Quantise(p.weightKg).value));
            CanonicalEventPayload(p) == Encode(v) && Encode(v).Ok? && WellFormed(v) && Encodable(v)
  {
    var v := Quantise(p.weightKg).value;
    FieldsWellFormed(p, v);
    EncodeOk(Obj(Fields(p, v)));
  }

  /** The payload encodes exactly when its weight is finite, and two payloads
      encode alike exactly when all nine fields agree after quantisation. */
  lemma PayloadEncoding(p: Payload, q: Payload)
    ensures CanonicalEventPayload(p).Ok? <==> p.weightKg.Kg?
    ensures p.weightKg.NonFinite? ==> CanonicalEventPayload(p) == Err(NonFiniteNumber)
    ensures p.weightKg.Kg? && q.weightKg.Kg? ==>
              (CanonicalEventPayload(p) == CanonicalEventPayload(q) <==> Agree(p, q))
  {
    if p.weightKg.Kg? { PayloadIsValue(p); }
    if p.weightKg.Kg? && q.weightKg.Kg? {
      PayloadIsValue(q);
      var v, w := Quantise(p.weightKg).value, Quantise(q.weightKg).value;
      EncodeDecidesMeaning(Obj(Fields(p, v)), Obj(Fields(q, w)));
      FieldsMeaning(p, v, q, w, Fields(p, v), Fields(q, w));
      GramsMeaning(p.weightKg.x, q.weightKg.x);
    }
  }

  // ----- through doubles -----

  /** Below 10^12 kg, where a double still tells grams apart. */
  predicate Weighable(x: real) {
    -Doubles.DIGITS_15 < Grams(x) < Doubles.DIGITS_15
  }

  function Magnitude(x: real): nat {
    if Grams(x) < 0 then -Grams(x) else Grams(x)
  }

  /** What is printed for the quantised weight when its decimal is first rounded to
      a double: the shortest decimal that names that double. */
  ghost predicate PrintsQuantised(f: real -> real, x: real, n: JsonNumber.Number) {
    if Grams(x) == 0 then n == JsonNumber.Zero(x < 0.0)
    else n.Finite? && n.neg == (x < 0.0) && Doubles.Prints(f, f(Doubles.Kilograms(Magnitude(x))), n.(neg := false))
  }

  lemma SignApart(neg: bool, g: nat, n: JsonNumber.Number)
    requires g > 0 && n.Finite?
    ensures n == JsonNumber.OfGrams(neg, g) <==> n.neg == neg && n.(neg := false) == JsonNumber.OfGrams(false, g)
  {
  }

  /** The rounding does not show: what is printed are the grams. */
  lemma RoundingDoesNotShow(f: real -> real, x: real, n: JsonNumber.Number)
    requires Doubles.Rounds(f) && Weighable(x)
    ensures PrintsQuantised(f, x, n) <==> Quantise(Kg(x)) == Ok(n)
  {
    SignOfGrams(x);
    if Grams(x) != 0 && n.Finite? {
      Doubles.DoublesPrintGrams(f, Magnitude(x), n.(neg := false));
      SignApart(x < 0.0, Magnitude(x), n);
    }
  }

  /** What is signed when numbers are doubles. */
  ghost predicate Signs(f: real -> real, p: Payload, t: Text) {
    p.weightKg.Kg? && exists n :: PrintsQuantised(f, p.weightKg.x, n) && Encode(Obj(Fields(p, n))) == Ok(t)
  }

  /** Whichever way a rounding breaks ties, a payload is signed as the text that
      PayloadEncoding is about. */
  lemma SignedThroughDoubles(f: real -> real, p: Payload, t: Text)
    requires Doubles.Rounds(f) && (p.weightKg.Kg? ==> Weighable(p.weightKg.x))
    ensures Signs(f, p, t) <==> CanonicalEventPayload(p) == Ok(t)
  {
    if p.weightKg.Kg? {
      var q := Quantise(p.weightKg);
      RoundingDoesNotShow(f, p.weightKg.x, q.value);
      if n :| PrintsQuantised(f, p.weightKg.x, n) && Encode(Obj(Fields(p, n))) == Ok(t) {
        RoundingDoesNotShow(f, p.weightKg.x, n);
      }
    }
  }

  /** Quantising the quantised double again changes nothing, so a server that
      parses a signed weight and quantises it gets the same grams. */
  lemma QuantiseAgain(f: real -> real, g: nat)
    requires Doubles.Rounds(f) && g < Doubles.DIGITS_15
    ensures Grams(f(Doubles.Kilograms(g))) == g && Grams(-f(Doubles.Kilograms(g))) == 0 - g
  {
    var x := Doubles.Kilograms(g);
    assert x == g as real / 1000.0;
    if g > 0 {
      Doubles.RoundingIsNoise(f, g);
      QuantiseAbsorbsNoise(g, f(x) - x);
      QuantiseAbsorbsNoise(0 - g, x - f(x));
    } else {
      ZeroIsDouble(f);
    }
  }

  lemma ZeroIsDouble(f: real -> real)
    requires Doubles.Rounds(f)
    ensures f(0.0) == 0.0
  {
    Doubles.IsDoubleAt(0, 0);
    assert Doubles.Nearest(0.0, f(0.0));
    assert Doubles.Abs(0.0 - f(0.0)) <= Doubles.Abs(0.0 - 0.0);
  }
}
