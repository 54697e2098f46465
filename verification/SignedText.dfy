/** The string a device signs, character by character, and what a reader of it
    finds under each name. */
module SignedText {
  import opened Wrappers
  import opened Text
  import opened Sorting
  import opened JsonString
  import JsonNumber
  import Doubles
  import opened Canonical
  import opened WeighIn

  // ----- the weight -----

  /** Three digits. */
  function Three(n: nat): (t: Text)
    requires n < 1000
    ensures |t| == 3 && AllDigits(t)
  {
    [48 + n / 100, 48 + n / 10 % 10, 48 + n % 10]
  }

  /** Kilograms in plain notation: the whole ones, and after a point what is left of
      the three decimals once the zeros at their end are dropped. */
  function KilogramText(g: nat): Text {
    var decimals := JsonNumber.TrimRight(Three(g % 1000));
    Decimal(g / 1000) + if decimals == [] then [] else Lit(".") + decimals
  }

  /** The text of a number of grams, zero having no sign. */
  function WeightText(g: int): Text {
    if g < 0 then Lit("-") + KilogramText(-g) else KilogramText(g)
  }

  lemma ThreePlaces(g: nat)
    ensures g / 10 / 10 == g / 100 && g / 100 / 10 == g / 1000
    ensures g % 10 == g % 1000 % 10 && g / 10 % 10 == g % 1000 / 10 % 10 && g / 100 % 10 == g % 1000 / 100
  {
  }

  lemma DecimalStep(n: nat)
    requires n >= 10
    ensures Decimal(n) == Decimal(n / 10) + [48 + n % 10]
  {
  }

  lemma DecimalSplits(g: nat)
    requires g >= 1000
    ensures Decimal(g) == Decimal(g / 1000) + Three(g % 1000)
  {
    ThreePlaces(g);
    DecimalStep(g);
    DecimalStep(g / 10);
    DecimalStep(g / 100);
    Appended(Decimal(g / 1000), 48 + g % 1000 / 100, 48 + g % 1000 / 10 % 10, 48 + g % 1000 % 10);
  }

  lemma Appended(t: Text, a: CodeUnit, b: CodeUnit, c: CodeUnit)
    ensures t + [a] + [b] + [c] == t + [a, b, c]
  {
  }

  lemma SmallDecimal(g: nat)
    requires 0 < g < 1000
    ensures 1 <= |Decimal(g)| <= 3 && Three(g) == Zeros(3 - |Decimal(g)|) + Decimal(g)
  {
    if g >= 100 {
      assert Decimal(g) == Decimal(g / 10) + [48 + g % 10];
      assert Decimal(g / 10) == Decimal(g / 100) + [48 + g / 10 % 10];
    } else if g >= 10 {
      assert Decimal(g) == Decimal(g / 10) + [48 + g % 10];
    }
  }

  lemma {:induction false} TrimPrefix(a: Text, b: Text)
    requires JsonNumber.TrimRight(b) != []
    ensures JsonNumber.TrimRight(a + b) == a + JsonNumber.TrimRight(b)
    decreases |b|
  {
    var n := |b| - 1;
    assert b == b[..n] + [b[n]];
    assert (a + b)[..|a + b| - 1] == a + b[..n];
    if b[n] == ZERO { TrimPrefix(a, b[..n]); }
  }

  lemma {:induction false} TrimAll(a: Text, b: Text)
    requires JsonNumber.TrimRight(b) == []
    ensures JsonNumber.TrimRight(a + b) == JsonNumber.TrimRight(a)
    decreases |b|
  {
    if b == [] {
      assert a + b == a;
    } else {
      var n := |b| - 1;
      assert b == b[..n] + [b[n]];
      assert (a + b)[..|a + b| - 1] == a + b[..n];
      TrimAll(a, b[..n]);
    }
  }

  lemma TrimSplits(t: Text, r: Text)
    requires r == JsonNumber.TrimRight(t)
    ensures |r| <= |t| && t == r + Zeros(|t| - |r|)
  {
  }

  lemma FractionKilograms(g: nat, d: Text, r: Text)
    requires 0 < g < 1000 && d == Decimal(g) && r == JsonNumber.TrimRight(d)
    ensures |d| <= 3 && KilogramText(g) == Lit("0.") + Zeros(3 - |d|) + r
  {
    SmallDecimal(g);
    LeadingDigit(d);
    TrimPrefix(Zeros(3 - |d|), d);
    ZeroPoint(Zeros(3 - |d|), r);
    assert Decimal(0) == [ZERO];
  }

  lemma ZeroPoint(z: Text, r: Text)
    ensures Lit("0.") + z + r == [ZERO] + (Lit(".") + (z + r))
  {
    assert Lit("0.") == [ZERO] + [DOT] && Lit(".") == [DOT];
  }

  /** Less than a kilogram. */
  lemma FractionText(g: nat)
    requires 0 < g < 1000
    ensures JsonNumber.Format(JsonNumber.OfGrams(false, g)) == KilogramText(g)
  {
    var d := Decimal(g);
    FractionKilograms(g, d, JsonNumber.TrimRight(d));
    JsonNumber.PlainForm(JsonNumber.OfGrams(false, g));
  }

  lemma LeadingDigit(d: Text)
    requires d != [] && AllDigits(d) && d[0] != ZERO
    ensures JsonNumber.TrimRight(d) != []
  {
    JsonNumber.LeadingDigitKept(d);
  }

  /** The digits of the grams with the point three from their end. */
  lemma MixedDigits(g: nat, d: Text, whole: Text, decimals: Text)
    requires 1000 <= g && d == Decimal(g) && whole == Decimal(g / 1000) && decimals == JsonNumber.TrimRight(Three(g % 1000))
    ensures |d| == |whole| + 3
    ensures |JsonNumber.TrimRight(d)| <= |d|
    ensures decimals == [] ==> |JsonNumber.TrimRight(d)| <= |whole|
    ensures decimals == [] ==> whole == JsonNumber.TrimRight(d) + Zeros(|whole| - |JsonNumber.TrimRight(d)|)
    ensures decimals != [] ==> JsonNumber.TrimRight(d) == whole + decimals
  {
    DecimalSplits(g);
    if decimals == [] {
      TrimAll(whole, Three(g % 1000));
      TrimSplits(whole, JsonNumber.TrimRight(d));
    } else {
      TrimPrefix(whole, Three(g % 1000));
    }
  }

  /** Whole kilograms, and a rest. */
  lemma MixedText(g: nat)
    requires 1000 <= g && |Decimal(g)| <= 21
    ensures JsonNumber.Format(JsonNumber.OfGrams(false, g)) == KilogramText(g)
  {
    var whole, decimals := Decimal(g / 1000), JsonNumber.TrimRight(Three(g % 1000));
    MixedDigits(g, Decimal(g), whole, decimals);
    MixedForm(JsonNumber.OfGrams(false, g), whole, decimals);
  }

  lemma MixedForm(n: JsonNumber.Number, whole: Text, decimals: Text)
    requires n.Finite? && JsonNumber.Valid(n) && !n.neg && n.point == |whole| && 0 < |whole| <= 21
    requires decimals == [] ==> |n.digits| <= |whole| && whole == n.digits + Zeros(|whole| - |n.digits|)
    requires decimals != [] ==> n.digits == whole + decimals
    ensures JsonNumber.Format(n) == whole + if decimals == [] then [] else Lit(".") + decimals
  {
    JsonNumber.PlainForm(n);
    if decimals == [] {
      assert whole + [] == whole;
    } else {
      assert n.digits[..|whole|] == whole && n.digits[|whole|..] == decimals;
      Assoc(whole, Lit("."), decimals);
    }
  }

  /** A weighable weight is written in plain notation, grams and nothing more. */
  lemma WeightIsPlain(neg: bool, g: nat)
    requires g < Doubles.DIGITS_15
    ensures JsonNumber.Format(JsonNumber.OfGrams(neg, g)) == WeightText(if neg then 0 - g else g)
  {
    if g == 0 {
      assert Three(0) == Zeros(3) && JsonNumber.TrimRight(Zeros(3)) == [] by { TrimZeros(3); }
      assert [ZERO] + [] == [ZERO];
    } else {
      assert Doubles.Ten(15) == Doubles.DIGITS_15;
      Doubles.DecimalLength(g, 15);
      if g < 1000 { FractionText(g); } else { MixedText(g); }
      if neg { JsonNumber.SignForm(JsonNumber.OfGrams(true, g)); }
    }
  }

  lemma {:induction false} TrimZeros(n: nat)
    ensures JsonNumber.TrimRight(Zeros(n)) == []
  {
    if n > 0 {
      assert Zeros(n)[..n - 1] == Zeros(n - 1);
      TrimZeros(n - 1);
    }
  }

  // ----- the fields -----

  /** The i-th of the nine members in the order of their names. */
  function ListedAt(p: Payload, weight: JsonNumber.Number, i: nat): Member {
    if i == 0 then Member(Lit("capturedAt"), Str(p.capturedAt))
    else if i == 1 then Member(Lit("collectorId"), Str(p.collectorId))
    else if i == 2 then Member(Lit("deviceId"), Str(p.deviceId))
    else if i == 3 then Member(Lit("hubId"), Str(p.hubId))
    else if i == 4 then Member(Lit("material"), Str(p.material))
    else if i == 5 then Member(Lit("nonce"), Str(p.nonce))
    else if i == 6 then Member(Lit("photoHash"), Str(p.photoHash))
    else if i == 7 then Member(Lit("schema"), Str(p.schema))
    else Member(Lit("weightKg"), Num(weight))
  }

  function Listed(p: Payload, weight: JsonNumber.Number): (ms: seq<Member>)
    ensures |ms| == 9 && forall i | 0 <= i < 9 :: ms[i] == ListedAt(p, weight, i)
  {
    seq(9, i requires 0 <= i < 9 => ListedAt(p, weight, i))
  }

  function Unsigned(n: JsonNumber.Number): JsonNumber.Number {
    if n.Zero? then JsonNumber.Zero(false) else n
  }

  lemma FirstLetters(ms: seq<Member>, p: Payload, n: JsonNumber.Number)
    requires ms == Listed(p, n)
    ensures ms[0].key[0] == 'c' as int && ms[1].key[0] == 'c' as int && ms[2].key[0] == 'd' as int
    ensures ms[3].key[0] == 'h' as int && ms[4].key[0] == 'm' as int && ms[5].key[0] == 'n' as int
    ensures ms[6].key[0] == 'p' as int && ms[7].key[0] == 's' as int && ms[8].key[0] == 'w' as int
    ensures ms[0].key[1] == 'a' as int && ms[1].key[1] == 'o' as int
  {
  }

  lemma SmallerFirst(a: seq<int>, b: seq<int>)
    requires a != [] && b != [] && a[0] < b[0]
    ensures LexLe(a, b) && a != b
  {
  }

  lemma SmallerSecond(a: seq<int>, b: seq<int>)
    requires |a| > 1 && |b| > 1 && a[0] == b[0] && a[1] < b[1]
    ensures LexLe(a, b) && a != b
  {
    SmallerFirst(a[1..], b[1..]);
  }

  lemma ListedAscends(ms: seq<Member>, p: Payload, n: JsonNumber.Number)
    requires ms == Listed(p, n)
    ensures Sorted(ms, MemberKey) && DistinctKeys(ms, MemberKey)
  {
    FirstLetters(ms, p, n);
    forall i, j | 0 <= i < j < |ms| ensures LexLe(MemberKey(ms[i]), MemberKey(ms[j])) && MemberKey(ms[i]) != MemberKey(ms[j]) {
      if i == 0 && j == 1 {
        SmallerSecond(ms[0].key, ms[1].key);
      } else {
        assert ms[i].key[0] < ms[j].key[0];
        SmallerFirst(ms[i].key, ms[j].key);
      }
    }
  }

  lemma CanonFields(p: Payload, n: JsonNumber.Number, cs: seq<Member>)
    requires cs == CanonMembers(Fields(p, n))
    ensures |cs| == 9
    ensures var ms := Listed(p, Unsigned(n));
            cs == [ms[7], ms[1], ms[3], ms[2], ms[8], ms[4], ms[0], ms[6], ms[5]]
  {
    var fields, ms := Fields(p, n), Listed(p, Unsigned(n));
    CanonMembersAll(fields);
    forall i | 0 <= i < 9 ensures cs[i] == [ms[7], ms[1], ms[3], ms[2], ms[8], ms[4], ms[0], ms[6], ms[5]][i] {
      assert cs[i] == Member(fields[i].key, Canon(fields[i].value));
    }
  }

  lemma SameNine<T>(ms: seq<T>, cs: seq<T>)
    requires |ms| == 9 && cs == [ms[7], ms[1], ms[3], ms[2], ms[8], ms[4], ms[0], ms[6], ms[5]]
    ensures forall x :: x in ms <==> x in cs
  {
    assert cs[0] == ms[7] && cs[1] == ms[1] && cs[2] == ms[3] && cs[3] == ms[2] && cs[4] == ms[8];
    assert cs[5] == ms[4] && cs[6] == ms[0] && cs[7] == ms[6] && cs[8] == ms[5];
    forall i | 0 <= i < 9 ensures ms[i] in cs && cs[i] in ms {
    }
    forall x ensures x in ms <==> x in cs {
      if x in ms { var i :| 0 <= i < 9 && ms[i] == x; }
      if x in cs { var i :| 0 <= i < 9 && cs[i] == x; }
    }
  }

  /** The canonical form of the payload. */
  lemma CanonIsListed(p: Payload, n: JsonNumber.Number)
    ensures Canon(Obj(Fields(p, n))) == Obj(Listed(p, Unsigned(n)))
  {
    CanonOfObj(Fields(p, n));
    SortedFields(p, n, CanonMembers(Fields(p, n)), Listed(p, Unsigned(n)));
  }

  lemma CanonOfObj(ms: seq<Member>)
    ensures Canon(Obj(ms)) == Obj(Sort(CanonMembers(ms), MemberKey))
  {
  }

  lemma SortedFields(p: Payload, n: JsonNumber.Number, cs: seq<Member>, ms: seq<Member>)
    requires cs == CanonMembers(Fields(p, n)) && ms == Listed(p, Unsigned(n))
    ensures Sort(cs, MemberKey) == ms
  {
    CanonFields(p, n, cs);
    SameNine(ms, cs);
    ListedAscends(ms, p, Unsigned(n));
    FieldsDistinct(Fields(p, n), p, n);
    CanonMembersAll(Fields(p, n));
    SortedArrangement(ms, cs);
  }

  lemma SortedArrangement(ms: seq<Member>, cs: seq<Member>)
    requires Sorted(ms, MemberKey) && DistinctKeys(ms, MemberKey) && DistinctKeys(cs, MemberKey)
    requires forall x :: x in ms <==> x in cs
    ensures Sort(cs, MemberKey) == ms
  {
    DistinctPermutation(ms, cs, MemberKey);
    DistinctDetermines(ms, MemberKey);
    SortSorted(cs, MemberKey);
    SortedUnique(ms, Sort(cs, MemberKey), MemberKey);
  }

  // ----- reading it -----

  /** What a reader of the signed text finds: nine names in ascending order, each with
      its own field, and under weightKg the weight's thousandths of a kilogram. */
  lemma SignedFields(p: Payload) returns (ms: seq<Member>, w: JsonNumber.Number)
    requires p.weightKg.Kg?
    ensures CanonicalEventPayload(p).Ok? && Decode(CanonicalEventPayload(p).value) == Some(Obj(ms)) && |ms| == 9
    ensures ms[0] == Member(Lit("capturedAt"), Str(p.capturedAt)) && ms[1] == Member(Lit("collectorId"), Str(p.collectorId))
    ensures ms[2] == Member(Lit("deviceId"), Str(p.deviceId)) && ms[3] == Member(Lit("hubId"), Str(p.hubId))
    ensures ms[4] == Member(Lit("material"), Str(p.material)) && ms[5] == Member(Lit("nonce"), Str(p.nonce))
    ensures ms[6] == Member(Lit("photoHash"), Str(p.photoHash)) && ms[7] == Member(Lit("schema"), Str(p.schema))
    ensures ms[8] == Member(Lit("weightKg"), Num(w))
    ensures forall i, j | 0 <= i < j < 9 :: Before(ms[i].key, ms[j].key)
    ensures Grams(p.weightKg.x) == 0 ==> w == JsonNumber.Zero(false)
    ensures Grams(p.weightKg.x) != 0 ==>
              && w.Finite? && JsonNumber.Valid(w) && (w.neg <==> Grams(p.weightKg.x) < 0)
              && Doubles.Value(w) == Doubles.Kilograms(Magnitude(p.weightKg.x))
  {
    w := Unsigned(Quantise(p.weightKg).value);
    ms := Listed(p, w);
    DecodedFields(p, Quantise(p.weightKg).value);
    ListedAscends(ms, p, w);
    KeysInOrder(ms);
    QuantisedValue(p.weightKg.x);
  }

  lemma KeysInOrder(ms: seq<Member>)
    requires Sorted(ms, MemberKey) && DistinctKeys(ms, MemberKey)
    ensures forall i, j | 0 <= i < j < |ms| :: Before(ms[i].key, ms[j].key)
  {
    forall i, j | 0 <= i < j < |ms| ensures Before(ms[i].key, ms[j].key) {
      LexIsBefore(ms[i].key, ms[j].key);
      assert LexLe(MemberKey(ms[i]), MemberKey(ms[j])) && MemberKey(ms[i]) != MemberKey(ms[j]);
    }
  }

  lemma DecodedFields(p: Payload, n: JsonNumber.Number)
    requires p.weightKg.Kg? && n == Quantise(p.weightKg).value
    ensures CanonicalEventPayload(p).Ok?
    ensures Decode(CanonicalEventPayload(p).value) == Some(Obj(Listed(p, Unsigned(n))))
  {
    PayloadIsValue(p);
    DecodeOfEncode(Obj(Fields(p, n)));
    CanonIsListed(p, n);
  }

  lemma QuantisedValue(x: real)
    ensures var w := Unsigned(Quantise(Kg(x)).value);
            && (Grams(x) == 0 ==> w == JsonNumber.Zero(false))
            && (Grams(x) != 0 ==>
                  && w.Finite? && JsonNumber.Valid(w) && (w.neg <==> Grams(x) < 0)
                  && Doubles.Value(w) == Doubles.Kilograms(Magnitude(x)))
  {
    SignOfGrams(x);
    if Grams(x) != 0 { ValueOfEither(x < 0.0, Magnitude(x)); }
  }

  lemma ValueOfEither(neg: bool, g: nat)
    requires g > 0
    ensures Doubles.Value(JsonNumber.OfGrams(neg, g)) == Doubles.Kilograms(g)
  {
    Doubles.ValueOfGrams(g);
  }

  // ----- writing it -----

  lemma PlainKey(name: string)
    requires Letters(name)
    ensures Quote(Lit(name)) == Lit("\"") + Lit(name) + Lit("\"")
  {
    forall i | 0 <= i < |name| ensures !MustEscape(Lit(name)[i]) {
      assert Letter(name[i]) && Lit(name)[i] == name[i] as int;
    }
    QuotePlain(Lit(name));
    assert Lit("\"") == [QUOTE];
  }

  /** A member as it is written: its name in quotes, a colon, its text. */
  function Written(name: string, text: Text): Text {
    Lit("\"") + Lit(name) + Lit("\"") + (Lit(":") + text)
  }

  lemma WrittenMember(name: string, v: Value)
    requires Letters(name)
    ensures MemberText(Member(Lit(name), v)) == Written(name, Print(v))
  {
    PlainKey(name);
  }

  lemma NineAre<T>(xs: seq<T>, a: T, b: T, c: T, d: T, e: T, f: T, g: T, h: T, i: T)
    requires |xs| == 9 && xs[0] == a && xs[1] == b && xs[2] == c && xs[3] == d && xs[4] == e
    requires xs[5] == f && xs[6] == g && xs[7] == h && xs[8] == i
    ensures xs == [a, b, c, d, e, f, g, h, i]
  {
  }

  lemma ListedTexts(p: Payload, n: JsonNumber.Number, texts: seq<Text>)
    requires JsonNumber.IsFinite(n) && texts == Map(Listed(p, n), MemberText)
    ensures |texts| == 9
    ensures texts[0] == Written("capturedAt", Quote(p.capturedAt)) && texts[1] == Written("collectorId", Quote(p.collectorId))
    ensures texts[2] == Written("deviceId", Quote(p.deviceId)) && texts[3] == Written("hubId", Quote(p.hubId))
    ensures texts[4] == Written("material", Quote(p.material)) && texts[5] == Written("nonce", Quote(p.nonce))
    ensures texts[6] == Written("photoHash", Quote(p.photoHash)) && texts[7] == Written("schema", Quote(p.schema))
    ensures texts[8] == Written("weightKg", JsonNumber.Format(n))
  {
    FirstTexts(p, n, texts);
    MiddleTexts(p, n, texts);
    LastTexts(p, n, texts);
  }

  lemma FirstTexts(p: Payload, n: JsonNumber.Number, texts: seq<Text>)
    requires texts == Map(Listed(p, n), MemberText)
    ensures texts[0] == Written("capturedAt", Quote(p.capturedAt)) && texts[1] == Written("collectorId", Quote(p.collectorId))
    ensures texts[2] == Written("deviceId", Quote(p.deviceId))
  {
    NamesAreLetters();
    TextAt(p, n, texts, 0, "capturedAt", Str(p.capturedAt));
    TextAt(p, n, texts, 1, "collectorId", Str(p.collectorId));
    TextAt(p, n, texts, 2, "deviceId", Str(p.deviceId));
  }

  lemma MiddleTexts(p: Payload, n: JsonNumber.Number, texts: seq<Text>)
    requires texts == Map(Listed(p, n), MemberText)
    ensures texts[3] == Written("hubId", Quote(p.hubId)) && texts[4] == Written("material", Quote(p.material))
    ensures texts[5] == Written("nonce", Quote(p.nonce))
  {
    NamesAreLetters();
    TextAt(p, n, texts, 3, "hubId", Str(p.hubId));
    TextAt(p, n, texts, 4, "material", Str(p.material));
    TextAt(p, n, texts, 5, "nonce", Str(p.nonce));
  }

  lemma LastTexts(p: Payload, n: JsonNumber.Number, texts: seq<Text>)
    requires JsonNumber.IsFinite(n) && texts == Map(Listed(p, n), MemberText)
    ensures texts[6] == Written("photoHash", Quote(p.photoHash)) && texts[7] == Written("schema", Quote(p.schema))
    ensures texts[8] == Written("weightKg", JsonNumber.Format(n))
  {
    NamesAreLetters();
    TextAt(p, n, texts, 6, "photoHash", Str(p.photoHash));
    TextAt(p, n, texts, 7, "schema", Str(p.schema));
    TextAt(p, n, texts, 8, "weightKg", Num(n));
  }

  predicate Letter(c: char) {
    'A' <= c <= 'Z' || 'a' <= c <= 'z'
  }

  predicate Letters(s: string) {
    forall i | 0 <= i < |s| :: Letter(s[i])
  }

  lemma NamesAreLetters()
    ensures Letters("capturedAt") && Letters("collectorId") && Letters("deviceId") && Letters("hubId")
    ensures Letters("material") && Letters("nonce") && Letters("photoHash") && Letters("schema") && Letters("weightKg")
  {
  }

  lemma TextAt(p: Payload, n: JsonNumber.Number, texts: seq<Text>, i: nat, name: string, v: Value)
    requires i < 9 && texts == Map(Listed(p, n), MemberText) && ListedAt(p, n, i) == Member(Lit(name), v) && Letters(name)
    ensures texts[i] == Written(name, Print(v))
  {
    WrittenMember(name, v);
  }

  /** The signed text in full, for every payload of weighable weight. */
  lemma SignedTextIs(p: Payload)
    requires p.weightKg.Kg? && Weighable(p.weightKg.x)
    ensures CanonicalEventPayload(p)
         == Ok(Lit("{") + (Join([ Written("capturedAt", Quote(p.capturedAt)), Written("collectorId", Quote(p.collectorId)),
                                  Written("deviceId", Quote(p.deviceId)), Written("hubId", Quote(p.hubId)),
                                  Written("material", Quote(p.material)), Written("nonce", Quote(p.nonce)),
                                  Written("photoHash", Quote(p.photoHash)), Written("schema", Quote(p.schema)),
                                  Written("weightKg", WeightText(Grams(p.weightKg.x))) ], Lit(",")) + Lit("}")))
  {
    var n := Quantise(p.weightKg).value;
    var texts := Map(Listed(p, Unsigned(n)), MemberText);
    WeightAsWritten(p.weightKg.x);
    TextOfParts(p, n, texts);
    ListedTexts(p, Unsigned(n), texts);
    NineAre(texts, Written("capturedAt", Quote(p.capturedAt)), Written("collectorId", Quote(p.collectorId)),
            Written("deviceId", Quote(p.deviceId)), Written("hubId", Quote(p.hubId)),
            Written("material", Quote(p.material)), Written("nonce", Quote(p.nonce)),
            Written("photoHash", Quote(p.photoHash)), Written("schema", Quote(p.schema)),
            Written("weightKg", WeightText(Grams(p.weightKg.x))));
  }

  lemma TextOfParts(p: Payload, n: JsonNumber.Number, texts: seq<Text>)
    requires p.weightKg.Kg? && n == Quantise(p.weightKg).value && texts == Map(Listed(p, Unsigned(n)), MemberText)
    ensures CanonicalEventPayload(p) == Ok(Lit("{") + (Join(texts, Lit(",")) + Lit("}")))
  {
    PayloadIsValue(p);
    EncodeIsPrint(Obj(Fields(p, n)));
    CanonIsListed(p, n);
    PrintedText([], Listed(p, Unsigned(n)), []);
  }

  lemma WeightAsWritten(x: real)
    requires Weighable(x)
    ensures JsonNumber.IsFinite(Unsigned(Quantise(Kg(x)).value))
    ensures JsonNumber.Format(Unsigned(Quantise(Kg(x)).value)) == WeightText(Grams(x))
  {
    SignOfGrams(x);
    WeightIsPlain(Grams(x) < 0, Magnitude(x));
    UnsignedQuantised(x);
  }

  lemma UnsignedQuantised(x: real)
    ensures Unsigned(Quantise(Kg(x)).value) == JsonNumber.OfGrams(Grams(x) < 0, Magnitude(x))
  {
    SignOfGrams(x);
  }
}
