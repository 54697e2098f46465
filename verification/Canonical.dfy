/**
 The canonical encoder: JSON with sorted keys, no white space, -0 written as 0.

 An object lists its members in insertion order, which the encoder must not let
 show. `Meaning` is the same data with objects as finite maps; the encoding
 decides exactly that meaning.
 */
module Canonical {
  import opened Wrappers
  import opened Text
  import opened JsonNumber
  import opened JsonString
  import opened Sorting

  datatype Value =
    | Null
    | Bool(b: bool)
    | Num(n: Number)
    | Str(s: Text)
    | Arr(items: seq<Value>)
    | Obj(members: seq<Member>)
    | Undefined
    | Unsupported   // function, symbol or bigint

  datatype Member = Member(key: Text, value: Value)

  datatype EncodeError = NonFiniteNumber | UndefinedAtKey(key: Text) | UnsupportedType

  const BEGIN_ARRAY: CodeUnit := 91
  const END_ARRAY: CodeUnit := 93
  const BEGIN_OBJECT: CodeUnit := 123
  const END_OBJECT: CodeUnit := 125
  const NULL_TEXT: Text := [110, 117, 108, 108]
  const TRUE_TEXT: Text := [116, 114, 117, 101]
  const FALSE_TEXT: Text := [102, 97, 108, 115, 101]

  function MemberKey(m: Member): seq<int> {
    m.key
  }

  // ----- the code -----

  datatype Entry = Entry(key: Text, text: Result<Text, EncodeError>)

  function EntryKey(e: Entry): seq<int> {
    e.key
  }

  function EntryText(e: Entry): Result<Text, EncodeError> {
    if e.text.Err? then e.text else Ok(Quote(e.key) + ([COLON] + e.text.value))
  }

  /** The first error in order, or all the texts. */
  function Collect(rs: seq<Result<Text, EncodeError>>): Result<seq<Text>, EncodeError> {
    if rs == [] then Ok([])
    else if rs[0].Err? then Err(rs[0].error)
    else
      var more := Collect(rs[1..]);
      if more.Err? then more else Ok([rs[0].value] + more.value)
  }

  /** An object's members by key, the first error in that order winning. */
  function EncodeSorted(es: seq<Entry>): Result<Text, EncodeError> {
    var parts := Collect(Map(Sort(es, EntryKey), EntryText));
    if parts.Err? then Err(parts.error) else Ok([BEGIN_OBJECT] + (Join(parts.value, [COMMA]) + [END_OBJECT]))
  }

  function Encode(v: Value): Result<Text, EncodeError>
    decreases v, 1
  {
    match v
    case Null => Ok(NULL_TEXT)
    case Bool(b) => Ok(if b then TRUE_TEXT else FALSE_TEXT)
    case Num(n) => if IsFinite(n) then Ok(Format(n)) else Err(NonFiniteNumber)
    case Str(s) => Ok(Quote(s))
    case Arr(items) =>
      var parts := Collect(EncodeItems(items));
      if parts.Err? then Err(parts.error) else Ok([BEGIN_ARRAY] + (Join(parts.value, [COMMA]) + [END_ARRAY]))
    case Obj(members) => EncodeSorted(EncodeMembers(members))
    case Undefined => Err(UnsupportedType)
    case Unsupported => Err(UnsupportedType)
  }

  function EncodeItems(items: seq<Value>): (rs: seq<Result<Text, EncodeError>>)
    ensures |rs| == |items|
    decreases items, 0
  {
    if items == [] then [] else [Encode(items[0])] + EncodeItems(items[1..])
  }

  function EncodeMembers(ms: seq<Member>): (es: seq<Entry>)
    ensures |es| == |ms|
    decreases ms, 0
  {
    if ms == [] then []
    else
      var m := ms[0];
      [Entry(m.key, if m.value.Undefined? then Err(UndefinedAtKey(m.key)) else Encode(m.value))] + EncodeMembers(ms[1..])
  }

  // ----- which values encode -----

  predicate Encodable(v: Value) {
    match v
    case Num(n) => IsFinite(n)
    case Arr(items) => forall x | x in items :: Encodable(x)
    case Obj(members) => forall m | m in members :: Encodable(m.value)
    case Undefined => false
    case Unsupported => false
    case _ => true
  }

  /** What holds of every JavaScript value: an object has one member per key. */
  predicate WellFormed(v: Value) {
    match v
    case Num(n) => Valid(n)
    case Arr(items) => forall x | x in items :: WellFormed(x)
    case Obj(members) => DistinctKeys(members, MemberKey) && forall m | m in members :: WellFormed(m.value)
    case _ => true
  }

  lemma {:induction false} CollectOk(rs: seq<Result<Text, EncodeError>>)
    ensures Collect(rs).Ok? <==> forall r | r in rs :: r.Ok?
  {
    if rs != [] {
      CollectOk(rs[1..]);
      assert rs == [rs[0]] + rs[1..];
    }
  }

  lemma {:induction false} EncodeItemsAt(items: seq<Value>, i: nat)
    requires i < |items|
    ensures EncodeItems(items)[i] == Encode(items[i])
  {
    if i > 0 { EncodeItemsAt(items[1..], i - 1); }
  }

  /** Encoding throws on a non-finite number or an unsupported value at any
      depth, and on nothing else. */
  lemma {:induction false} EncodeOk(v: Value)
    ensures Encode(v).Ok? <==> Encodable(v)
    decreases v, 1
  {
    match v
    case Arr(items) =>
      var rs := EncodeItems(items);
      CollectOk(rs);
      forall i | 0 <= i < |items| ensures rs[i].Ok? <==> Encodable(items[i]) {
        EncodeItemsAt(items, i);
        EncodeOk(items[i]);
      }
      assert (forall r | r in rs :: r.Ok?) <==> forall i | 0 <= i < |rs| :: rs[i].Ok?;
    case Obj(members) =>
      EncodeObjOk(members);
    case _ =>
  }

  predicate AllTextsOk(es: seq<Entry>) {
    forall e | e in es :: e.text.Ok?
  }

  lemma {:induction false} EncodeObjOk(ms: seq<Member>)
    ensures Encode(Obj(ms)).Ok? <==> forall m | m in ms :: Encodable(m.value)
    decreases ms, 1
  {
    EncodeSortedOk(EncodeMembers(ms));
    EntriesOk(ms);
  }

  lemma EncodeSortedOk(es: seq<Entry>)
    ensures EncodeSorted(es).Ok? <==> AllTextsOk(es)
  {
    CollectOk(Map(Sort(es, EntryKey), EntryText));
    SortedTextsOk(es);
  }

  lemma {:induction false} EntriesOk(ms: seq<Member>)
    ensures AllTextsOk(EncodeMembers(ms)) <==> forall m | m in ms :: Encodable(m.value)
    decreases ms, 0
  {
    if ms != [] {
      EncodeOk(ms[0].value);
      EntriesOk(ms[1..]);
      var es := EncodeMembers(ms);
      assert es == [es[0]] + es[1..] && es[1..] == EncodeMembers(ms[1..]) && ms == [ms[0]] + ms[1..];
      assert es[0].text.Ok? <==> Encodable(ms[0].value);
    }
  }

  lemma SortedTextsOk(es: seq<Entry>)
    ensures (forall r | r in Map(Sort(es, EntryKey), EntryText) :: r.Ok?) <==> AllTextsOk(es)
  {
    var sorted := Sort(es, EntryKey);
    var rs := Map(sorted, EntryText);
    InSort(es, EntryKey);
    if forall r | r in rs :: r.Ok? {
      forall e | e in es ensures e.text.Ok? {
        assert e in sorted;
        var k :| 0 <= k < |sorted| && sorted[k] == e;
        assert rs[k] in rs;
      }
    }
  }

  // ----- the canonical form and its printer -----

  /** Keys sorted at every depth, -0 replaced by 0. */
  function Canon(v: Value): Value
    decreases v, 1
  {
    match v
    case Num(n) => if n.Zero? then Num(Zero(false)) else v
    case Arr(items) => Arr(CanonItems(items))
    case Obj(members) => Obj(Sort(CanonMembers(members), MemberKey))
    case _ => v
  }

  function CanonItems(items: seq<Value>): (r: seq<Value>)
    ensures |r| == |items|
    decreases items, 0
  {
    if items == [] then [] else [Canon(items[0])] + CanonItems(items[1..])
  }

  function CanonMembers(ms: seq<Member>): (r: seq<Member>)
    ensures |r| == |ms|
    decreases ms, 0
  {
    if ms == [] then [] else [Member(ms[0].key, Canon(ms[0].value))] + CanonMembers(ms[1..])
  }

  /** Prints a value as it stands, members in the order given. */
  function Print(v: Value): Text
    decreases v, 1
  {
    match v
    case Null => NULL_TEXT
    case Bool(b) => if b then TRUE_TEXT else FALSE_TEXT
    case Num(n) => if IsFinite(n) then Format(n) else []
    case Str(s) => Quote(s)
    case Arr(items) => [BEGIN_ARRAY] + (PrintItems(items) + [END_ARRAY])
    case Obj(members) => [BEGIN_OBJECT] + (PrintMembers(members) + [END_OBJECT])
    case _ => []
  }

  function PrintItems(items: seq<Value>): Text
    decreases items, 0
  {
    if items == [] then []
    else if |items| == 1 then Print(items[0])
    else Print(items[0]) + ([COMMA] + PrintItems(items[1..]))
  }

  function PrintMembers(ms: seq<Member>): Text
    decreases ms, 0
  {
    if ms == [] then []
    else if |ms| == 1 then Quote(ms[0].key) + ([COLON] + Print(ms[0].value))
    else Quote(ms[0].key) + ([COLON] + Print(ms[0].value)) + ([COMMA] + PrintMembers(ms[1..]))
  }

  function PrintedEntry(m: Member): Entry {
    Entry(m.key, Ok(Print(m.value)))
  }

  lemma {:induction false} JoinPrintedMembers(ms: seq<Member>)
    ensures var parts := Collect(Map(Map(ms, PrintedEntry), EntryText));
            parts.Ok? && |parts.value| == |ms| && Join(parts.value, [COMMA]) == PrintMembers(ms)
  {
    var es := Map(ms, PrintedEntry);
    var rs := Map(es, EntryText);
    if ms != [] {
      assert es[1..] == Map(ms[1..], PrintedEntry) && rs[1..] == Map(es[1..], EntryText);
      JoinPrintedMembers(ms[1..]);
      assert rs[0] == Ok(Quote(ms[0].key) + ([COLON] + Print(ms[0].value)));
      var parts := Collect(rs).value;
      assert parts == [rs[0].value] + Collect(rs[1..]).value && parts[1..] == Collect(rs[1..]).value;
    }
  }

  /** The encoder prints the canonical form. */
  lemma {:induction false} EncodeIsPrint(v: Value)
    requires Encodable(v)
    ensures Encode(v) == Ok(Print(Canon(v)))
    decreases v, 1
  {
    match v
    case Arr(items) =>
      EncodeItemsIsPrint(items);
    case Obj(ms) =>
      EncodeMembersIsPrint(ms);
      SortMap(CanonMembers(ms), PrintedEntry, MemberKey, EntryKey);
      JoinPrintedMembers(Sort(CanonMembers(ms), MemberKey));
    case _ =>
  }

  lemma {:induction false} EncodeItemsIsPrint(items: seq<Value>)
    requires forall x | x in items :: Encodable(x)
    ensures var parts := Collect(EncodeItems(items));
            parts.Ok? && |parts.value| == |items| && Join(parts.value, [COMMA]) == PrintItems(CanonItems(items))
    decreases items, 0
  {
    if items != [] {
      EncodeIsPrint(items[0]);
      EncodeItemsIsPrint(items[1..]);
      var rs, more := EncodeItems(items), Collect(EncodeItems(items[1..])).value;
      assert rs[1..] == EncodeItems(items[1..]);
      var parts := Collect(rs).value;
      assert parts == [rs[0].value] + more && parts[1..] == more;
      assert CanonItems(items)[1..] == CanonItems(items[1..]);
    }
  }

  lemma {:induction false} EncodeMembersIsPrint(ms: seq<Member>)
    requires forall m | m in ms :: Encodable(m.value)
    ensures EncodeMembers(ms) == Map(CanonMembers(ms), PrintedEntry)
    decreases ms, 0
  {
    if ms == [] {
      assert Map(CanonMembers(ms), PrintedEntry) == [];
    } else {
      var m, rest := ms[0], ms[1..];
      assert m in ms && forall x | x in rest :: x in ms;
      EncodeIsPrint(m.value);
      EncodeMembersIsPrint(rest);
      MapCons(Member(m.key, Canon(m.value)), CanonMembers(rest), PrintedEntry);
    }
  }

  // ----- the decoder -----

  function NumberRun(t: Text): (n: nat)
    ensures n <= |t|
  {
    if t == [] || !NumberUnit(t[0]) then 0 else 1 + NumberRun(t[1..])
  }

  function ParseWord(t: Text, word: Text, v: Value): (r: Option<Parsed<Value>>)
    requires word != []
    ensures r.Some? ==> |r.value.rest| < |t|
  {
    if word <= t then Some(Parsed(v, t[|word|..])) else None
  }

  function ParseNumber(t: Text): (r: Option<Parsed<Value>>)
    ensures r.Some? ==> |r.value.rest| < |t|
  {
    var k := NumberRun(t);
    var n := Read(t[..k]);
    if k == 0 || n.None? then None else Some(Parsed(Num(n.value), t[k..]))
  }

  function ParseString(t: Text): (r: Option<Parsed<Text>>)
    ensures r.Some? ==> |r.value.rest| < |t|
  {
    if t == [] || t[0] != QUOTE then None else ReadBody(t[1..])
  }

  function ParseValue(t: Text): (r: Option<Parsed<Value>>)
    ensures r.Some? ==> |r.value.rest| < |t|
    decreases |t|, 1
  {
    if t == [] then None
    else if t[0] == QUOTE then
      var s := ParseString(t);
      if s.None? then None else Some(Parsed(Str(s.value.value), s.value.rest))
    else if t[0] == BEGIN_ARRAY then
      if |t| > 1 && t[1] == END_ARRAY then Some(Parsed(Arr([]), t[2..])) else
      var xs := ParseItems(t[1..]);
      if xs.None? then None else Some(Parsed(Arr(xs.value.value), xs.value.rest))
    else if t[0] == BEGIN_OBJECT then
      if |t| > 1 && t[1] == END_OBJECT then Some(Parsed(Obj([]), t[2..])) else
      var ms := ParseMembers(t[1..]);
      if ms.None? then None else Some(Parsed(Obj(ms.value.value), ms.value.rest))
    else if t[0] == NULL_TEXT[0] then ParseWord(t, NULL_TEXT, Null)
    else if t[0] == TRUE_TEXT[0] then ParseWord(t, TRUE_TEXT, Bool(true))
    else if t[0] == FALSE_TEXT[0] then ParseWord(t, FALSE_TEXT, Bool(false))
    else ParseNumber(t)
  }

  /** One or more values up to the closing bracket. */
  function ParseItems(t: Text): (r: Option<Parsed<seq<Value>>>)
    ensures r.Some? ==> |r.value.rest| < |t|
    decreases |t|, 2
  {
    var v := ParseValue(t);
    if v.None? || v.value.rest == [] then None
    else if v.value.rest[0] == END_ARRAY then Some(Parsed([v.value.value], v.value.rest[1..]))
    else if v.value.rest[0] == COMMA then
      var more := ParseItems(v.value.rest[1..]);
      if more.None? then None else Some(Parsed([v.value.value] + more.value.value, more.value.rest))
    else None
  }

  function ParseMember(t: Text): (r: Option<Parsed<Member>>)
    ensures r.Some? ==> |r.value.rest| < |t|
    decreases |t|, 2
  {
    var k := ParseString(t);
    if k.None? || k.value.rest == [] || k.value.rest[0] != COLON then None else
    var v := ParseValue(k.value.rest[1..]);
    if v.None? then None else Some(Parsed(Member(k.value.value, v.value.value), v.value.rest))
  }

  function ParseMembers(t: Text): (r: Option<Parsed<seq<Member>>>)
    ensures r.Some? ==> |r.value.rest| < |t|
    decreases |t|, 3
  {
    var m := ParseMember(t);
    if m.None? || m.value.rest == [] then None
    else if m.value.rest[0] == END_OBJECT then Some(Parsed([m.value.value], m.value.rest[1..]))
    else if m.value.rest[0] == COMMA then
      var more := ParseMembers(m.value.rest[1..]);
      if more.None? then None else Some(Parsed([m.value.value] + more.value.value, more.value.rest))
    else None
  }

  function Decode(t: Text): Option<Value> {
    var v := ParseValue(t);
    if v.Some? && v.value.rest == [] then Some(v.value.value) else None
  }

  // ----- printing then parsing -----

  /** Encodable, with printable numbers and no negative zero. */
  predicate Plain(v: Value) {
    match v
    case Num(n) => IsFinite(n) && Valid(n) && n != Zero(true)
    case Arr(items) => forall x | x in items :: Plain(x)
    case Obj(members) => forall m | m in members :: Plain(m.value)
    case Undefined => false
    case Unsupported => false
    case _ => true
  }

  /** The text after a value does not continue a number. */
  predicate Delimited(rest: Text) {
    rest == [] || !NumberUnit(rest[0])
  }

  lemma {:induction false} NumberRunOf(t: Text, rest: Text)
    requires AllNumberUnits(t) && Delimited(rest)
    ensures NumberRun(t + rest) == |t|
  {
    if t == [] {
      assert t + rest == rest;
    } else {
      assert (t + rest)[1..] == t[1..] + rest;
      NumberRunOf(t[1..], rest);
    }
  }

  lemma ParseNumberText(t: Text, n: Number, rest: Text)
    requires t != [] && AllNumberUnits(t) && Read(t) == Some(n) && Delimited(rest)
    ensures ParseNumber(t + rest) == Some(Parsed(Num(n), rest))
  {
    var all := t + rest;
    NumberRunOf(t, rest);
    assert all[..|t|] == t && all[|t|..] == rest;
    assert NumberRun(all) == |t|;
  }

  lemma NumberUnitLeads(t: Text)
    requires t != [] && NumberUnit(t[0])
    ensures ParseValue(t) == ParseNumber(t)
  {
    var u := t[0];
    assert u != QUOTE && u != BEGIN_ARRAY && u != BEGIN_OBJECT;
    assert u != NULL_TEXT[0] && u != TRUE_TEXT[0] && u != FALSE_TEXT[0];
  }

  lemma ParseFormatted(n: Number, rest: Text)
    requires IsFinite(n) && Valid(n) && n != Zero(true) && Delimited(rest)
    ensures ParseValue(Format(n) + rest) == Some(Parsed(Num(n), rest))
  {
    ReadOfFormat(n);
    ParseNumberText(Format(n), n, rest);
    NumberUnitLeads(Format(n) + rest);
  }

  lemma ParseQuoted(s: Text, rest: Text)
    ensures ParseString(Quote(s) + rest) == Some(Parsed(s, rest))
  {
    ReadEscaped(s, rest);
    QuoteTail(s, rest);
  }

  lemma QuoteTail(s: Text, rest: Text)
    ensures Quote(s) + rest == [QUOTE] + (Escape(s) + ([QUOTE] + rest))
    ensures (Quote(s) + rest)[1..] == Escape(s) + ([QUOTE] + rest)
  {
    var tail := Escape(s) + ([QUOTE] + rest);
    assert Quote(s) + rest == [QUOTE] + tail;
    assert ([QUOTE] + tail)[1..] == tail;
  }

  lemma ParseKeyword(word: Text, rest: Text)
    requires word != []
    ensures word <= word + rest && (word + rest)[|word|..] == rest && (word + rest)[0] == word[0]
  {
  }

  /** Printing starts with a character that opens no closing bracket. */
  lemma PrintStart(v: Value)
    requires Plain(v)
    ensures Print(v) != [] && Print(v)[0] != END_ARRAY && Print(v)[0] != END_OBJECT
  {
    if v.Num? { ReadOfFormat(v.n); }
  }

  lemma {:induction false} ParsePrint(v: Value, rest: Text)
    requires Plain(v) && Delimited(rest)
    ensures ParseValue(Print(v) + rest) == Some(Parsed(v, rest))
    decreases v, 1
  {
    match v
    case Null => ParseKeyword(NULL_TEXT, rest);
    case Bool(b) => ParseKeyword(if b then TRUE_TEXT else FALSE_TEXT, rest);
    case Num(n) => ParseFormatted(n, rest);
    case Str(s) => ParseQuoted(s, rest);
    case Arr(items) => ParsePrintArr(items, rest);
    case Obj(ms) => ParsePrintObj(ms, rest);
  }

  lemma {:induction false} ParsePrintArr(items: seq<Value>, rest: Text)
    requires forall x | x in items :: Plain(x)
    ensures ParseValue(Print(Arr(items)) + rest) == Some(Parsed(Arr(items), rest))
    decreases items, 1
  {
    var body := PrintItems(items) + ([END_ARRAY] + rest);
    var t := Print(Arr(items)) + rest;
    assert t == [BEGIN_ARRAY] + body && t[1..] == body;
    if items == [] {
      assert body == [END_ARRAY] + rest && t[2..] == rest;
    } else {
      PrintStart(items[0]);
      assert t[1] == body[0] == Print(items[0])[0];
      ParsePrintItems(items, rest);
    }
  }

  lemma {:induction false} ParsePrintItems(items: seq<Value>, rest: Text)
    requires items != [] && forall x | x in items :: Plain(x)
    ensures ParseItems(PrintItems(items) + ([END_ARRAY] + rest)) == Some(Parsed(items, rest))
    decreases items, 0
  {
    if |items| == 1 {
      var tail := [END_ARRAY] + rest;
      ParsePrint(items[0], tail);
      assert tail[1..] == rest && items == [items[0]];
    } else {
      var after := PrintItems(items[1..]) + ([END_ARRAY] + rest);
      var tail := [COMMA] + after;
      ParsePrint(items[0], tail);
      ParsePrintItems(items[1..], rest);
      assert tail[1..] == after && items == [items[0]] + items[1..];
      var more, close := PrintItems(items[1..]), [END_ARRAY] + rest;
      Assoc(Print(items[0]), [COMMA] + more, close);
      Assoc([COMMA], more, close);
    }
  }

  /** What follows an opening brace is read as the members of an object. */
  lemma ParseBraced(ms: seq<Member>, body: Text, rest: Text)
    requires if ms == [] then body == [END_OBJECT] + rest
             else body != [] && body[0] == QUOTE && ParseMembers(body) == Some(Parsed(ms, rest))
    ensures ParseValue([BEGIN_OBJECT] + body) == Some(Parsed(Obj(ms), rest))
  {
    var t := [BEGIN_OBJECT] + body;
    assert t[1..] == body;
    if ms == [] {
      assert t[2..] == body[1..] == rest;
    } else {
      assert t[1] == QUOTE;
    }
  }

  lemma {:induction false} ParsePrintObj(ms: seq<Member>, rest: Text)
    requires forall m | m in ms :: Plain(m.value)
    ensures ParseValue(Print(Obj(ms)) + rest) == Some(Parsed(Obj(ms), rest))
    decreases ms, 1
  {
    var close := [END_OBJECT] + rest;
    assert Print(Obj(ms)) + rest == [BEGIN_OBJECT] + (PrintMembers(ms) + close);
    if ms == [] {
      assert PrintMembers(ms) + close == close;
    } else {
      ParsePrintMembers(ms, rest);
    }
    ParseBraced(ms, PrintMembers(ms) + close, rest);
  }

  lemma {:induction false} ParsePrintMember(m: Member, rest: Text)
    requires Plain(m.value) && Delimited(rest)
    ensures ParseMember(Quote(m.key) + ([COLON] + Print(m.value)) + rest) == Some(Parsed(m, rest))
    decreases m, 1
  {
    var after := Print(m.value) + rest;
    var tail := [COLON] + after;
    ParseQuoted(m.key, tail);
    ParsePrint(m.value, rest);
    assert tail[1..] == after;
    assert Quote(m.key) + ([COLON] + Print(m.value)) + rest == Quote(m.key) + tail;
  }

  lemma ParseNextMember(first: Text, m: Member, after: Text, ms: seq<Member>, rest: Text)
    requires ParseMember(first + ([COMMA] + after)) == Some(Parsed(m, [COMMA] + after))
    requires ParseMembers(after) == Some(Parsed(ms, rest))
    ensures ParseMembers(first + ([COMMA] + after)) == Some(Parsed([m] + ms, rest))
  {
    assert ([COMMA] + after)[1..] == after;
  }

  lemma ParseLastMember(first: Text, m: Member, rest: Text)
    requires ParseMember(first + ([END_OBJECT] + rest)) == Some(Parsed(m, [END_OBJECT] + rest))
    ensures ParseMembers(first + ([END_OBJECT] + rest)) == Some(Parsed([m], rest))
  {
    assert ([END_OBJECT] + rest)[1..] == rest;
  }

  lemma Regroup(first: Text, separator: Text, more: Text, close: Text)
    ensures (first + (separator + more)) + close == first + (separator + (more + close))
  {
    Assoc(first, separator + more, close);
    Assoc(separator, more, close);
  }

  lemma {:induction false} ParsePrintMembers(ms: seq<Member>, rest: Text)
    requires ms != [] && forall m | m in ms :: Plain(m.value)
    ensures ParseMembers(PrintMembers(ms) + ([END_OBJECT] + rest)) == Some(Parsed(ms, rest))
    decreases ms, 0
  {
    var m, tail, close := ms[0], ms[1..], [END_OBJECT] + rest;
    var first := Quote(m.key) + ([COLON] + Print(m.value));
    assert ms == [m] + tail && m in ms && forall x | x in tail :: x in ms;
    if |ms| == 1 {
      ParsePrintMember(m, close);
      ParseLastMember(first, m, rest);
      assert ms == [m];
    } else {
      var more := PrintMembers(tail);
      ParsePrintMembers(tail, rest);
      ParsePrintMember(m, [COMMA] + (more + close));
      ParseNextMember(first, m, more + close, tail, rest);
      Regroup(first, [COMMA], more, close);
      assert PrintMembers(ms) == first + ([COMMA] + more);
    }
  }

  // ----- the meaning of a value -----

  /** A value with objects as maps, so that insertion order is not part of it. */
  datatype Meaning =
    | MNull
    | MBool(b: bool)
    | MNum(n: Number)
    | MStr(s: Text)
    | MArr(items: seq<Meaning>)
    | MObj(members: map<Text, Meaning>)
    | MNone

  function Mean(v: Value): Meaning
    decreases v, 1
  {
    match v
    case Null => MNull
    case Bool(b) => MBool(b)
    case Num(n) => MNum(if n.Zero? then Zero(false) else n)
    case Str(s) => MStr(s)
    case Arr(items) => MArr(MeanItems(items))
    case Obj(members) => MObj(MeanMembers(members))
    case _ => MNone
  }

  function MeanItems(items: seq<Value>): (r: seq<Meaning>)
    ensures |r| == |items|
    decreases items, 0
  {
    if items == [] then [] else [Mean(items[0])] + MeanItems(items[1..])
  }

  function MeanMembers(ms: seq<Member>): map<Text, Meaning>
    decreases ms, 0
  {
    if ms == [] then map[] else MeanMembers(ms[1..])[ms[0].key := Mean(ms[0].value)]
  }

  predicate HasKey(ms: seq<Member>, k: Text) {
    exists i :: 0 <= i < |ms| && ms[i].key == k
  }

  lemma {:induction false} MeanKeys(ms: seq<Member>, k: Text)
    ensures k in MeanMembers(ms) <==> HasKey(ms, k)
  {
    if ms != [] {
      var tail := ms[1..];
      MeanKeys(tail, k);
      if HasKey(ms, k) && ms[0].key != k {
        var i :| 0 <= i < |ms| && ms[i].key == k;
        assert tail[i - 1].key == k;
      }
    }
  }

  lemma {:induction false} MeanAt(ms: seq<Member>, i: nat)
    requires i < |ms| && DistinctKeys(ms, MemberKey)
    ensures ms[i].key in MeanMembers(ms) && MeanMembers(ms)[ms[i].key] == Mean(ms[i].value)
  {
    if i > 0 {
      var tail := ms[1..];
      forall k, j | 0 <= k < j < |tail| ensures MemberKey(tail[k]) != MemberKey(tail[j]) {
        assert MemberKey(ms[k + 1]) != MemberKey(ms[j + 1]);
      }
      MeanAt(tail, i - 1);
      assert MemberKey(ms[0]) != MemberKey(ms[i]);
    }
  }

  lemma MeanMembersIs(ms: seq<Member>)
    requires DistinctKeys(ms, MemberKey)
    ensures forall k :: k in MeanMembers(ms) <==> exists i :: 0 <= i < |ms| && ms[i].key == k
    ensures forall i | 0 <= i < |ms| :: ms[i].key in MeanMembers(ms) && MeanMembers(ms)[ms[i].key] == Mean(ms[i].value)
  {
    forall k ensures k in MeanMembers(ms) <==> HasKey(ms, k) {
      MeanKeys(ms, k);
    }
    forall i | 0 <= i < |ms| ensures ms[i].key in MeanMembers(ms) && MeanMembers(ms)[ms[i].key] == Mean(ms[i].value) {
      MeanAt(ms, i);
    }
  }

  lemma {:induction false} CanonMembersAt(ms: seq<Member>, i: nat)
    requires i < |ms|
    ensures CanonMembers(ms)[i] == Member(ms[i].key, Canon(ms[i].value))
  {
    if i > 0 { CanonMembersAt(ms[1..], i - 1); }
  }

  lemma CanonMembersAll(ms: seq<Member>)
    ensures forall i | 0 <= i < |ms| :: CanonMembers(ms)[i] == Member(ms[i].key, Canon(ms[i].value))
    ensures DistinctKeys(ms, MemberKey) ==> DistinctKeys(CanonMembers(ms), MemberKey)
  {
    forall i | 0 <= i < |ms| ensures CanonMembers(ms)[i] == Member(ms[i].key, Canon(ms[i].value)) {
      CanonMembersAt(ms, i);
    }
  }

  lemma {:induction false} CanonItemsAt(items: seq<Value>, i: nat)
    requires i < |items|
    ensures CanonItems(items)[i] == Canon(items[i])
    ensures MeanItems(items)[i] == Mean(items[i])
  {
    if i > 0 { CanonItemsAt(items[1..], i - 1); }
  }

  /** The canonical form of an encodable value can be printed and parsed. */
  lemma {:induction false} CanonPlain(v: Value)
    requires WellFormed(v) && Encodable(v)
    ensures Plain(Canon(v))
  {
    match v
    case Arr(items) =>
      forall i | 0 <= i < |items| ensures Plain(CanonItems(items)[i]) {
        CanonItemsAt(items, i);
        CanonPlain(items[i]);
      }
    case Obj(ms) =>
      CanonMembersAll(ms);
      InSort(CanonMembers(ms), MemberKey);
      forall i | 0 <= i < |ms| ensures Plain(CanonMembers(ms)[i].value) {
        CanonPlain(ms[i].value);
      }
    case _ =>
  }

  /** Members in another order mean the same object. */
  lemma MeaningFound(ms: seq<Member>, ns: seq<Member>, k: Text)
    requires DistinctKeys(ms, MemberKey) && DistinctKeys(ns, MemberKey) && multiset(ms) == multiset(ns)
    requires k in MeanMembers(ms)
    ensures k in MeanMembers(ns) && MeanMembers(ns)[k] == MeanMembers(ms)[k]
  {
    MeanMembersIs(ms);
    MeanMembersIs(ns);
    var i :| 0 <= i < |ms| && ms[i].key == k;
    assert ms[i] in multiset(ns);
    var j :| 0 <= j < |ns| && ns[j] == ms[i];
    assert ns[j].key == k;
  }

  lemma MeanPermuted(ms: seq<Member>, ns: seq<Member>)
    requires DistinctKeys(ms, MemberKey) && multiset(ms) == multiset(ns)
    ensures MeanMembers(ms) == MeanMembers(ns)
  {
    DistinctAfterPermutation(ms, ns, MemberKey);
    forall k | k in MeanMembers(ms) ensures k in MeanMembers(ns) && MeanMembers(ms)[k] == MeanMembers(ns)[k] {
      MeaningFound(ms, ns, k);
    }
    forall k | k in MeanMembers(ns) ensures k in MeanMembers(ms) {
      MeaningFound(ns, ms, k);
    }
  }

  /** Canonicalising does not change what a value means. */
  lemma {:induction false} MeanOfCanon(v: Value)
    requires WellFormed(v)
    ensures Mean(Canon(v)) == Mean(v)
    decreases v, 1
  {
    match v
    case Arr(items) =>
      forall i | 0 <= i < |items| ensures MeanItems(CanonItems(items))[i] == MeanItems(items)[i] {
        CanonItemsAt(items, i);
        CanonItemsAt(CanonItems(items), i);
        MeanOfCanon(items[i]);
      }
    case Obj(ms) =>
      CanonMembersAll(ms);
      MeanOfCanonMembers(ms);
      MeanPermuted(CanonMembers(ms), Sort(CanonMembers(ms), MemberKey));
    case _ =>
  }

  lemma {:induction false} MeanOfCanonMembers(ms: seq<Member>)
    requires forall m | m in ms :: WellFormed(m.value)
    ensures MeanMembers(CanonMembers(ms)) == MeanMembers(ms)
    decreases ms, 0
  {
    if ms != [] {
      MeanOfCanon(ms[0].value);
      MeanOfCanonMembers(ms[1..]);
      assert CanonMembers(ms)[1..] == CanonMembers(ms[1..]);
    }
  }

  /** The canonical form depends on the meaning alone. */
  lemma {:induction false} CanonOfMeaning(v: Value, w: Value)
    requires WellFormed(v) && WellFormed(w) && Encodable(v) && Encodable(w)
    requires Mean(v) == Mean(w)
    ensures Canon(v) == Canon(w)
    decreases v
  {
    match v
    case Arr(items) =>
      forall i | 0 <= i < |items| ensures CanonItems(items)[i] == CanonItems(w.items)[i] {
        CanonItemsAt(items, i);
        CanonItemsAt(w.items, i);
        CanonOfMeaning(items[i], w.items[i]);
      }
    case Obj(ms) =>
      SameCanonMembers(ms, w.members);
      var cs, ds := CanonMembers(ms), CanonMembers(w.members);
      CanonMembersAll(ms);
      CanonMembersAll(w.members);
      DistinctPermutation(cs, ds, MemberKey);
      DistinctDetermines(cs, MemberKey);
      SortOrderIrrelevant(cs, ds, MemberKey);
    case _ =>
  }

  ghost predicate SameMeaning(ms: seq<Member>, ns: seq<Member>) {
    && WellFormed(Obj(ms)) && WellFormed(Obj(ns)) && Encodable(Obj(ms)) && Encodable(Obj(ns))
    && MeanMembers(ms) == MeanMembers(ns)
  }

  lemma {:induction false} SameCanonMembers(ms: seq<Member>, ns: seq<Member>)
    requires SameMeaning(ms, ns)
    ensures forall x :: x in CanonMembers(ms) <==> x in CanonMembers(ns)
    decreases ms, 1
  {
    var cs, ds := CanonMembers(ms), CanonMembers(ns);
    forall x ensures x in cs <==> x in ds {
      if x in cs {
        var i :| 0 <= i < |cs| && cs[i] == x;
        var j := SameMember(ms, ns, i);
        SameCanonMember(ms, ns, i, j);
        assert ds[j] == x;
      }
      if x in ds {
        var j :| 0 <= j < |ds| && ds[j] == x;
        var i := SameMember(ns, ms, j);
        SameCanonMember(ms, ns, i, j);
        assert cs[i] == x;
      }
    }
  }

  lemma {:induction false} SameCanonMember(ms: seq<Member>, ns: seq<Member>, i: nat, j: nat)
    requires SameMeaning(ms, ns) && i < |ms| && j < |ns|
    requires ms[i].key == ns[j].key && Mean(ms[i].value) == Mean(ns[j].value)
    ensures CanonMembers(ms)[i] == CanonMembers(ns)[j]
    decreases ms, 0
  {
    CanonMembersAt(ms, i);
    CanonMembersAt(ns, j);
    CanonOfMeaning(ms[i].value, ns[j].value);
  }

  lemma SameMember(ms: seq<Member>, ns: seq<Member>, i: nat) returns (j: nat)
    requires DistinctKeys(ms, MemberKey) && DistinctKeys(ns, MemberKey)
    requires i < |ms| && MeanMembers(ms) == MeanMembers(ns)
    ensures j < |ns| && ns[j].key == ms[i].key && Mean(ns[j].value) == Mean(ms[i].value)
  {
    MeanMembersIs(ms);
    MeanMembersIs(ns);
    var k :| 0 <= k < |ns| && ns[k].key == ms[i].key;
    j := k;
  }

  // ----- the theorems -----

  /** The decoder recovers the canonical form from the encoding, so nothing but
      member order and the sign of zero is lost. */
  lemma DecodeOfEncode(v: Value)
    requires WellFormed(v) && Encode(v).Ok?
    ensures Decode(Encode(v).value) == Some(Canon(v))
    ensures Mean(Canon(v)) == Mean(v)
  {
    EncodeOk(v);
    EncodeIsPrint(v);
    CanonPlain(v);
    MeanOfCanon(v);
    ParsePrint(Canon(v), []);
    assert Print(Canon(v)) + [] == Print(Canon(v));
  }

  /** Two values encode alike exactly when they mean the same. */
  lemma EncodeDecidesMeaning(v: Value, w: Value)
    requires WellFormed(v) && WellFormed(w) && Encode(v).Ok? && Encode(w).Ok?
    ensures Encode(v) == Encode(w) <==> Mean(v) == Mean(w)
  {
    DecodeOfEncode(v);
    DecodeOfEncode(w);
    EncodeOk(v);
    EncodeOk(w);
    EncodeIsPrint(v);
    EncodeIsPrint(w);
    if Mean(v) == Mean(w) { CanonOfMeaning(v, w); }
  }

  // ----- the text itself -----

  function PrintOf(v: Value): Text {
    Print(v)
  }

  function MemberText(m: Member): Text {
    Quote(m.key) + (Lit(":") + Print(m.value))
  }

  lemma {:induction false} PrintItemsIsJoin(items: seq<Value>)
    ensures PrintItems(items) == Join(Map(items, PrintOf), Lit(","))
  {
    if |items| == 1 {
      assert Map(items, PrintOf) == [Print(items[0])];
    } else if items != [] {
      PrintItemsIsJoin(items[1..]);
      assert Map(items, PrintOf)[1..] == Map(items[1..], PrintOf) && Lit(",") == [COMMA];
    }
  }

  lemma {:induction false} PrintMembersIsJoin(ms: seq<Member>)
    ensures PrintMembers(ms) == Join(Map(ms, MemberText), Lit(","))
  {
    assert Lit(":") == [COLON] && Lit(",") == [COMMA];
    if |ms| == 1 {
      assert Map(ms, MemberText) == [MemberText(ms[0])];
    } else if ms != [] {
      PrintMembersIsJoin(ms[1..]);
      assert Map(ms, MemberText)[1..] == Map(ms[1..], MemberText);
    }
  }

  /** What is printed, character by character: the words, the brackets, commas
      between items, a colon after each quoted key, and no white space. */
  lemma PrintedText(items: seq<Value>, ms: seq<Member>, s: Text)
    ensures Print(Null) == Lit("null") && Print(Bool(true)) == Lit("true") && Print(Bool(false)) == Lit("false")
    ensures Print(Str(s)) == Lit("\"") + Escape(s) + Lit("\"")
    ensures Print(Arr(items)) == Lit("[") + (Join(Map(items, PrintOf), Lit(",")) + Lit("]"))
    ensures Print(Obj(ms)) == Lit("{") + (Join(Map(ms, MemberText), Lit(",")) + Lit("}"))
  {
    PrintItemsIsJoin(items);
    PrintMembersIsJoin(ms);
    assert Lit("[") == [BEGIN_ARRAY] && Lit("]") == [END_ARRAY];
    assert Lit("{") == [BEGIN_OBJECT] && Lit("}") == [END_OBJECT] && Lit("\"") == [QUOTE];
  }

  /** In the canonical form every key comes strictly before the next, code unit by
      code unit. */
  lemma KeysAscend(ms: seq<Member>, i: nat, j: nat)
    requires DistinctKeys(ms, MemberKey) && Canon(Obj(ms)).Obj? && i < j < |Canon(Obj(ms)).members|
    ensures Before(Canon(Obj(ms)).members[i].key, Canon(Obj(ms)).members[j].key)
  {
    var cs := CanonMembers(ms);
    var sorted := Canon(Obj(ms)).members;
    CanonMembersAll(ms);
    SortSorted(cs, MemberKey);
    DistinctAfterPermutation(cs, sorted, MemberKey);
    assert LexLe(MemberKey(sorted[i]), MemberKey(sorted[j])) && MemberKey(sorted[i]) != MemberKey(sorted[j]);
    LexIsBefore(sorted[i].key, sorted[j].key);
  }

  // ----- the error -----

  lemma ScalarErrors(n: Number)
    requires !IsFinite(n)
    ensures Encode(Num(n)) == Err(NonFiniteNumber)
    ensures Encode(Undefined) == Encode(Unsupported) == Err(UnsupportedType)
  {
  }

  /** The error that a value gives where it stands in an object. */
  function ErrorAt(m: Member): EncodeError
    requires Encode(m.value).Err?
  {
    if m.value.Undefined? then UndefinedAtKey(m.key) else Encode(m.value).error
  }

  lemma {:induction false} FirstError(rs: seq<Result<Text, EncodeError>>) returns (i: nat)
    requires Collect(rs).Err?
    ensures i < |rs| && rs[i].Err? && Collect(rs) == Err(rs[i].error) && forall j | 0 <= j < i :: rs[j].Ok?
  {
    if rs[0].Err? {
      i := 0;
    } else {
      var k := FirstError(rs[1..]);
      i := k + 1;
      assert rs[1..][k] == rs[i];
      forall j | 0 <= j < i ensures rs[j].Ok? {
        if j > 0 { assert rs[1..][j - 1] == rs[j]; }
      }
    }
  }

  /** The first item that does not encode is the one complained about. */
  lemma ArrayError(items: seq<Value>) returns (i: nat)
    requires Encode(Arr(items)).Err?
    ensures i < |items| && Encode(items[i]).Err? && Encode(Arr(items)) == Err(Encode(items[i]).error)
    ensures forall j | 0 <= j < i :: Encode(items[j]).Ok?
  {
    i := FirstError(EncodeItems(items));
    EncodeItemsAt(items, i);
    forall j | 0 <= j < i ensures Encode(items[j]).Ok? {
      EncodeItemsAt(items, j);
    }
  }

  lemma {:induction false} EncodeMembersAt(ms: seq<Member>, i: nat)
    requires i < |ms|
    ensures EncodeMembers(ms)[i]
         == Entry(ms[i].key, if ms[i].value.Undefined? then Err(UndefinedAtKey(ms[i].key)) else Encode(ms[i].value))
  {
    if i > 0 { EncodeMembersAt(ms[1..], i - 1); }
  }

  lemma EntryIsMember(ms: seq<Member>, e: Entry) returns (m: Member)
    requires e in EncodeMembers(ms)
    ensures m in ms && e.key == m.key && (e.text.Err? <==> Encode(m.value).Err?) && (e.text.Err? ==> e.text.error == ErrorAt(m))
  {
    var i :| 0 <= i < |ms| && EncodeMembers(ms)[i] == e;
    EncodeMembersAt(ms, i);
    m := ms[i];
  }

  lemma FailingEntry(ms: seq<Member>, x: Member) returns (j: nat)
    requires x in ms && Encode(x.value).Err?
    ensures var sorted := Sort(EncodeMembers(ms), EntryKey); j < |sorted| && sorted[j].key == x.key && sorted[j].text.Err?
  {
    var es := EncodeMembers(ms);
    var k :| 0 <= k < |ms| && ms[k] == x;
    EncodeMembersAt(ms, k);
    InSort(es, EntryKey);
    assert es[k] in es;
    var sorted := Sort(es, EntryKey);
    var l :| 0 <= l < |sorted| && sorted[l] == es[k];
    j := l;
  }

  lemma NotEarlier(sorted: seq<Entry>, i: nat, j: nat)
    requires Sorted(sorted, EntryKey) && i < |sorted| && j < |sorted|
    requires sorted[j].text.Err? && forall k | 0 <= k < i :: EntryText(sorted[k]).Ok?
    ensures LexLe(sorted[i].key, sorted[j].key)
  {
    LexTotal(sorted[i].key, sorted[j].key);
    if i < j { assert LexLe(EntryKey(sorted[i]), EntryKey(sorted[j])); }
  }

  /** Of an object's members that do not encode, one whose key comes first is
      complained about, whatever the insertion order. */
  lemma ObjectError(ms: seq<Member>) returns (m: Member)
    requires Encode(Obj(ms)).Err?
    ensures m in ms && Encode(m.value).Err? && Encode(Obj(ms)) == Err(ErrorAt(m))
    ensures forall x | x in ms && Encode(x.value).Err? :: LexLe(m.key, x.key)
  {
    var es := EncodeMembers(ms);
    var sorted := Sort(es, EntryKey);
    var i := FirstError(Map(sorted, EntryText));
    InSort(es, EntryKey);
    assert sorted[i] in sorted;
    m := EntryIsMember(ms, sorted[i]);
    SortSorted(es, EntryKey);
    forall k | 0 <= k < i ensures EntryText(sorted[k]).Ok? {
      assert Map(sorted, EntryText)[k].Ok?;
    }
    forall x | x in ms && Encode(x.value).Err? ensures LexLe(m.key, x.key) {
      var j := FailingEntry(ms, x);
      NotEarlier(sorted, i, j);
    }
  }
}
