/**
 A JSON reader after RFC 8259, restricted to integers, and the proof that it inverts the canonical
 printer: what was signed can be read back, so two values with one canonical text are one value.
 */
module JsonParse {
  import opened Basics
  import opened CanonicalJson
  import Decimal
  import Utf8

  datatype Parsed<+T> = Parsed(value: T, rest: Text) | Fail

  // ----------------------------------------------------------------- tokens ---

  predicate IsWhitespace(u: Unit) { u == 0x20 || u == 0x09 || u == 0x0a || u == 0x0d }

  function SkipWhitespace(t: Text): (r: Text)
    ensures |r| <= |t|
  {
    if t != [] && IsWhitespace(t[0]) then SkipWhitespace(t[1..]) else t
  }

  function HexValue(u: Unit): Option<int> {
    if 0x30 <= u <= 0x39 then Some(u - 0x30)
    else if 0x61 <= u <= 0x66 then Some(u - 0x61 + 10)
    else if 0x41 <= u <= 0x46 then Some(u - 0x41 + 10)
    else None
  }

  function Hex4(t: Text): Option<Unit>
    requires |t| >= 4
  {
    var a, b, c, d := HexValue(t[0]), HexValue(t[1]), HexValue(t[2]), HexValue(t[3]);
    if a.Some? && b.Some? && c.Some? && d.Some? && 0 <= a.value < 16 && 0 <= b.value < 16 && 0 <= c.value < 16 && 0 <= d.value < 16
    then Some(a.value * 0x1000 + b.value * 0x100 + c.value * 0x10 + d.value)
    else None
  }

  function SimpleEscape(u: Unit): Option<Unit> {
    if u == QUOTE || u == BACKSLASH || u == 0x2f then Some(u)
    else if u == 0x62 then Some(0x08)
    else if u == 0x66 then Some(0x0c)
    else if u == 0x6e then Some(0x0a)
    else if u == 0x72 then Some(0x0d)
    else if u == 0x74 then Some(0x09)
    else None
  }

  // The inside of a string, up to and including its closing quote.
  function ParseBody(t: Text): (r: Parsed<Text>)
    ensures r.Parsed? ==> |r.rest| < |t|
  {
    if t == [] || t[0] < 0x20 then Fail
    else if t[0] == QUOTE then Parsed([], t[1..])
    else if t[0] != BACKSLASH then Prepend(t[0], ParseBody(t[1..]))
    else if |t| < 2 then Fail
    else if t[1] == 0x75 then
      if |t| < 6 || Hex4(t[2..]).None? then Fail else Prepend(Hex4(t[2..]).value, ParseBody(t[6..]))
    else if SimpleEscape(t[1]).None? then Fail
    else Prepend(SimpleEscape(t[1]).value, ParseBody(t[2..]))
  }

  function Prepend(u: Unit, p: Parsed<Text>): Parsed<Text> {
    match p
    case Parsed(s, rest) => Parsed([u] + s, rest)
    case Fail => Fail
  }

  function DigitRun(t: Text): (n: nat)
    ensures n <= |t| && Decimal.AllDigits(t[..n])
    ensures n < |t| ==> !Decimal.IsDigit(t[n])
  {
    if t != [] && Decimal.IsDigit(t[0]) then
      var n := DigitRun(t[1..]);
      assert t[..n + 1] == [t[0]] + t[1..][..n];
      n + 1
    else 0
  }

  function ParseNumber(t: Text): (r: Parsed<Json>)
    ensures r.Parsed? ==> |r.rest| < |t|
  {
    var negative := t != [] && t[0] == MINUS;
    var d := if negative then t[1..] else t;
    var n := DigitRun(d);
    if n == 0 || (n > 1 && d[0] == Decimal.ZERO) || (n < |d| && d[n] in [0x2e, 0x65, 0x45]) then Fail
    else
      var value: int := Decimal.Value(d[..n]);
      Parsed(if !negative then Num(value) else if value == 0 then NegativeZero else Num(-value), d[n..])
  }

  // ----------------------------------------------------------------- values ---

  function ParseValue(t: Text): (r: Parsed<Json>)
    ensures r.Parsed? ==> |r.rest| < |t|
    decreases |t|, 1
  {
    var u := SkipWhitespace(t);
    if u == [] then Fail
    else if u[0] == QUOTE then
      (match ParseBody(u[1..])
       case Parsed(s, rest) => Parsed(Str(s), rest)
       case Fail => Fail)
    else if u[0] == OPEN_BRACKET then
      var w := SkipWhitespace(u[1..]);
      if w != [] && w[0] == CLOSE_BRACKET then Parsed(Arr([]), w[1..])
      else
        (match ParseItems(u[1..])
         case Parsed(items, rest) => Parsed(Arr(items), rest)
         case Fail => Fail)
    else if u[0] == OPEN_BRACE then
      var w := SkipWhitespace(u[1..]);
      if w != [] && w[0] == CLOSE_BRACE then Parsed(Obj([]), w[1..])
      else
        (match ParseFields(u[1..])
         case Parsed(fields, rest) => Parsed(Obj(fields), rest)
         case Fail => Fail)
    else if NULL_TEXT <= u then Parsed(Null, u[|NULL_TEXT|..])
    else if TRUE_TEXT <= u then Parsed(Bool(true), u[|TRUE_TEXT|..])
    else if FALSE_TEXT <= u then Parsed(Bool(false), u[|FALSE_TEXT|..])
    else ParseNumber(u)
  }

  // One or more values separated by commas, and the closing bracket.
  function ParseItems(t: Text): (r: Parsed<seq<Json>>)
    ensures r.Parsed? ==> |r.rest| < |t|
    decreases |t|, 2
  {
    match ParseValue(t)
    case Fail => Fail
    case Parsed(v, rest) =>
      var u := SkipWhitespace(rest);
      if u == [] then Fail
      else if u[0] == CLOSE_BRACKET then Parsed([v], u[1..])
      else if u[0] != COMMA then Fail
      else
        match ParseItems(u[1..])
        case Fail => Fail
        case Parsed(items, rest') => Parsed([v] + items, rest')
  }

  function ParseFields(t: Text): (r: Parsed<seq<Field>>)
    ensures r.Parsed? ==> |r.rest| < |t|
    decreases |t|, 2
  {
    var k := SkipWhitespace(t);
    if k == [] || k[0] != QUOTE then Fail
    else
      match ParseBody(k[1..])
      case Fail => Fail
      case Parsed(key, afterKey) =>
        var c := SkipWhitespace(afterKey);
        if c == [] || c[0] != COLON then Fail
        else
          match ParseValue(c[1..])
          case Fail => Fail
          case Parsed(v, rest) =>
            var u := SkipWhitespace(rest);
            if u == [] then Fail
            else if u[0] == CLOSE_BRACE then Parsed([Field(key, v)], u[1..])
            else if u[0] != COMMA then Fail
            else
              match ParseFields(u[1..])
              case Fail => Fail
              case Parsed(fields, rest') => Parsed([Field(key, v)] + fields, rest')
  }

  // JSON.parse: one value and nothing after it but whitespace.
  function Parse(t: Text): Option<Json> {
    match ParseValue(t)
    case Fail => None
    case Parsed(v, rest) => if SkipWhitespace(rest) == [] then Some(v) else None
  }

  // ------------------------------------------------------------- round trip ---

  lemma {:induction false} ParseBodyInverts(s: Text, rest: Text)
    ensures ParseBody(Body(s) + [QUOTE] + rest) == Parsed(s, rest)
  {
    if s == [] {
      assert Body(s) + [QUOTE] + rest == [QUOTE] + rest;
    } else {
      ParseBodyInverts(s[1..], rest);
      var tail := Body(s[1..]) + [QUOTE] + rest;
      assert Body(s) + [QUOTE] + rest == Escape(s[0]) + tail;
      ParseEscape(s[0], tail);
      assert [s[0]] + s[1..] == s;
    }
  }

  lemma ParseEscape(u: Unit, tail: Text)
    requires ParseBody(tail).Parsed?
    ensures ParseBody(Escape(u) + tail) == Prepend(u, ParseBody(tail))
  {
    var e := Escape(u);
    var t := e + tail;
    if |e| == 1 {
      assert t[0] == u && t[1..] == tail;
    } else if |e| == 2 {
      assert t[0] == BACKSLASH && t[1] == e[1] && t[2..] == tail;
    } else {
      assert t[0] == BACKSLASH && t[1] == 0x75 && t[6..] == tail;
      assert t[2..][0] == 0x30 && t[2..][1] == 0x30 && t[2..][2] == e[4] && t[2..][3] == e[5];
      assert Hex4(t[2..]) == Some(u);
    }
  }

  predicate EndsNumber(rest: Text) {
    rest == [] || (!Decimal.IsDigit(rest[0]) && rest[0] !in [0x2e, 0x65, 0x45])
  }

  lemma {:induction false} DigitRunOf(digits: Text, rest: Text)
    requires Decimal.AllDigits(digits) && EndsNumber(rest)
    ensures DigitRun(digits + rest) == |digits|
  {
    if digits == [] {
      assert digits + rest == rest;
    } else {
      assert (digits + rest)[0] == digits[0] && (digits + rest)[1..] == digits[1..] + rest;
      DigitRunOf(digits[1..], rest);
    }
  }

  lemma DigitsThenRest(m: nat, rest: Text)
    requires EndsNumber(rest)
    ensures var digits := Decimal.Digits(m); var d := digits + rest;
      DigitRun(d) == |digits| && d[..|digits|] == digits && d[|digits|..] == rest && Decimal.Value(digits) == m &&
      digits != [] && d[0] == digits[0] && Decimal.IsDigit(digits[0]) && (|digits| > 1 ==> digits[0] != Decimal.ZERO)
  {
    Decimal.ValueOfDigits(m);
    DigitRunOf(Decimal.Digits(m), rest);
  }

  lemma ParseNumberInverts(n: int, rest: Text)
    requires EndsNumber(rest)
    ensures ParseNumber(NumText(n) + rest) == Parsed(Num(n), rest)
    ensures NumText(n) != [] && (NumText(n)[0] == MINUS || Decimal.IsDigit(NumText(n)[0]))
  {
    var m := if n < 0 then -n else n;
    DigitsThenRest(m, rest);
    if n < 0 {
      var d := Decimal.Digits(m) + rest;
      var t := NumText(n) + rest;
      assert t == [MINUS] + d && t[0] == MINUS && t[1..] == d;
    }
  }

  // ----------------------------------------------- the reader, shape by shape ---

  lemma ReadQuoted(body: Text, s: Text, rest: Text)
    requires ParseBody(body) == Parsed(s, rest)
    ensures ParseValue([QUOTE] + body) == Parsed(Str(s), rest)
  {
    var t := [QUOTE] + body;
    assert t[0] == QUOTE && t[1..] == body;
  }

  lemma ReadWord(word: Text, v: Json, rest: Text)
    requires (word == NULL_TEXT && v == Null) || (word == TRUE_TEXT && v == Bool(true)) || (word == FALSE_TEXT && v == Bool(false))
    ensures ParseValue(word + rest) == Parsed(v, rest)
  {
    var t := word + rest;
    assert t[..|word|] == word && t[|word|..] == rest && t[0] == word[0];
  }

  lemma ReadNumber(n: int, rest: Text)
    requires EndsNumber(rest)
    ensures ParseValue(NumText(n) + rest) == Parsed(Num(n), rest)
  {
    ParseNumberInverts(n, rest);
    var t := NumText(n) + rest;
    assert t[0] == NumText(n)[0];
  }

  // A text that starts with a value: not with whitespace and not with a closer.
  predicate StartsValue(t: Text) {
    t != [] && !IsWhitespace(t[0]) && t[0] != CLOSE_BRACKET && t[0] != CLOSE_BRACE
  }

  lemma ReadArray(inner: Text, items: seq<Json>, rest: Text)
    requires StartsValue(inner) && ParseItems(inner) == Parsed(items, rest)
    ensures ParseValue([OPEN_BRACKET] + inner) == Parsed(Arr(items), rest)
  {
    var t := [OPEN_BRACKET] + inner;
    assert t[0] == OPEN_BRACKET && t[1..] == inner;
  }

  lemma ReadObject(inner: Text, fields: seq<Field>, rest: Text)
    requires StartsValue(inner) && ParseFields(inner) == Parsed(fields, rest)
    ensures ParseValue([OPEN_BRACE] + inner) == Parsed(Obj(fields), rest)
  {
    var t := [OPEN_BRACE] + inner;
    assert t[0] == OPEN_BRACE && t[1..] == inner;
  }

  lemma ReadEmpty(rest: Text)
    ensures ParseValue([OPEN_BRACKET, CLOSE_BRACKET] + rest) == Parsed(Arr([]), rest)
    ensures ParseValue([OPEN_BRACE, CLOSE_BRACE] + rest) == Parsed(Obj([]), rest)
  {
    var t, u := [OPEN_BRACKET, CLOSE_BRACKET] + rest, [OPEN_BRACE, CLOSE_BRACE] + rest;
    assert t[1..] == [CLOSE_BRACKET] + rest && t[1..][1..] == rest;
    assert u[1..] == [CLOSE_BRACE] + rest && u[1..][1..] == rest;
  }

  lemma ReadLastItem(t: Text, v: Json, rest: Text)
    requires ParseValue(t) == Parsed(v, [CLOSE_BRACKET] + rest)
    ensures ParseItems(t) == Parsed([v], rest)
  {
    var u := [CLOSE_BRACKET] + rest;
    assert u[0] == CLOSE_BRACKET && u[1..] == rest;
  }

  lemma ReadNextItem(t: Text, v: Json, more: Text, items: seq<Json>, rest: Text)
    requires ParseValue(t) == Parsed(v, [COMMA] + more) && ParseItems(more) == Parsed(items, rest)
    ensures ParseItems(t) == Parsed([v] + items, rest)
  {
    var u := [COMMA] + more;
    assert u[0] == COMMA && u[1..] == more;
  }

  lemma ReadLastField(body: Text, key: Text, t: Text, v: Json, rest: Text)
    requires ParseBody(body) == Parsed(key, [COLON] + t) && ParseValue(t) == Parsed(v, [CLOSE_BRACE] + rest)
    ensures ParseFields([QUOTE] + body) == Parsed([Field(key, v)], rest)
  {
    var k, c, u := [QUOTE] + body, [COLON] + t, [CLOSE_BRACE] + rest;
    assert k[0] == QUOTE && k[1..] == body && c[0] == COLON && c[1..] == t && u[0] == CLOSE_BRACE && u[1..] == rest;
  }

  lemma ReadNextField(body: Text, key: Text, t: Text, v: Json, more: Text, fields: seq<Field>, rest: Text)
    requires ParseBody(body) == Parsed(key, [COLON] + t) && ParseValue(t) == Parsed(v, [COMMA] + more)
    requires ParseFields(more) == Parsed(fields, rest)
    ensures ParseFields([QUOTE] + body) == Parsed([Field(key, v)] + fields, rest)
  {
    var k, c, u := [QUOTE] + body, [COLON] + t, [COMMA] + more;
    assert k[0] == QUOTE && k[1..] == body && c[0] == COLON && c[1..] == t && u[0] == COMMA && u[1..] == more;
  }

  // ------------------------------------------------------ the printer's shapes ---

  lemma CanonStart(v: Json)
    requires Canon(v).Ok?
    ensures StartsValue(Canon(v).value)
  {
    if v.Num? { ParseNumberInverts(v.n, []); }
  }

  lemma ItemsShape(v: Json, items: seq<Json>)
    requires forall x :: x in items ==> x < v
    requires items != [] && CanonItems(v, items).Ok?
    ensures items[0] < v && Canon(items[0]).Ok? && forall x :: x in items[1..] ==> x < v
    ensures |items| > 1 ==> CanonItems(v, items[1..]).Ok?
    ensures CanonItems(v, items).value == Canon(items[0]).value +
              if |items| == 1 then [] else [COMMA] + CanonItems(v, items[1..]).value
    ensures NormItems(v, items) == [Norm(items[0])] + if |items| == 1 then [] else NormItems(v, items[1..])
    ensures StartsValue(CanonItems(v, items).value)
  {
    assert items[0] in items && forall x :: x in items[1..] ==> x in items;
    CanonStart(items[0]);
  }

  lemma Assoc(a: Text, b: Text, c: Text)
    ensures (a + b) + c == a + (b + c)
  {
  }

  // What follows the value of the first field in the printed fields.
  function FieldTail(v: Json, fields: seq<Field>): Text
    requires forall f :: f in fields ==> f.value < v
    requires fields != [] && CanonFields(v, fields).Ok?
  {
    assert forall f :: f in fields[1..] ==> f in fields;
    if |fields| == 1 then [] else [COMMA] + CanonFields(v, fields[1..]).value
  }

  lemma FieldsShape(v: Json, fields: seq<Field>)
    requires forall f :: f in fields ==> f.value < v
    requires fields != [] && CanonFields(v, fields).Ok?
    ensures fields[0].value < v && Canon(fields[0].value).Ok? && forall f :: f in fields[1..] ==> f.value < v
    ensures |fields| > 1 ==> CanonFields(v, fields[1..]).Ok?
    ensures CanonFields(v, fields).value
         == ([QUOTE] + Body(fields[0].key) + [QUOTE]) + ([COLON] + (Canon(fields[0].value).value + FieldTail(v, fields)))
  {
    assert fields[0] in fields && forall f :: f in fields[1..] ==> f in fields;
    if |fields| == 1 { assert Canon(fields[0].value).value + [] == Canon(fields[0].value).value; }
  }

  lemma NormShape(v: Json, fields: seq<Field>)
    requires forall f :: f in fields ==> f.value < v
    requires fields != []
    ensures fields[0].value < v && forall f :: f in fields[1..] ==> f.value < v
    ensures NormFields(v, fields) == [Field(fields[0].key, Norm(fields[0].value))] + NormFields(v, fields[1..])
    ensures |fields| == 1 ==> NormFields(v, fields[1..]) == []
  {
    assert fields[0] in fields && forall f :: f in fields[1..] ==> f in fields;
  }

  // ---------------------------------------------------------- the induction ---

  // `rest` is whatever follows the value, so long as it cannot be taken for more digits.
  lemma {:induction false} ParseInverts(v: Json, rest: Text)
    requires Canon(v).Ok? && EndsNumber(rest)
    ensures ParseValue(Canon(v).value + rest) == Parsed(Norm(v), rest)
    decreases v, 1, 0
  {
    match v
    case Null => ReadWord(NULL_TEXT, v, rest);
    case Bool(b) => ReadWord(if b then TRUE_TEXT else FALSE_TEXT, v, rest);
    case Num(n) => ReadNumber(n, rest);
    case Str(s) => StringInverts(v, rest);
    case Arr(items) => ArrayInverts(v, rest);
    case Obj(fields) => ObjectInverts(v, rest);
  }

  lemma StringInverts(v: Json, rest: Text)
    requires v.Str? && Canon(v).Ok?
    ensures ParseValue(Canon(v).value + rest) == Parsed(Norm(v), rest)
  {
    ParseBodyInverts(v.s, rest);
    QuotedText(Body(v.s), v.s, rest);
    assert Canon(v).value == [QUOTE] + Body(v.s) + [QUOTE];
  }

  lemma QuotedText(body: Text, s: Text, rest: Text)
    requires ParseBody(body + [QUOTE] + rest) == Parsed(s, rest)
    ensures ParseValue([QUOTE] + body + [QUOTE] + rest) == Parsed(Str(s), rest)
  {
    ReadQuoted(body + [QUOTE] + rest, s, rest);
    assert [QUOTE] + body + [QUOTE] + rest == [QUOTE] + (body + [QUOTE] + rest);
  }

  lemma ArrayInverts(v: Json, rest: Text)
    requires v.Arr? && Canon(v).Ok? && EndsNumber(rest)
    ensures ParseValue(Canon(v).value + rest) == Parsed(Norm(v), rest)
    decreases v, 0, |v.items| + 1
  {
    if v.items == [] {
      ReadEmpty(rest);
      assert Canon(v).value == [OPEN_BRACKET, CLOSE_BRACKET];
    } else {
      ItemsShape(v, v.items);
      ItemsInvert(v, v.items, rest);
      var items := CanonItems(v, v.items).value;
      var inner := items + ([CLOSE_BRACKET] + rest);
      assert inner[0] == items[0];
      ReadArray(inner, NormItems(v, v.items), rest);
      Assoc([OPEN_BRACKET], items + [CLOSE_BRACKET], rest);
      Assoc(items, [CLOSE_BRACKET], rest);
    }
  }

  lemma ObjectInverts(v: Json, rest: Text)
    requires v.Obj? && Canon(v).Ok? && EndsNumber(rest)
    ensures ParseValue(Canon(v).value + rest) == Parsed(Norm(v), rest)
    decreases v, 0, |v.fields| + 1
  {
    var sorted := SortFields(v.fields);
    if sorted == [] {
      ReadEmpty(rest);
      assert Canon(v).value == [OPEN_BRACE, CLOSE_BRACE];
    } else {
      FieldsShape(v, sorted);
      FieldsInvert(v, sorted, rest);
      var fields := CanonFields(v, sorted).value;
      var inner := fields + ([CLOSE_BRACE] + rest);
      assert inner[0] == fields[0] == QUOTE;
      ReadObject(inner, NormFields(v, sorted), rest);
      Assoc([OPEN_BRACE], fields + [CLOSE_BRACE], rest);
      Assoc(fields, [CLOSE_BRACE], rest);
    }
  }

  lemma {:induction false} ItemsInvert(v: Json, items: seq<Json>, rest: Text)
    requires forall x :: x in items ==> x < v
    requires items != [] && CanonItems(v, items).Ok?
    ensures ParseItems(CanonItems(v, items).value + ([CLOSE_BRACKET] + rest)) == Parsed(NormItems(v, items), rest)
    decreases v, 0, |items|
  {
    ItemsShape(v, items);
    var head := Canon(items[0]).value;
    var close := [CLOSE_BRACKET] + rest;
    if |items| == 1 {
      ParseInverts(items[0], close);
      ReadLastItem(head + close, Norm(items[0]), rest);
      assert CanonItems(v, items).value == head && NormItems(v, items) == [Norm(items[0])];
    } else {
      ItemsInvert(v, items[1..], rest);
      NextItem(head, items[0], CanonItems(v, items[1..]).value, close, NormItems(v, items[1..]), rest);
    }
  }

  lemma NextItem(head: Text, x: Json, others: Text, close: Text, items: seq<Json>, rest: Text)
    requires Canon(x) == Ok(head) && ParseItems(others + close) == Parsed(items, rest)
    ensures ParseItems(head + ([COMMA] + others) + close) == Parsed([Norm(x)] + items, rest)
    decreases x, 2, 0
  {
    var more := others + close;
    ParseInverts(x, [COMMA] + more);
    ReadNextItem(head + ([COMMA] + more), Norm(x), more, items, rest);
    Assoc(head, [COMMA] + others, close);
    Assoc([COMMA], others, close);
  }

  lemma {:induction false} FieldsInvert(v: Json, fields: seq<Field>, rest: Text)
    requires forall f :: f in fields ==> f.value < v
    requires fields != [] && CanonFields(v, fields).Ok?
    ensures ParseFields(CanonFields(v, fields).value + ([CLOSE_BRACE] + rest)) == Parsed(NormFields(v, fields), rest)
    decreases v, 0, |fields|
  {
    FieldsShape(v, fields);
    NormShape(v, fields);
    var close := [CLOSE_BRACE] + rest;
    if |fields| == 1 {
      LastField(fields[0], rest);
      assert NormFields(v, fields) == [Field(fields[0].key, Norm(fields[0].value))];
    } else {
      FieldsInvert(v, fields[1..], rest);
      NextField(fields[0], CanonFields(v, fields[1..]).value, close, NormFields(v, fields[1..]), rest);
    }
  }

  // The printed field, with the text that follows it regrouped the way the reader takes it apart.
  lemma RegroupField(key: Text, t: Text, tail: Text, close: Text)
    ensures ([QUOTE] + Body(key) + [QUOTE]) + ([COLON] + (t + tail)) + close
         == [QUOTE] + (Body(key) + [QUOTE] + ([COLON] + (t + (tail + close))))
  {
    var quoted := [QUOTE] + Body(key) + [QUOTE];
    Assoc(quoted, [COLON] + (t + tail), close);
    Assoc([COLON], t + tail, close);
    Assoc(t, tail, close);
    var body := [COLON] + (t + (tail + close));
    Assoc([QUOTE], Body(key), [QUOTE]);
    Assoc([QUOTE], Body(key) + [QUOTE], body);
  }

  lemma LastField(f: Field, rest: Text)
    requires Canon(f.value).Ok?
    ensures ParseFields(([QUOTE] + Body(f.key) + [QUOTE]) + ([COLON] + (Canon(f.value).value + [])) + ([CLOSE_BRACE] + rest))
         == Parsed([Field(f.key, Norm(f.value))], rest)
    decreases f.value, 2, 0
  {
    var t := Canon(f.value).value;
    var close := [CLOSE_BRACE] + rest;
    RegroupField(f.key, t, [], close);
    assert [] + close == close;
    ParseBodyInverts(f.key, [COLON] + (t + close));
    ParseInverts(f.value, close);
    ReadLastField(Body(f.key) + [QUOTE] + ([COLON] + (t + close)), f.key, t + close, Norm(f.value), rest);
  }

  lemma NextField(f: Field, others: Text, close: Text, fields: seq<Field>, rest: Text)
    requires Canon(f.value).Ok? && ParseFields(others + close) == Parsed(fields, rest)
    ensures ParseFields(([QUOTE] + Body(f.key) + [QUOTE]) + ([COLON] + (Canon(f.value).value + ([COMMA] + others))) + close)
         == Parsed([Field(f.key, Norm(f.value))] + fields, rest)
    decreases f.value, 2, 0
  {
    var t := Canon(f.value).value;
    var more := others + close;
    RegroupField(f.key, t, [COMMA] + others, close);
    Assoc([COMMA], others, close);
    ParseBodyInverts(f.key, [COLON] + (t + ([COMMA] + more)));
    ParseInverts(f.value, [COMMA] + more);
    ReadNextField(Body(f.key) + [QUOTE] + ([COLON] + (t + ([COMMA] + more))), f.key, t + ([COMMA] + more), Norm(f.value),
                  more, fields, rest);
  }

  // The printer is inverted by the reader.
  lemma ParseInvertsCanon(v: Json)
    requires Canon(v).Ok?
    ensures Parse(Canon(v).value) == Some(Norm(v))
  {
    ParseInverts(v, []);
    assert Canon(v).value + [] == Canon(v).value;
  }

  // So one canonical text stands for one value.
  lemma CanonIsInjective(a: Json, b: Json)
    requires Canon(a).Ok? && Canon(a) == Canon(b)
    ensures Norm(a) == Norm(b)
  {
    ParseInvertsCanon(a);
    ParseInvertsCanon(b);
  }
}
