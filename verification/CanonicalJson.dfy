/**
 Canonical JSON, lib/envelope.js: the deterministic text every signature is computed over. Numbers are
 integers within the safe range; anything else the printer refuses with the code it refuses it with.
 */
module CanonicalJson {
  import opened Basics
  import Decimal
  import Utf8

  // A JavaScript value. An object keeps its keys in insertion order, each key once.
  datatype Json =
    | Null | Bool(b: bool) | Num(n: int) | Fraction | NegativeZero | Str(s: Text)
    | Arr(items: seq<Json>) | Obj(fields: seq<Field>) | Undefined

  datatype Field = Field(key: Text, value: Json)

  datatype Error = LoneSurrogate | NonInteger | NegZero | BadKey | UnsupportedType

  const QUOTE: Unit := 0x22
  const BACKSLASH: Unit := 0x5c
  const COMMA: Unit := 0x2c
  const COLON: Unit := 0x3a
  const MINUS: Unit := 0x2d
  const OPEN_BRACKET: Unit := 0x5b
  const CLOSE_BRACKET: Unit := 0x5d
  const OPEN_BRACE: Unit := 0x7b
  const CLOSE_BRACE: Unit := 0x7d
  const NULL_TEXT: Text := [0x6e, 0x75, 0x6c, 0x6c]
  const TRUE_TEXT: Text := [0x74, 0x72, 0x75, 0x65]
  const FALSE_TEXT: Text := [0x66, 0x61, 0x6c, 0x73, 0x65]

  // --------------------------------------------------------------- strings ---

  function HexDigit(n: int): Unit
    requires 0 <= n < 16
  {
    if n < 10 then 0x30 + n else 0x61 + n - 10
  }

  // One unit as it is written: the escapes of section 7 of RFC 8259, everything else literally.
  function Escape(u: Unit): Text {
    if u == QUOTE then [BACKSLASH, QUOTE]
    else if u == BACKSLASH then [BACKSLASH, BACKSLASH]
    else if u == 0x08 then [BACKSLASH, 0x62]
    else if u == 0x0c then [BACKSLASH, 0x66]
    else if u == 0x0a then [BACKSLASH, 0x6e]
    else if u == 0x0d then [BACKSLASH, 0x72]
    else if u == 0x09 then [BACKSLASH, 0x74]
    else if u <= 0x1f then [BACKSLASH, 0x75, 0x30, 0x30, HexDigit(u / 16), HexDigit(u % 16)]
    else [u]
  }

  function Body(s: Text): Text {
    if s == [] then [] else Escape(s[0]) + Body(s[1..])
  }

  function CanonicalString(s: Text): Result<Text, Error> {
    if Utf8.WellFormed(s) then Ok([QUOTE] + Body(s) + [QUOTE]) else Err(LoneSurrogate)
  }

  lemma {:induction false} BodyAppend(a: Text, b: Text)
    ensures Body(a + b) == Body(a) + Body(b)
  {
    if a == [] {
      assert a + b == b;
    } else {
      BodyAppend(a[1..], b);
      assert (a + b)[0] == a[0] && (a + b)[1..] == a[1..] + b;
      assert Escape(a[0]) + (Body(a[1..]) + Body(b)) == Escape(a[0]) + Body(a[1..]) + Body(b);
    }
  }

  // canonicalString: an accumulating loop that takes surrogate pairs two units at a time.
  method CanonicalStringLoop(s: Text) returns (r: Result<Text, Error>)
    ensures r == CanonicalString(s)
  {
    var out: Text := [QUOTE];
    var i := 0;
    while i < |s|
      invariant i <= |s|
      invariant out == [QUOTE] + Body(s[..i])
      invariant Utf8.WellFormed(s) == Utf8.WellFormed(s[i..])
    {
      if HighSurrogate(s[i]) {
        if !(i + 1 < |s| && LowSurrogate(s[i + 1])) { return Err(LoneSurrogate); }
        TakeOne(s, i, out);
        TakeOne(s, i + 1, out + [s[i]]);
        out := out + [s[i], s[i + 1]];
        assert s[i..][2..] == s[i + 2..];
        i := i + 2;
      } else {
        if LowSurrogate(s[i]) { return Err(LoneSurrogate); }
        TakeOne(s, i, out);
        out := out + Escape(s[i]);
        i := i + 1;
      }
    }
    assert s[..i] == s;
    return Ok(out + [QUOTE]);
  }

  lemma TakeOne(s: Text, i: nat, out: Text)
    requires i < |s| && out == [QUOTE] + Body(s[..i])
    ensures out + Escape(s[i]) == [QUOTE] + Body(s[..i + 1])
  {
    assert s[..i + 1] == s[..i] + [s[i]];
    BodyAppend(s[..i], [s[i]]);
    assert Body([s[i]]) == Escape(s[i]) + Body([]);
  }

  // ------------------------------------------------------------------ keys ---

  predicate IsLetter(u: Unit) { 0x61 <= u <= 0x7a }

  // A lower-case letter, then lower-case letters, digits and underscores.
  predicate GoodKey(key: Text) {
    key != [] && IsLetter(key[0]) &&
    forall i :: 0 <= i < |key| ==> IsLetter(key[i]) || Decimal.IsDigit(key[i]) || key[i] == 0x5f
  }

  // Array#sort's default order: by UTF-16 code units.
  predicate KeyLess(a: Text, b: Text) {
    b != [] && (a == [] || a[0] < b[0] || (a[0] == b[0] && KeyLess(a[1..], b[1..])))
  }

  function InsertField(f: Field, fs: seq<Field>): (r: seq<Field>)
    ensures multiset(r) == multiset{f} + multiset(fs)
  {
    if fs == [] then [f]
    else if KeyLess(fs[0].key, f.key) then
      assert fs == [fs[0]] + fs[1..];
      [fs[0]] + InsertField(f, fs[1..])
    else [f] + fs
  }

  // The present fields in key order.
  function SortFields(fs: seq<Field>): (r: seq<Field>)
    ensures forall f :: f in r ==> f in fs && f.value != Undefined
    ensures |r| <= |fs|
  {
    if fs == [] then []
    else
      var rest := SortFields(fs[1..]);
      if fs[0].value == Undefined then rest
      else
        var r := InsertField(fs[0], rest);
        assert forall f :: f in r ==> f in multiset(r);
        r
  }

  // --------------------------------------------------------------- the printer ---

  function NumText(n: int): Text { if n < 0 then [MINUS] + Decimal.Digits(-n) else Decimal.Digits(n) }

  function Canon(v: Json): Result<Text, Error>
    decreases v, 1, 0
  {
    match v
    case Null => Ok(NULL_TEXT)
    case Bool(b) => Ok(if b then TRUE_TEXT else FALSE_TEXT)
    case Num(n) => Ok(NumText(n))
    case Fraction => Err(NonInteger)
    case NegativeZero => Err(NegZero)
    case Str(s) => CanonicalString(s)
    case Arr(items) =>
      (match CanonItems(v, items)
       case Ok(t) => Ok([OPEN_BRACKET] + (t + [CLOSE_BRACKET]))
       case Err(e) => Err(e))
    case Obj(fields) =>
      var sorted := SortFields(fields);
      if exists i :: 0 <= i < |sorted| && !GoodKey(sorted[i].key) then Err(BadKey)
      else
        (match CanonFields(v, sorted)
         case Ok(t) => Ok([OPEN_BRACE] + (t + [CLOSE_BRACE]))
         case Err(e) => Err(e))
    case Undefined => Err(UnsupportedType)
  }

  // The items, printed and joined with commas.
  function CanonItems(ghost v: Json, items: seq<Json>): Result<Text, Error>
    requires forall x :: x in items ==> x < v
    decreases v, 0, |items|
  {
    if items == [] then Ok([])
    else
      assert items[0] in items && forall x :: x in items[1..] ==> x in items;
      match Canon(items[0])
      case Err(e) => Err(e)
      case Ok(t) =>
        if |items| == 1 then Ok(t)
        else
          match CanonItems(v, items[1..])
          case Err(e) => Err(e)
          case Ok(rest) => Ok(t + ([COMMA] + rest))
  }

  function CanonFields(ghost v: Json, fields: seq<Field>): Result<Text, Error>
    requires forall f :: f in fields ==> f.value < v
    decreases v, 0, |fields|
  {
    if fields == [] then Ok([])
    else
      match CanonicalString(fields[0].key)
      case Err(e) => Err(e)
      case Ok(key) =>
        match Canon(fields[0].value)
        case Err(e) => Err(e)
        case Ok(t) =>
          if |fields| == 1 then Ok(key + ([COLON] + t))
          else
            match CanonFields(v, fields[1..])
            case Err(e) => Err(e)
            case Ok(rest) => Ok(key + ([COLON] + (t + ([COMMA] + rest))))
  }

  // ------------------------------------------------- what the printer preserves ---

  // The value as a reader gets it back: keys in order, absent values gone.
  function Norm(v: Json): Json
    decreases v, 1, 0
  {
    match v
    case Arr(items) => Arr(NormItems(v, items))
    case Obj(fields) => Obj(NormFields(v, SortFields(fields)))
    case _ => v
  }

  function NormItems(ghost v: Json, items: seq<Json>): (r: seq<Json>)
    requires forall x :: x in items ==> x < v
    ensures |r| == |items|
    decreases v, 0, |items|
  {
    if items == [] then []
    else
      assert items[0] in items && forall x :: x in items[1..] ==> x in items;
      [Norm(items[0])] + NormItems(v, items[1..])
  }

  function NormFields(ghost v: Json, fields: seq<Field>): (r: seq<Field>)
    requires forall f :: f in fields ==> f.value < v
    ensures |r| == |fields|
    decreases v, 0, |fields|
  {
    if fields == [] then []
    else
      assert fields[0] in fields && forall f :: f in fields[1..] ==> f in fields;
      [Field(fields[0].key, Norm(fields[0].value))] + NormFields(v, fields[1..])
  }
}
