/** The letters of the canonical text: what a string, an array and an object look like, printed. */
module CanonShape {
  import opened Basics
  import opened CanonicalJson
  import opened JsonOrder
  import opened JsonParse
  import opened Sorting
  import Decimal
  import Utf8

  // ------------------------------------------------------------------ plain strings ---

  // A unit that JSON lets stand for itself in a string.
  predicate Plain(u: Unit) { u >= 0x20 && u != 0x22 && u != 0x5c }

  predicate AllPlain(s: Text) { forall i :: 0 <= i < |s| ==> Plain(s[i]) }

  lemma {:induction false} PlainBody(s: Text)
    requires AllPlain(s)
    ensures Body(s) == s
  {
    if s != [] {
      PlainBody(s[1..]);
      assert s == [s[0]] + s[1..];
    }
  }

  lemma PlainPrintsAsItself(s: Text)
    requires AllPlain(s) && Utf8.WellFormed(s)
    ensures CanonicalString(s) == Ok([0x22] + s + [0x22])
  {
    PlainBody(s);
  }

  // A string prints piece by piece, so a plain piece stands in the text as it is wherever it comes.
  lemma PiecesPrintInPlace(a: Text, plain: Text, b: Text, x: Text, y: Text)
    requires Utf8.WellFormed(a) && Utf8.WellFormed(plain) && Utf8.WellFormed(b) && AllPlain(plain)
    requires CanonicalString(a) == Ok([0x22] + x + [0x22]) && CanonicalString(b) == Ok([0x22] + y + [0x22])
    ensures CanonicalString(a + (plain + b)) == Ok([0x22] + (x + (plain + y)) + [0x22])
  {
    WellFormedConcat(plain, b);
    WellFormedConcat(a, plain + b);
    BodyAppend(plain, b);
    BodyAppend(a, plain + b);
    PlainBody(plain);
    Inside(Body(a), x);
    Inside(Body(b), y);
  }

  lemma Inside(x: Text, y: Text)
    requires [QUOTE] + x + [QUOTE] == [0x22] + y + [0x22]
    ensures x == y
  {
    var s, t := [QUOTE] + x + [QUOTE], [0x22] + y + [0x22];
    assert s[1..|s| - 1] == x && t[1..|t| - 1] == y;
  }

  // -------------------------------------------------------------- shortest spelling ---

  // b is t, but for hexadecimal digits that b has in lower case where t has them in upper case.
  predicate SameButCase(b: Text, t: Text) {
    |b| == |t| && forall i :: 0 <= i < |t| ==> b[i] == t[i] || (0x41 <= t[i] <= 0x46 && b[i] == t[i] + 0x20)
  }

  lemma SameCaseConcat(a: Text, b: Text, x: Text, y: Text)
    requires SameButCase(a, x) && SameButCase(b, y)
    ensures SameButCase(a + b, x + y)
  {
  }

  // No spelling of a string is shorter than the printed one, and one that is as long is the same but for case.
  lemma {:induction false} BodyIsShortest(t: Text, s: Text, rest: Text)
    requires ParseBody(t + ([QUOTE] + rest)) == JsonParse.Parsed(s, rest)
    ensures |Body(s)| <= |t| && (|Body(s)| == |t| ==> SameButCase(Body(s), t))
    decreases |t|
  {
    var all := t + ([QUOTE] + rest);
    if t == [] {
      assert all[0] == QUOTE && all[1..] == rest;
    } else if t[0] == QUOTE {
      assert |all[1..]| > |rest|;
    } else if t[0] != BACKSLASH {
      assert all[0] == t[0] && all[1..] == t[1..] + ([QUOTE] + rest);
      LiteralIsShortest(t, s, rest);
    } else if |t| >= 2 && t[1] == 0x75 {
      HexIsShortest(t, s, rest);
    } else {
      EscapeIsShortest(t, s, rest);
    }
  }

  lemma LiteralIsShortest(t: Text, s: Text, rest: Text)
    requires t != [] && t[0] != QUOTE && t[0] != BACKSLASH
    requires ParseBody(t + ([QUOTE] + rest)) == JsonParse.Parsed(s, rest)
    ensures |Body(s)| <= |t| && (|Body(s)| == |t| ==> SameButCase(Body(s), t))
    decreases |t|, 0
  {
    var all := t + ([QUOTE] + rest);
    assert all[0] == t[0] && all[1..] == t[1..] + ([QUOTE] + rest);
    BodyIsShortest(t[1..], s[1..], rest);
    assert t == [t[0]] + t[1..] && Body(s) == Escape(s[0]) + Body(s[1..]);
    if |Body(s)| == |t| { SameCaseConcat(Escape(s[0]), Body(s[1..]), [t[0]], t[1..]); }
  }

  lemma HexIsShortest(t: Text, s: Text, rest: Text)
    requires |t| >= 2 && t[0] == BACKSLASH && t[1] == 0x75
    requires ParseBody(t + ([QUOTE] + rest)) == JsonParse.Parsed(s, rest)
    ensures |Body(s)| <= |t| && (|Body(s)| == |t| ==> SameButCase(Body(s), t))
    decreases |t|, 0
  {
    var all := t + ([QUOTE] + rest);
    assert all[0] == t[0] && all[1] == t[1];
    if |t| >= 6 {
      assert all[2..][0] == t[2] && all[2..][1] == t[3] && all[2..][2] == t[4] && all[2..][3] == t[5];
      assert all[6..] == t[6..] + ([QUOTE] + rest);
      BodyIsShortest(t[6..], s[1..], rest);
      assert t == t[..6] + t[6..] && Body(s) == Escape(s[0]) + Body(s[1..]);
      if |Body(s)| == |t| {
        HexCase(t[..6], s[0]);
        SameCaseConcat(Escape(s[0]), Body(s[1..]), t[..6], t[6..]);
      }
    }
  }

  lemma HexCase(h: Text, u: Unit)
    requires |h| == 6 && h[0] == BACKSLASH && h[1] == 0x75 && Hex4(h[2..]) == Some(u) && |Escape(u)| == 6
    ensures SameButCase(Escape(u), h)
  {
    assert h[2..][0] == h[2] && h[2..][1] == h[3] && h[2..][2] == h[4] && h[2..][3] == h[5];
    var c, d := HexValue(h[4]).value, HexValue(h[5]).value;
    assert u == c * 16 + d;
  }

  lemma EscapeIsShortest(t: Text, s: Text, rest: Text)
    requires t != [] && t[0] == BACKSLASH && (|t| < 2 || t[1] != 0x75)
    requires ParseBody(t + ([QUOTE] + rest)) == JsonParse.Parsed(s, rest)
    ensures |Body(s)| <= |t| && (|Body(s)| == |t| ==> SameButCase(Body(s), t))
    decreases |t|, 0
  {
    var all := t + ([QUOTE] + rest);
    assert all[0] == t[0];
    if |t| >= 2 {
      assert all[1] == t[1] && all[2..] == t[2..] + ([QUOTE] + rest);
      BodyIsShortest(t[2..], s[1..], rest);
      assert t == [t[0], t[1]] + t[2..] && Body(s) == Escape(s[0]) + Body(s[1..]);
      if |Body(s)| == |t| { SameCaseConcat(Escape(s[0]), Body(s[1..]), [t[0], t[1]], t[2..]); }
    }
  }

  // Of all the texts a JSON reader takes for this string the printed one is the shortest, and of the shortest the one
  // with its hexadecimal digits in lower case.
  lemma StringIsShortest(s: Text, t: Text, rest: Text)
    requires Utf8.WellFormed(s) && ParseBody(t + ([0x22] + rest)) == JsonParse.Parsed(s, rest)
    ensures var printed := CanonicalString(s).value;
      |printed| <= |t| + 2 && (|printed| == |t| + 2 ==> SameButCase(printed, [0x22] + t + [0x22]))
  {
    BodyIsShortest(t, s, rest);
    if |Body(s)| == |t| {
      SameCaseConcat([QUOTE], Body(s), [QUOTE], t);
      SameCaseConcat([QUOTE] + Body(s), [QUOTE], [QUOTE] + t, [QUOTE]);
    }
  }

  // --------------------------------------------------------------- the other letters ---

  lemma ScalarsPrintAs(b: bool, n: int)
    ensures Canon(Null) == Ok([0x6e, 0x75, 0x6c, 0x6c])
    ensures Canon(Bool(b)) == Ok(if b then [0x74, 0x72, 0x75, 0x65] else [0x66, 0x61, 0x6c, 0x73, 0x65])
    ensures Canon(Num(n)) == Ok(if n >= 0 then Decimal.Digits(n) else [0x2d] + Decimal.Digits(0 - n))
  {
  }

  // The letter after the backslash for the units that have one.
  function Letter(u: Unit): Unit {
    if u == 0x08 then 0x62 else if u == 0x09 then 0x74 else if u == 0x0a then 0x6e
    else if u == 0x0c then 0x66 else if u == 0x0d then 0x72 else u
  }

  // What is not plain: a backslash and a letter for the two marks and five of the control units, and
  // a backslash, u, two zeros and two lower-case digits for the other control units.
  lemma EscapePrintsAs(u: Unit, tens: Unit, ones: Unit)
    requires !Plain(u)
    requires tens == 0x30 + u / 16 && ones == (if u % 16 < 10 then 0x30 + u % 16 else 0x57 + u % 16)
    ensures u == 0x22 || u == 0x5c || Letter(u) != u ==> CanonicalString([u]) == Ok([0x22, 0x5c, Letter(u), 0x22])
    ensures !(u == 0x22 || u == 0x5c || Letter(u) != u) ==>
      CanonicalString([u]) == Ok([0x22, 0x5c, 0x75, 0x30, 0x30, tens, ones, 0x22])
  {
    OneUnit(u);
    assert CanonicalString([u]) == Ok([0x22] + Escape(u) + [0x22]);
    if u == 0x22 || u == 0x5c || Letter(u) != u {
      assert [0x22] + [0x5c, Letter(u)] + [0x22] == [0x22, 0x5c, Letter(u), 0x22];
    } else {
      assert [0x22] + [0x5c, 0x75, 0x30, 0x30, tens, ones] + [0x22] == [0x22, 0x5c, 0x75, 0x30, 0x30, tens, ones, 0x22];
    }
  }

  lemma OneUnit(u: Unit)
    requires !HighSurrogate(u) && !LowSurrogate(u)
    ensures Utf8.WellFormed([u]) && Body([u]) == Escape(u)
  {
    assert [u][1..] == [];
  }

  // An array: the texts of its items, in order, between brackets and with commas in between.
  lemma ArrayPrintsAs(items: seq<Json>) returns (texts: seq<Text>)
    requires Canon(Arr(items)).Ok?
    ensures |texts| == |items| && forall i :: 0 <= i < |items| ==> Canon(items[i]) == Ok(texts[i])
    ensures Canon(Arr(items)) == Ok([0x5b] + (Join(texts, [0x2c]) + [0x5d]))
  {
    texts := ItemTexts(Arr(items), items);
  }

  lemma {:induction false} ItemTexts(v: Json, items: seq<Json>) returns (texts: seq<Text>)
    requires (forall x :: x in items ==> x < v) && CanonItems(v, items).Ok?
    ensures |texts| == |items| && forall i :: 0 <= i < |items| ==> Canon(items[i]) == Ok(texts[i])
    ensures CanonItems(v, items) == Ok(Join(texts, [0x2c]))
    decreases |items|
  {
    texts := [];
    if items != [] {
      assert items[0] in items && forall x :: x in items[1..] ==> x in items;
      var rest := [];
      if |items| > 1 { rest := ItemTexts(v, items[1..]); }
      texts := [Canon(items[0]).value] + rest;
      assert texts[1..] == rest;
    }
  }

  // The texts of these fields: the quoted key, a colon and the text of the value.
  ghost predicate AreTexts(fields: seq<Field>, texts: seq<Text>, values: seq<Text>) {
    |values| == |texts| == |fields| &&
    forall i :: 0 <= i < |fields| ==>
      Canon(fields[i].value) == Ok(values[i]) && texts[i] == [0x22] + fields[i].key + [0x22] + ([0x3a] + values[i])
  }

  // An object: its present fields in key order, each the quoted key, a colon and the text of the value.
  lemma ObjectPrintsAs(fields: seq<Field>) returns (sorted: seq<Field>, texts: seq<Text>, values: seq<Text>)
    requires Canon(Obj(fields)).Ok?
    ensures Ordered(sorted) && multiset(sorted) == multiset(Filter(fields, (f: Field) => f.value != Undefined))
    ensures AreTexts(sorted, texts, values)
    ensures Canon(Obj(fields)) == Ok([0x7b] + (Join(texts, [0x2c]) + [0x7d]))
  {
    sorted := SortFields(fields);
    SortFieldsOrders(fields);
    FilterAgrees(fields, IsPresent, (f: Field) => f.value != Undefined);
    ObjectPrints(fields, Obj(fields));
    texts, values := FieldTexts(Obj(fields), sorted);
  }

  lemma OneMoreText(field: Field, value: Text, fields: seq<Field>, texts: seq<Text>, values: seq<Text>)
    requires AreTexts(fields, texts, values) && Canon(field.value) == Ok(value)
    ensures AreTexts([field] + fields, [[0x22] + field.key + [0x22] + ([0x3a] + value)] + texts, [value] + values)
  {
  }

  lemma {:induction false} FieldTexts(v: Json, fields: seq<Field>) returns (texts: seq<Text>, values: seq<Text>)
    requires (forall f :: f in fields ==> f.value < v) && CanonFields(v, fields).Ok?
    requires forall i :: 0 <= i < |fields| ==> GoodKey(fields[i].key)
    ensures AreTexts(fields, texts, values)
    ensures CanonFields(v, fields) == Ok(Join(texts, [0x2c]))
    decreases |fields|
  {
    texts, values := [], [];
    if fields != [] {
      assert fields[0] in fields && forall f :: f in fields[1..] ==> f in fields;
      var key, value := fields[0].key, Canon(fields[0].value).value;
      KeyPrintsAsItself(key);
      if |fields| > 1 {
        texts, values := FieldTexts(v, fields[1..]);
        Colon([0x22] + key + [0x22], value, Join(texts, [0x2c]));
      }
      assert fields == [fields[0]] + fields[1..];
      OneMoreText(fields[0], value, fields[1..], texts, values);
      JoinFirst([0x22] + key + [0x22] + ([0x3a] + value), texts);
      texts, values := [[0x22] + key + [0x22] + ([0x3a] + value)] + texts, [value] + values;
    }
  }

  lemma JoinFirst(first: Text, rest: seq<Text>)
    ensures Join([first] + rest, [0x2c]) == if rest == [] then first else first + ([0x2c] + Join(rest, [0x2c]))
  {
    assert ([first] + rest)[1..] == rest;
  }

  lemma Colon(key: Text, value: Text, more: Text)
    ensures key + ([0x3a] + (value + ([0x2c] + more))) == (key + ([0x3a] + value)) + ([0x2c] + more)
  {
  }

  lemma KeyPrintsAsItself(key: Text)
    requires GoodKey(key)
    ensures CanonicalString(key) == Ok([0x22] + key + [0x22])
  {
    AsciiWellFormed(key);
    PlainPrintsAsItself(key);
  }

  // ------------------------------------------------------------ what prints at all ---

  // A lower-case letter, and then lower-case letters, digits and underscores.
  predicate IsName(key: Text) {
    |key| > 0 && 0x61 <= key[0] <= 0x7a &&
    forall i :: 0 <= i < |key| ==> 0x61 <= key[i] <= 0x7a || 0x30 <= key[i] <= 0x39 || key[i] == 0x5f
  }

  predicate Prints(f: Field) { IsName(f.key) && Canon(f.value).Ok? }

  lemma {:induction false} FieldsPrintWhen(v: Json, fields: seq<Field>)
    requires forall f :: f in fields ==> f.value < v && GoodKey(f.key)
    ensures CanonFields(v, fields).Ok? <==> forall f :: f in fields ==> Canon(f.value).Ok?
    decreases |fields|
  {
    if fields != [] {
      assert fields[0] in fields && forall f :: f in fields[1..] ==> f in fields;
      assert forall f :: f in fields ==> f == fields[0] || f in fields[1..];
      KeyPrintsAsItself(fields[0].key);
      FieldsPrintWhen(v, fields[1..]);
    }
  }

  lemma SortedMembers(fields: seq<Field>, f: Field)
    ensures f in SortFields(fields) <==> f in fields && f.value != Undefined
  {
    SortFieldsOrders(fields);
    FilterMembers(fields, IsPresent, f);
    SameElements(SortFields(fields), Filter(fields, IsPresent), f);
  }

  lemma SortedPrintWhen(v: Json, sorted: seq<Field>, printed: bool)
    requires forall f :: f in sorted ==> f.value < v
    requires printed <==>
      (forall i :: 0 <= i < |sorted| ==> GoodKey(sorted[i].key)) && CanonFields(v, sorted).Ok?
    ensures printed <==> forall f :: f in sorted ==> Prints(f)
  {
    if forall f :: f in sorted ==> GoodKey(f.key) {
      FieldsPrintWhen(v, sorted);
    } else {
      var f :| f in sorted && !GoodKey(f.key);
      assert !Prints(f);
    }
  }

  // An object prints exactly when each present field has a name for a key and a value that prints.
  lemma ObjectPrintsExactlyWhen(fields: seq<Field>)
    ensures Canon(Obj(fields)).Ok? <==> forall f :: f in fields && f.value != Undefined ==> Prints(f)
  {
    ObjectPrints(fields, Obj(fields));
    SortedPrintWhen(Obj(fields), SortFields(fields), Canon(Obj(fields)).Ok?);
    forall f ensures f in SortFields(fields) <==> f in fields && f.value != Undefined { SortedMembers(fields, f); }
  }
}
