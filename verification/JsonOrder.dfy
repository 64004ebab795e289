/** The order of keys, and what it makes of printing: a first pass of the printer changes nothing more. */
module JsonOrder {
  import opened Basics
  import opened CanonicalJson
  import opened Sorting
  import Decimal
  import Utf8

  // ------------------------------------------------------------ the key order ---

  lemma {:induction false} KeyLessAsymmetric(a: Text, b: Text)
    requires KeyLess(a, b)
    ensures !KeyLess(b, a)
  {
    if a != [] && a[0] == b[0] { KeyLessAsymmetric(a[1..], b[1..]); }
  }

  lemma {:induction false} KeyLessTransitive(a: Text, b: Text, c: Text)
    requires KeyLess(a, b) && KeyLess(b, c)
    ensures KeyLess(a, c)
  {
    if a != [] && a[0] == b[0] && b[0] == c[0] { KeyLessTransitive(a[1..], b[1..], c[1..]); }
  }

  lemma {:induction false} KeyLessTotal(a: Text, b: Text)
    ensures a == b || KeyLess(a, b) || KeyLess(b, a)
  {
    if a != [] && b != [] && a[0] == b[0] {
      KeyLessTotal(a[1..], b[1..]);
      assert a == [a[0]] + a[1..] && b == [b[0]] + b[1..];
    }
  }

  // No later key is smaller.
  ghost predicate Ordered(fs: seq<Field>) {
    forall i, j :: 0 <= i < j < |fs| ==> !KeyLess(fs[j].key, fs[i].key)
  }

  ghost predicate DistinctKeys(fs: seq<Field>) {
    forall i, j :: 0 <= i < j < |fs| ==> fs[i].key != fs[j].key
  }

  const IsPresent: Field -> bool := (f: Field) => f.value != Undefined

  lemma NotLessTransitive(a: Text, b: Text, c: Text)
    requires !KeyLess(b, a) && !KeyLess(c, b)
    ensures !KeyLess(c, a)
  {
    KeyLessTotal(a, b);
    KeyLessTotal(b, c);
    if KeyLess(c, a) {
      if KeyLess(a, b) {
        KeyLessTransitive(c, a, b);
      }
    }
  }

  lemma {:induction false} InsertOrdered(f: Field, fs: seq<Field>)
    requires Ordered(fs)
    ensures Ordered(InsertField(f, fs))
  {
    if fs != [] {
      if KeyLess(fs[0].key, f.key) {
        InsertOrdered(f, fs[1..]);
        KeyLessAsymmetric(fs[0].key, f.key);
        var r := InsertField(f, fs[1..]);
        forall i | 0 <= i < |r| ensures !KeyLess(r[i].key, fs[0].key) {
          assert r[i] in multiset(r);
          if r[i] != f { assert r[i] in fs[1..]; }
        }
      } else {
        forall i | 0 <= i < |fs| ensures !KeyLess(fs[i].key, f.key) {
          if i > 0 { NotLessTransitive(f.key, fs[0].key, fs[i].key); }
        }
      }
    }
  }

  lemma {:induction false} SortFieldsOrders(fs: seq<Field>)
    ensures Ordered(SortFields(fs))
    ensures multiset(SortFields(fs)) == multiset(Filter(fs, IsPresent))
  {
    if fs != [] {
      SortFieldsOrders(fs[1..]);
      if fs[0].value != Undefined {
        InsertOrdered(fs[0], SortFields(fs[1..]));
      }
    }
  }

  // Ordered present fields stay as they are.
  lemma {:induction false} OrderedIsFixed(fs: seq<Field>)
    requires Ordered(fs) && forall i :: 0 <= i < |fs| ==> fs[i].value != Undefined
    ensures SortFields(fs) == fs
  {
    if fs != [] {
      OrderedIsFixed(fs[1..]);
      assert |fs| > 1 ==> !KeyLess(fs[1].key, fs[0].key);
    }
  }

  lemma FirstIsFirst(a: seq<Field>, f: Field)
    requires Ordered(a) && f in a
    ensures !KeyLess(f.key, a[0].key)
  {
    var i :| 0 <= i < |a| && a[i] == f;
    if i == 0 { KeyLessTotal(f.key, f.key); IrreflexiveKey(f.key); }
  }

  lemma {:induction false} IrreflexiveKey(a: Text)
    ensures !KeyLess(a, a)
  {
    if a != [] { IrreflexiveKey(a[1..]); }
  }

  // ------------------------------------------------- the bound plays no part ---

  lemma FieldsBoundIrrelevant(v: Json, w: Json, fields: seq<Field>)
    requires forall f :: f in fields ==> f.value < v && f.value < w
    ensures CanonFields(v, fields) == CanonFields(w, fields) && NormFields(v, fields) == NormFields(w, fields)
  {
    TextBoundIrrelevant(v, w, fields);
    NormBoundIrrelevant(v, w, fields);
  }

  lemma {:induction false} TextBoundIrrelevant(v: Json, w: Json, fields: seq<Field>)
    requires forall f :: f in fields ==> f.value < v && f.value < w
    ensures CanonFields(v, fields) == CanonFields(w, fields)
  {
    if fields != [] {
      assert fields[0] in fields && forall f :: f in fields[1..] ==> f in fields;
      TextBoundIrrelevant(v, w, fields[1..]);
    }
  }

  lemma {:induction false} NormBoundIrrelevant(v: Json, w: Json, fields: seq<Field>)
    requires forall f :: f in fields ==> f.value < v && f.value < w
    ensures NormFields(v, fields) == NormFields(w, fields)
  {
    if fields != [] {
      assert fields[0] in fields && forall f :: f in fields[1..] ==> f in fields;
      NormBoundIrrelevant(v, w, fields[1..]);
    }
  }

  // Two objects whose present fields sort alike are printed and read back alike.
  lemma SameSortedFieldsPrintAlike(a: seq<Field>, b: seq<Field>)
    requires SortFields(a) == SortFields(b)
    ensures Canon(Obj(a)) == Canon(Obj(b)) && Norm(Obj(a)) == Norm(Obj(b))
  {
    var v, w, sorted := Obj(a), Obj(b), SortFields(a);
    assert forall f :: f in sorted ==> f.value < v;
    assert forall f :: f in SortFields(b) ==> f.value < w;
    FieldsBoundIrrelevant(v, w, sorted);
    ObjectPrints(a, v);
    ObjectPrints(b, w);
  }

  // The printed object and the object read back, in terms of the sorted fields.
  lemma ObjectPrints(a: seq<Field>, v: Json)
    requires v == Obj(a)
    ensures forall f :: f in SortFields(a) ==> f.value < v
    ensures Norm(v) == Obj(NormFields(v, SortFields(a)))
    ensures Canon(v) == if exists i :: 0 <= i < |SortFields(a)| && !GoodKey(SortFields(a)[i].key) then Err(BadKey)
                        else match CanonFields(v, SortFields(a))
                             case Ok(t) => Ok([OPEN_BRACE] + (t + [CLOSE_BRACE]))
                             case Err(e) => Err(e)
  {
    assert forall f :: f in SortFields(a) ==> f in a;
  }

  // ---------------------------------------------- what is read back prints alike ---

  lemma {:induction false} NormKeepsKeys(v: Json, fields: seq<Field>)
    requires forall f :: f in fields ==> f.value < v
    ensures forall i :: 0 <= i < |fields| ==> NormFields(v, fields)[i].key == fields[i].key
    ensures forall i :: 0 <= i < |fields| && fields[i].value != Undefined ==> NormFields(v, fields)[i].value != Undefined
  {
    if fields != [] {
      assert fields[0] in fields && forall f :: f in fields[1..] ==> f in fields;
      NormKeepsKeys(v, fields[1..]);
    }
  }

  lemma {:induction false} CanonOfNorm(v: Json)
    requires Canon(v).Ok?
    ensures Canon(Norm(v)) == Canon(v)
    decreases v, 1, 0
  {
    match v
    case Arr(items) => CanonOfNormItems(v, items, Norm(v));
    case Obj(fields) =>
      var sorted := SortFields(fields);
      var normal := NormFields(v, sorted);
      NormKeepsKeys(v, sorted);
      SortFieldsOrders(fields);
      forall i | 0 <= i < |sorted| ensures sorted[i].value != Undefined { assert sorted[i] in sorted; }
      OrderedIsFixed(normal);
      CanonOfNormFields(v, sorted, Norm(v));
    case _ =>
  }

  lemma {:induction false} CanonOfNormItems(v: Json, items: seq<Json>, w: Json)
    requires forall x :: x in items ==> x < v
    requires forall x :: x in NormItems(v, items) ==> x < w
    requires CanonItems(v, items).Ok?
    ensures CanonItems(w, NormItems(v, items)) == CanonItems(v, items)
    decreases v, 0, |items|
  {
    if items != [] {
      assert items[0] in items && forall x :: x in items[1..] ==> x in items;
      CanonOfNorm(items[0]);
      var normal := NormItems(v, items);
      assert normal[1..] == NormItems(v, items[1..]);
      assert normal[0] in normal && forall x :: x in normal[1..] ==> x in normal;
      if |items| > 1 { CanonOfNormItems(v, items[1..], w); }
    }
  }

  lemma {:induction false} CanonOfNormFields(v: Json, fields: seq<Field>, w: Json)
    requires forall f :: f in fields ==> f.value < v
    requires forall f :: f in NormFields(v, fields) ==> f.value < w
    requires CanonFields(v, fields).Ok?
    ensures CanonFields(w, NormFields(v, fields)) == CanonFields(v, fields)
    decreases v, 0, |fields|
  {
    if fields != [] {
      assert fields[0] in fields && forall f :: f in fields[1..] ==> f in fields;
      CanonOfNorm(fields[0].value);
      var normal := NormFields(v, fields);
      assert normal[1..] == NormFields(v, fields[1..]);
      assert normal[0] in normal && forall f :: f in normal[1..] ==> f in normal;
      if |fields| > 1 { CanonOfNormFields(v, fields[1..], w); }
    }
  }

  // ----------------------------------------------- the text encodes faithfully ---

  lemma {:induction false} WellFormedConcat(a: Text, b: Text)
    requires Utf8.WellFormed(a) && Utf8.WellFormed(b)
    ensures Utf8.WellFormed(a + b)
    decreases |a|
  {
    if a == [] {
      assert a + b == b;
    } else if HighSurrogate(a[0]) {
      assert (a + b)[2..] == a[2..] + b && (a + b)[1] == a[1];
      WellFormedConcat(a[2..], b);
    } else {
      assert (a + b)[1..] == a[1..] + b;
      WellFormedConcat(a[1..], b);
    }
  }

  predicate Ascii(t: Text) { forall i :: 0 <= i < |t| ==> t[i] < 0x80 }

  lemma {:induction false} AsciiWellFormed(t: Text)
    requires Ascii(t)
    ensures Utf8.WellFormed(t)
  {
    if t != [] { AsciiWellFormed(t[1..]); }
  }

  lemma {:induction false} BodyWellFormed(s: Text)
    requires Utf8.WellFormed(s)
    ensures Utf8.WellFormed(Body(s))
    decreases |s|
  {
    if s == [] {
    } else if HighSurrogate(s[0]) {
      BodyWellFormed(s[2..]);
      assert s[1..][0] == s[1] && s[1..][1..] == s[2..];
      assert Body(s) == [s[0]] + ([s[1]] + Body(s[2..]));
      assert Body(s)[2..] == Body(s[2..]);
    } else {
      BodyWellFormed(s[1..]);
      if |Escape(s[0])| > 1 { AsciiWellFormed(Escape(s[0])); }
      WellFormedConcat(Escape(s[0]), Body(s[1..]));
    }
  }

  lemma {:induction false} CanonWellFormed(v: Json)
    requires Canon(v).Ok?
    ensures Utf8.WellFormed(Canon(v).value)
    decreases v, 1, 0
  {
    match v
    case Num(n) => NumTextWellFormed(n);
    case Str(s) => QuotedWellFormed(s);
    case Arr(items) =>
      ItemsWellFormed(v, items);
      Bracketed(OPEN_BRACKET, CanonItems(v, items).value, CLOSE_BRACKET);
    case Obj(fields) =>
      FieldsWellFormed(v, SortFields(fields));
      Bracketed(OPEN_BRACE, CanonFields(v, SortFields(fields)).value, CLOSE_BRACE);
    case Null => AsciiWellFormed(NULL_TEXT);
    case Bool(b) => AsciiWellFormed(if b then TRUE_TEXT else FALSE_TEXT);
    case _ =>
  }

  lemma NumTextWellFormed(n: int)
    ensures Utf8.WellFormed(NumText(n))
  {
    Decimal.ValueOfDigits(if n < 0 then -n else n);
    AsciiWellFormed(NumText(n));
  }

  lemma Bracketed(open: Unit, t: Text, close: Unit)
    requires open < 0x80 && close < 0x80 && Utf8.WellFormed(t)
    ensures Utf8.WellFormed([open] + (t + [close]))
  {
    AsciiWellFormed([open]);
    AsciiWellFormed([close]);
    WellFormedConcat(t, [close]);
    WellFormedConcat([open], t + [close]);
  }

  lemma QuotedWellFormed(s: Text)
    requires Utf8.WellFormed(s)
    ensures Utf8.WellFormed([QUOTE] + Body(s) + [QUOTE])
  {
    BodyWellFormed(s);
    Bracketed(QUOTE, Body(s), QUOTE);
    assert [QUOTE] + Body(s) + [QUOTE] == [QUOTE] + (Body(s) + [QUOTE]);
  }

  lemma Joined(a: Text, u: Unit, b: Text)
    requires u < 0x80 && Utf8.WellFormed(a) && Utf8.WellFormed(b)
    ensures Utf8.WellFormed(a + ([u] + b))
  {
    AsciiWellFormed([u]);
    WellFormedConcat([u], b);
    WellFormedConcat(a, [u] + b);
  }

  lemma {:induction false} ItemsWellFormed(v: Json, items: seq<Json>)
    requires forall x :: x in items ==> x < v
    requires CanonItems(v, items).Ok?
    ensures Utf8.WellFormed(CanonItems(v, items).value)
    decreases v, 0, |items|
  {
    if items != [] {
      assert items[0] in items && forall x :: x in items[1..] ==> x in items;
      CanonWellFormed(items[0]);
      if |items| > 1 {
        ItemsWellFormed(v, items[1..]);
        Joined(Canon(items[0]).value, COMMA, CanonItems(v, items[1..]).value);
      }
    }
  }

  lemma {:induction false} FieldsWellFormed(v: Json, fields: seq<Field>)
    requires forall f :: f in fields ==> f.value < v
    requires CanonFields(v, fields).Ok?
    ensures Utf8.WellFormed(CanonFields(v, fields).value)
    decreases v, 0, |fields|
  {
    if fields != [] {
      assert fields[0] in fields && forall f :: f in fields[1..] ==> f in fields;
      var key, t := CanonicalString(fields[0].key).value, Canon(fields[0].value).value;
      QuotedWellFormed(fields[0].key);
      CanonWellFormed(fields[0].value);
      if |fields| == 1 {
        Joined(key, COLON, t);
      } else {
        FieldsWellFormed(v, fields[1..]);
        Joined(t, COMMA, CanonFields(v, fields[1..]).value);
        Joined(key, COLON, t + ([COMMA] + CanonFields(v, fields[1..]).value));
      }
    }
  }
}
