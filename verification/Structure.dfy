/** The shape check an envelope passes before it is verified, lib/envelope.js, and how it meets the printer. */
module Structure {
  import opened Basics
  import opened CanonicalJson
  import opened JsonOrder
  import opened Sorting
  import Utf8

  datatype Code = TooDeep | NonIntegerNumber | KeyCharset | UnsupportedValue

  const MAX_DEPTH := 8

  function StructureCode(v: Json, depth: nat): Option<Code>
    decreases v, 1, 0
  {
    if depth > MAX_DEPTH then Some(TooDeep)
    else
      match v
      case Fraction => Some(NonIntegerNumber)
      case Arr(items) => ItemsCode(v, items, depth)
      case Obj(fields) => FieldsCode(v, fields, depth)
      case Undefined => Some(UnsupportedValue)
      case _ => None
  }

  function ItemsCode(ghost v: Json, items: seq<Json>, depth: nat): Option<Code>
    requires forall x :: x in items ==> x < v
    decreases v, 0, |items|
  {
    if items == [] then None
    else
      assert items[0] in items && forall x :: x in items[1..] ==> x in items;
      var code := StructureCode(items[0], depth + 1);
      if code.Some? then code else ItemsCode(v, items[1..], depth)
  }

  function FieldsCode(ghost v: Json, fields: seq<Field>, depth: nat): Option<Code>
    requires forall f :: f in fields ==> f.value < v
    decreases v, 0, |fields|
  {
    if fields == [] then None
    else
      assert fields[0] in fields && forall f :: f in fields[1..] ==> f in fields;
      if !GoodKey(fields[0].key) then Some(KeyCharset)
      else
        var code := StructureCode(fields[0].value, depth + 1);
        if code.Some? then code else FieldsCode(v, fields[1..], depth)
  }

  // The two faults only the printer finds: a lone surrogate and a negative zero.
  predicate Clean(v: Json) {
    match v
    case Str(s) => Utf8.WellFormed(s)
    case NegativeZero => false
    case Arr(items) => forall i :: 0 <= i < |items| ==> Clean(items[i])
    case Obj(fields) => forall i :: 0 <= i < |fields| ==> Clean(fields[i].value)
    case _ => true
  }

  // A value of accepted shape prints exactly when it is free of those two faults; when it does not print,
  // the code is one of theirs.
  lemma {:induction false} ShapedValuesPrintWhenClean(v: Json, depth: nat)
    requires StructureCode(v, depth) == None
    ensures Canon(v).Ok? <==> Clean(v)
    ensures Canon(v).Err? ==> Canon(v).error == LoneSurrogate || Canon(v).error == NegZero
    decreases v, 1, 0
  {
    match v
    case Arr(items) => ShapedItems(v, items, depth);
    case Obj(fields) =>
      ShapedKeys(v, fields, depth);
      SameMembers(fields);
      ShapedFields(v, SortFields(fields), depth);
      ObjectIsClean(fields, SortFields(fields), v);
    case _ =>
  }

  lemma SameMembers(fields: seq<Field>)
    requires forall f :: f in fields ==> f.value != Undefined
    ensures forall f :: f in SortFields(fields) <==> f in fields
  {
    var sorted := SortFields(fields);
    SortFieldsOrders(fields);
    forall f ensures f in sorted <==> f in fields {
      FilterMembers(fields, IsPresent, f);
      assert f in sorted <==> f in multiset(sorted);
      assert f in Filter(fields, IsPresent) <==> f in multiset(Filter(fields, IsPresent));
    }
  }

  lemma ObjectIsClean(fields: seq<Field>, sorted: seq<Field>, v: Json)
    requires v == Obj(fields) && sorted == SortFields(fields) && forall f :: f in sorted <==> f in fields
    requires forall f :: f in fields ==> GoodKey(f.key)
    ensures (forall i :: 0 <= i < |sorted| ==> Clean(sorted[i].value)) <==> Clean(v)
    ensures Canon(v).Ok? <==> CanonFields(v, sorted).Ok?
    ensures Canon(v).Err? ==> Canon(v).error == CanonFields(v, sorted).error
  {
    ObjectPrints(fields, v);
    assert forall i :: 0 <= i < |sorted| ==> sorted[i] in fields;
    assert forall i :: 0 <= i < |fields| ==> fields[i] in sorted;
  }

  ghost predicate Shaped(f: Field, depth: nat) {
    GoodKey(f.key) && f.value != Undefined && StructureCode(f.value, depth + 1) == None
  }

  lemma {:induction false} ShapedKeys(v: Json, fields: seq<Field>, depth: nat)
    requires forall f :: f in fields ==> f.value < v
    requires FieldsCode(v, fields, depth) == None
    ensures forall f :: f in fields ==> Shaped(f, depth)
  {
    if fields != [] {
      assert fields[0] in fields && forall f :: f in fields[1..] ==> f in fields;
      ShapedKeys(v, fields[1..], depth);
      assert forall f :: f in fields ==> f == fields[0] || f in fields[1..];
    }
  }

  lemma {:induction false} ShapedItems(v: Json, items: seq<Json>, depth: nat)
    requires forall x :: x in items ==> x < v
    requires ItemsCode(v, items, depth) == None
    ensures CanonItems(v, items).Ok? <==> forall i :: 0 <= i < |items| ==> Clean(items[i])
    ensures CanonItems(v, items).Err? ==> CanonItems(v, items).error == LoneSurrogate || CanonItems(v, items).error == NegZero
    decreases v, 0, |items|
  {
    if items != [] {
      assert items[0] in items && forall x :: x in items[1..] ==> x in items;
      ShapedValuesPrintWhenClean(items[0], depth + 1);
      ShapedItems(v, items[1..], depth);
      assert forall i :: 0 < i < |items| ==> items[i] == items[1..][i - 1];
      assert forall i :: 0 <= i < |items| - 1 ==> items[1..][i] == items[i + 1];
      if |items| == 1 { assert items[1..] == []; }
    }
  }

  lemma {:induction false} ShapedFields(v: Json, fields: seq<Field>, depth: nat)
    requires forall f :: f in fields ==> f.value < v
    requires forall f :: f in fields ==> Shaped(f, depth)
    ensures CanonFields(v, fields).Ok? <==> forall i :: 0 <= i < |fields| ==> Clean(fields[i].value)
    ensures CanonFields(v, fields).Err? ==>
      CanonFields(v, fields).error == LoneSurrogate || CanonFields(v, fields).error == NegZero
    decreases v, 0, |fields|
  {
    if fields != [] {
      assert fields[0] in fields && forall f :: f in fields[1..] ==> f in fields;
      AsciiWellFormed(fields[0].key);
      ShapedValuesPrintWhenClean(fields[0].value, depth + 1);
      ShapedFields(v, fields[1..], depth);
      assert forall i :: 0 < i < |fields| ==> fields[i] == fields[1..][i - 1];
      assert forall i :: 0 <= i < |fields| - 1 ==> fields[1..][i] == fields[i + 1];
      if |fields| == 1 { assert fields[1..] == []; }
    }
  }

  // ------------------------------------------------------------- what is accepted ---

  // No more than n arrays or objects stand one inside another.
  ghost predicate NestedWithin(v: Json, n: int)
    decreases v
  {
    n >= 0 &&
    match v
    case Arr(items) => forall i :: 0 <= i < |items| ==> NestedWithin(items[i], n - 1)
    case Obj(fields) => forall i :: 0 <= i < |fields| ==> NestedWithin(fields[i].value, n - 1)
    case _ => true
  }

  // Integers, strings, booleans and null, in arrays and in objects with well-formed keys.
  ghost predicate SoundAll(v: Json)
    decreases v
  {
    match v
    case Fraction => false
    case Undefined => false
    case Arr(items) => forall i :: 0 <= i < |items| ==> SoundAll(items[i])
    case Obj(fields) => forall i :: 0 <= i < |fields| ==> GoodKey(fields[i].key) && SoundAll(fields[i].value)
    case _ => true
  }

  // A value is accepted exactly when it nests at most eight deep and everything in it is sound.
  lemma {:induction false} AcceptedExactlyWhen(v: Json, depth: nat)
    ensures StructureCode(v, depth) == None <==> NestedWithin(v, 8 - depth) && SoundAll(v)
    decreases v, 1, 0
  {
    if depth <= 8 {
      match v
      case Arr(items) => ItemsAccepted(v, items, depth);
      case Obj(fields) => FieldsAccepted(v, fields, depth);
      case _ =>
    }
  }

  lemma {:induction false} ItemsAccepted(v: Json, items: seq<Json>, depth: nat)
    requires forall x :: x in items ==> x < v
    ensures ItemsCode(v, items, depth) == None <==>
      (forall i :: 0 <= i < |items| ==> NestedWithin(items[i], 7 - depth)) && (forall i :: 0 <= i < |items| ==> SoundAll(items[i]))
    decreases v, 0, |items|
  {
    if items != [] {
      assert items[0] in items && forall x :: x in items[1..] ==> x in items;
      AcceptedExactlyWhen(items[0], depth + 1);
      ItemsAccepted(v, items[1..], depth);
      assert forall i :: 0 < i < |items| ==> items[i] == items[1..][i - 1];
      assert forall i :: 0 <= i < |items| - 1 ==> items[1..][i] == items[i + 1];
    }
  }

  ghost predicate SoundField(f: Field) { GoodKey(f.key) && SoundAll(f.value) }

  lemma {:induction false} FieldsAccepted(v: Json, fields: seq<Field>, depth: nat)
    requires forall f :: f in fields ==> f.value < v
    ensures FieldsCode(v, fields, depth) == None <==>
      (forall i :: 0 <= i < |fields| ==> NestedWithin(fields[i].value, 7 - depth)) &&
      (forall i :: 0 <= i < |fields| ==> SoundField(fields[i]))
    decreases v, 0, |fields|
  {
    if fields != [] {
      assert fields[0] in fields && forall f :: f in fields[1..] ==> f in fields;
      AcceptedExactlyWhen(fields[0].value, depth + 1);
      FieldsAccepted(v, fields[1..], depth);
      assert forall i :: 0 < i < |fields| ==> fields[i] == fields[1..][i - 1];
      assert forall i :: 0 <= i < |fields| - 1 ==> fields[1..][i] == fields[i + 1];
    }
  }
}
