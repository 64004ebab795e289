/**
 When two values are the same to a reader of JSON: arrays item by item, objects key by key in whatever order and
 with absent values passed over, at every depth. The canonical text stands for exactly that.
 */
module JsonSame {
  import opened Basics
  import opened CanonicalJson
  import opened JsonOrder
  import opened Sorting
  import JsonParse

  // No object holds a key twice, at any depth.
  ghost predicate Keyed(v: Json)
    decreases v
  {
    match v
    case Arr(items) => forall i :: 0 <= i < |items| ==> Keyed(items[i])
    case Obj(fields) => DistinctKeys(fields) && forall i :: 0 <= i < |fields| ==> Keyed(fields[i].value)
    case _ => true
  }

  ghost predicate Same(v: Json, w: Json)
    decreases v, 0
  {
    match v
    case Arr(items) => w.Arr? && |items| == |w.items| && forall i :: 0 <= i < |items| ==> Same(items[i], w.items[i])
    case Obj(fields) =>
      w.Obj? &&
      (forall i :: 0 <= i < |fields| && Present(fields[i]) ==> HasSame(fields[i].value, fields[i].key, w.fields)) &&
      (forall j :: 0 <= j < |w.fields| && Present(w.fields[j]) ==> HasPresent(fields, w.fields[j].key))
    case _ => v == w
  }

  predicate Present(f: Field) { f.value != Undefined }

  ghost predicate HasPresent(fs: seq<Field>, key: Text) { exists i :: 0 <= i < |fs| && Present(fs[i]) && fs[i].key == key }

  // The object has this key, with a value that is the same.
  ghost predicate HasSame(value: Json, key: Text, fs: seq<Field>)
    decreases value, 1
  {
    exists j :: 0 <= j < |fs| && Present(fs[j]) && fs[j].key == key && Same(value, fs[j].value)
  }

  ghost predicate Matches(a: seq<Field>, b: seq<Field>) { Covered(a, b) && Backed(a, b) }

  ghost predicate Covered(a: seq<Field>, b: seq<Field>) {
    forall i :: 0 <= i < |a| && Present(a[i]) ==> HasSame(a[i].value, a[i].key, b)
  }

  ghost predicate Backed(a: seq<Field>, b: seq<Field>) {
    forall j :: 0 <= j < |b| && Present(b[j]) ==> HasPresent(a, b[j].key)
  }

  lemma ObjectsMatch(a: seq<Field>, b: seq<Field>)
    ensures Same(Obj(a), Obj(b)) <==> Matches(a, b)
  {
    var v, w := Obj(a), Obj(b);
    assert v.fields == a && w.fields == b;
  }

  // -------------------------------------------------------------- sorted fields ---

  lemma {:induction false} InsertDistinct(f: Field, fs: seq<Field>)
    requires DistinctKeys(fs) && forall i :: 0 <= i < |fs| ==> fs[i].key != f.key
    ensures DistinctKeys(InsertField(f, fs))
  {
    if fs != [] && KeyLess(fs[0].key, f.key) {
      var rest := InsertField(f, fs[1..]);
      InsertDistinct(f, fs[1..]);
      forall i | 0 <= i < |rest| ensures rest[i].key != fs[0].key {
        assert rest[i] in multiset(rest);
        if rest[i] != f { assert rest[i] in fs[1..]; }
      }
    }
  }

  lemma {:induction false} SortDistinct(fs: seq<Field>)
    requires DistinctKeys(fs)
    ensures DistinctKeys(SortFields(fs))
  {
    if fs != [] {
      var rest := SortFields(fs[1..]);
      SortDistinct(fs[1..]);
      forall i | 0 <= i < |rest| ensures rest[i].key != fs[0].key {
        assert rest[i] in rest;
        var j :| 0 <= j < |fs| - 1 && fs[1..][j] == rest[i];
        assert fs[j + 1] == rest[i];
      }
      if Present(fs[0]) { InsertDistinct(fs[0], rest); }
    }
  }

  lemma SortKeepsPresent(fs: seq<Field>, f: Field)
    ensures f in SortFields(fs) <==> f in fs && Present(f)
  {
    SortFieldsOrders(fs);
    SameElements(SortFields(fs), Filter(fs, IsPresent), f);
    FilterMembers(fs, IsPresent, f);
  }

  ghost predicate HasKey(fs: seq<Field>, key: Text) { exists i :: 0 <= i < |fs| && fs[i].key == key }

  ghost predicate SameKeys(a: seq<Field>, b: seq<Field>) {
    (forall i :: 0 <= i < |a| ==> HasKey(b, a[i].key)) && (forall i :: 0 <= i < |b| ==> HasKey(a, b[i].key))
  }

  lemma KeysOfEmpty(a: seq<Field>, b: seq<Field>)
    requires a == [] && SameKeys(a, b)
    ensures b == []
  {
    assert b != [] ==> HasKey(a, b[0].key);
  }

  // Two sorted lists with the same keys carry them at the same places.
  lemma {:induction false} SortedKeysAlign(a: seq<Field>, b: seq<Field>)
    requires Ordered(a) && Ordered(b) && DistinctKeys(a) && DistinctKeys(b) && SameKeys(a, b)
    ensures |a| == |b| && forall i :: 0 <= i < |a| ==> a[i].key == b[i].key
  {
    if a == [] {
      KeysOfEmpty(a, b);
    } else if b == [] {
      KeysOfEmpty(b, a);
    } else {
      FirstKeysAlign(a, b);
      TailsHaveSameKeys(a, b);
      SortedKeysAlign(a[1..], b[1..]);
      assert forall i :: 0 < i < |a| ==> a[i] == a[1..][i - 1];
      assert forall i :: 0 < i < |b| ==> b[i] == b[1..][i - 1];
    }
  }

  lemma FirstKeysAlign(a: seq<Field>, b: seq<Field>)
    requires a != [] && b != [] && Ordered(a) && Ordered(b) && SameKeys(a, b)
    ensures a[0].key == b[0].key
  {
    assert HasKey(b, a[0].key) && HasKey(a, b[0].key);
    var i :| 0 <= i < |b| && b[i].key == a[0].key;
    var j :| 0 <= j < |a| && a[j].key == b[0].key;
    FirstIsFirst(b, b[i]);
    FirstIsFirst(a, a[j]);
    KeyLessTotal(a[0].key, b[0].key);
  }

  lemma TailsHaveSameKeys(a: seq<Field>, b: seq<Field>)
    requires a != [] && b != [] && DistinctKeys(a) && DistinctKeys(b) && SameKeys(a, b) && a[0].key == b[0].key
    ensures SameKeys(a[1..], b[1..])
  {
    TailHasKeys(a, b);
    TailHasKeys(b, a);
  }

  lemma TailHasKeys(a: seq<Field>, b: seq<Field>)
    requires a != [] && b != [] && DistinctKeys(a) && SameKeys(a, b) && a[0].key == b[0].key
    ensures forall i :: 0 <= i < |a| - 1 ==> HasKey(b[1..], a[1..][i].key)
  {
    forall i | 0 <= i < |a| - 1 ensures HasKey(b[1..], a[1..][i].key) {
      assert HasKey(b, a[i + 1].key);
      var j :| 0 <= j < |b| && b[j].key == a[i + 1].key;
      assert j > 0 && b[1..][j - 1] == b[j];
    }
  }

  // --------------------------------------------------------- what Norm looks like ---

  lemma {:induction false} NormItemAt(v: Json, items: seq<Json>, i: nat)
    requires i < |items| && forall x :: x in items ==> x < v
    ensures NormItems(v, items)[i] == Norm(items[i])
  {
    assert items[0] in items && forall x :: x in items[1..] ==> x in items;
    if i > 0 { NormItemAt(v, items[1..], i - 1); }
  }

  lemma {:induction false} NormFieldAt(v: Json, fields: seq<Field>, i: nat)
    requires i < |fields| && forall f :: f in fields ==> f.value < v
    ensures NormFields(v, fields)[i] == Field(fields[i].key, Norm(fields[i].value))
  {
    assert fields[0] in fields && forall f :: f in fields[1..] ==> f in fields;
    if i > 0 { NormFieldAt(v, fields[1..], i - 1); }
  }

  lemma NormItemsAgree(v: Json, a: seq<Json>, w: Json, b: seq<Json>)
    requires (forall x :: x in a ==> x < v) && (forall x :: x in b ==> x < w)
    ensures NormItems(v, a) == NormItems(w, b) <==>
      |a| == |b| && forall i :: 0 <= i < |a| ==> Norm(a[i]) == Norm(b[i])
  {
    forall i | 0 <= i < |a| ensures NormItems(v, a)[i] == Norm(a[i]) { NormItemAt(v, a, i); }
    forall i | 0 <= i < |b| ensures NormItems(w, b)[i] == Norm(b[i]) { NormItemAt(w, b, i); }
  }

  lemma NormFieldsAgree(v: Json, a: seq<Field>, w: Json, b: seq<Field>)
    requires (forall f :: f in a ==> f.value < v) && (forall f :: f in b ==> f.value < w)
    ensures NormFields(v, a) == NormFields(w, b) <==>
      |a| == |b| && forall i :: 0 <= i < |a| ==> a[i].key == b[i].key && Norm(a[i].value) == Norm(b[i].value)
  {
    forall i | 0 <= i < |a| ensures NormFields(v, a)[i] == Field(a[i].key, Norm(a[i].value)) { NormFieldAt(v, a, i); }
    forall i | 0 <= i < |b| ensures NormFields(w, b)[i] == Field(b[i].key, Norm(b[i].value)) { NormFieldAt(w, b, i); }
  }

  // ------------------------------------------------------------ the same is printed alike ---

  lemma {:induction false} ItemsPrintAlike(v: Json, a: seq<Json>, w: Json, b: seq<Json>)
    requires (forall x :: x in a ==> x < v) && (forall x :: x in b ==> x < w)
    requires |a| == |b| && forall i :: 0 <= i < |a| ==> Canon(a[i]) == Canon(b[i])
    ensures CanonItems(v, a) == CanonItems(w, b)
    decreases |a|
  {
    if a != [] {
      assert a[0] in a && b[0] in b && (forall x :: x in a[1..] ==> x in a) && (forall x :: x in b[1..] ==> x in b);
      assert Canon(a[0]) == Canon(b[0]);
      ItemsPrintAlike(v, a[1..], w, b[1..]);
    }
  }

  // The text of one field and what follows it.
  function FieldText(key: Text, value: Result<Text, Error>, last: bool, rest: Result<Text, Error>): Result<Text, Error> {
    match CanonicalString(key)
    case Err(e) => Err(e)
    case Ok(k) =>
      match value
      case Err(e) => Err(e)
      case Ok(t) =>
        if last then Ok(k + ([COLON] + t))
        else
          match rest
          case Err(e) => Err(e)
          case Ok(more) => Ok(k + ([COLON] + (t + ([COMMA] + more))))
  }

  lemma FieldsUnfold(v: Json, fields: seq<Field>)
    requires fields != [] && forall f :: f in fields ==> f.value < v
    ensures forall f :: f in fields[1..] ==> f.value < v
    ensures CanonFields(v, fields) ==
      FieldText(fields[0].key, Canon(fields[0].value), |fields| == 1, CanonFields(v, fields[1..]))
  {
    assert fields[0] in fields && forall f :: f in fields[1..] ==> f in fields;
  }

  lemma {:induction false} FieldsPrintAlike(v: Json, a: seq<Field>, w: Json, b: seq<Field>)
    requires (forall f :: f in a ==> f.value < v) && (forall f :: f in b ==> f.value < w)
    requires |a| == |b| && forall i :: 0 <= i < |a| ==> a[i].key == b[i].key && Canon(a[i].value) == Canon(b[i].value)
    ensures CanonFields(v, a) == CanonFields(w, b)
    decreases |a|
  {
    if a != [] {
      FieldsUnfold(v, a);
      FieldsUnfold(w, b);
      var x, y := a[1..], b[1..];
      forall i | 0 <= i < |x| ensures x[i].key == y[i].key && Canon(x[i].value) == Canon(y[i].value) {
        assert x[i] == a[i + 1] && y[i] == b[i + 1];
      }
      FieldsPrintAlike(v, x, w, y);
    }
  }

  ghost predicate Alike(v: Json, w: Json) { Norm(v) == Norm(w) && Canon(v) == Canon(w) }

  // Aligned fields whose values are read and printed alike make objects that are.
  lemma ObjectsAlike(a: seq<Field>, b: seq<Field>)
    requires var x, y := SortFields(a), SortFields(b);
      |x| == |y| && forall i :: 0 <= i < |x| ==> x[i].key == y[i].key && Alike(x[i].value, y[i].value)
    ensures Alike(Obj(a), Obj(b))
  {
    var v, w, x, y := Obj(a), Obj(b), SortFields(a), SortFields(b);
    ObjectPrints(a, v);
    ObjectPrints(b, w);
    assert forall i :: 0 <= i < |x| ==> Alike(x[i].value, y[i].value);
    NormFieldsAgree(v, x, w, y);
    FieldsPrintAlike(v, x, w, y);
    assert (exists i :: 0 <= i < |x| && !GoodKey(x[i].key)) <==> (exists i :: 0 <= i < |y| && !GoodKey(y[i].key)) by {
      assert forall i :: 0 <= i < |x| ==> GoodKey(x[i].key) == GoodKey(y[i].key);
    }
  }

  lemma ArraysAlike(a: seq<Json>, b: seq<Json>)
    requires |a| == |b| && forall i :: 0 <= i < |a| ==> Alike(a[i], b[i])
    ensures Alike(Arr(a), Arr(b))
  {
    assert forall i :: 0 <= i < |a| ==> Alike(a[i], b[i]);
    NormItemsAgree(Arr(a), a, Arr(b), b);
    ItemsPrintAlike(Arr(a), a, Arr(b), b);
  }

  // The present fields of two matching objects, sorted, align: same keys, same values.
  lemma SortedFieldsAlign(a: seq<Field>, b: seq<Field>)
    requires DistinctKeys(a) && DistinctKeys(b) && Matches(a, b)
    ensures var x, y := SortFields(a), SortFields(b);
      |x| == |y| && forall i :: 0 <= i < |x| ==> x[i].key == y[i].key && Same(x[i].value, y[i].value)
  {
    var x, y := SortFields(a), SortFields(b);
    SortFieldsOrders(a);
    SortFieldsOrders(b);
    SortDistinct(a);
    SortDistinct(b);
    SortedMatch(a, b);
    forall i | 0 <= i < |x| ensures Present(x[i]) { assert x[i] in x; }
    forall i | 0 <= i < |y| ensures Present(y[i]) { assert y[i] in y; }
    MatchingAlign(x, y);
  }

  lemma MatchingAlign(x: seq<Field>, y: seq<Field>)
    requires Ordered(x) && Ordered(y) && DistinctKeys(x) && DistinctKeys(y) && Matches(x, y)
    requires (forall i :: 0 <= i < |x| ==> Present(x[i])) && (forall i :: 0 <= i < |y| ==> Present(y[i]))
    ensures |x| == |y| && forall i :: 0 <= i < |x| ==> x[i].key == y[i].key && Same(x[i].value, y[i].value)
  {
    forall i | 0 <= i < |x| ensures HasKey(y, x[i].key) { var k := Counterpart(x[i].value, x[i].key, y); }
    forall j | 0 <= j < |y| ensures HasKey(x, y[j].key) { PresentIsThere(x, y[j].key); }
    SortedKeysAlign(x, y);
    forall i | 0 <= i < |x| ensures Same(x[i].value, y[i].value) {
      var k := Counterpart(x[i].value, x[i].key, y);
      assert y[k].key == y[i].key;
    }
  }

  lemma Counterpart(value: Json, key: Text, fs: seq<Field>) returns (k: nat)
    requires HasSame(value, key, fs)
    ensures k < |fs| && fs[k].key == key && Same(value, fs[k].value)
  {
    k :| 0 <= k < |fs| && Present(fs[k]) && fs[k].key == key && Same(value, fs[k].value);
  }

  lemma PresentIsThere(fs: seq<Field>, key: Text)
    requires HasPresent(fs, key)
    ensures HasKey(fs, key)
  {
    var i :| 0 <= i < |fs| && Present(fs[i]) && fs[i].key == key;
  }

  // Sorting keeps what an object has.
  lemma SortKeepsSame(value: Json, key: Text, fs: seq<Field>)
    ensures HasSame(value, key, SortFields(fs)) <==> HasSame(value, key, fs)
  {
    var sorted := SortFields(fs);
    if HasSame(value, key, fs) {
      var j :| 0 <= j < |fs| && Present(fs[j]) && fs[j].key == key && Same(value, fs[j].value);
      SortKeepsPresent(fs, fs[j]);
      var k :| 0 <= k < |sorted| && sorted[k] == fs[j];
    }
    if HasSame(value, key, sorted) {
      var k :| 0 <= k < |sorted| && Present(sorted[k]) && sorted[k].key == key && Same(value, sorted[k].value);
      SortKeepsPresent(fs, sorted[k]);
      var j :| 0 <= j < |fs| && fs[j] == sorted[k];
    }
  }

  lemma SortKeepsKey(key: Text, fs: seq<Field>)
    ensures HasPresent(SortFields(fs), key) <==> HasPresent(fs, key)
  {
    var sorted := SortFields(fs);
    if HasPresent(fs, key) {
      var j :| 0 <= j < |fs| && Present(fs[j]) && fs[j].key == key;
      SortKeepsPresent(fs, fs[j]);
      var k :| 0 <= k < |sorted| && sorted[k] == fs[j];
    }
    if HasPresent(sorted, key) {
      var k :| 0 <= k < |sorted| && Present(sorted[k]) && sorted[k].key == key;
      SortKeepsPresent(fs, sorted[k]);
      var j :| 0 <= j < |fs| && fs[j] == sorted[k];
    }
  }

  // So two objects match exactly when their sorted fields do.
  lemma SortedMatch(a: seq<Field>, b: seq<Field>)
    ensures Matches(SortFields(a), SortFields(b)) <==> Matches(a, b)
  {
    SortedCovered(a, b);
    SortedBacked(a, b);
  }

  lemma SortedCovered(a: seq<Field>, b: seq<Field>)
    ensures Covered(SortFields(a), SortFields(b)) <==> Covered(a, b)
  {
    var x := SortFields(a);
    if Covered(a, b) {
      forall i | 0 <= i < |x| && Present(x[i]) ensures HasSame(x[i].value, x[i].key, SortFields(b)) {
        SortKeepsPresent(a, x[i]);
        var k :| 0 <= k < |a| && a[k] == x[i];
        SortKeepsSame(a[k].value, a[k].key, b);
      }
    }
    if Covered(x, SortFields(b)) {
      forall i | 0 <= i < |a| && Present(a[i]) ensures HasSame(a[i].value, a[i].key, b) {
        SortKeepsPresent(a, a[i]);
        var k :| 0 <= k < |x| && x[k] == a[i];
        SortKeepsSame(x[k].value, x[k].key, b);
      }
    }
  }

  lemma SortedBacked(a: seq<Field>, b: seq<Field>)
    ensures Backed(SortFields(a), SortFields(b)) <==> Backed(a, b)
  {
    var y := SortFields(b);
    if Backed(a, b) {
      forall j | 0 <= j < |y| && Present(y[j]) ensures HasPresent(SortFields(a), y[j].key) {
        SortKeepsPresent(b, y[j]);
        var k :| 0 <= k < |b| && b[k] == y[j];
        SortKeepsKey(b[k].key, a);
      }
    }
    if Backed(SortFields(a), y) {
      forall j | 0 <= j < |b| && Present(b[j]) ensures HasPresent(a, b[j].key) {
        SortKeepsPresent(b, b[j]);
        var k :| 0 <= k < |y| && y[k] == b[j];
        SortKeepsKey(y[k].key, a);
      }
    }
  }

  lemma KeyedInside(fs: seq<Field>, f: Field)
    requires f in fs && Keyed(Obj(fs))
    ensures Keyed(f.value) && f.value < Obj(fs)
  {
    var i :| 0 <= i < |fs| && fs[i] == f;
    assert Obj(fs).fields[i] == f;
  }

  // Reading and printing look at nothing but what Same looks at, down to the error a refused value gets.
  lemma {:induction false} SameIsAlike(v: Json, w: Json)
    requires Keyed(v) && Keyed(w) && Same(v, w)
    ensures Alike(v, w)
    decreases v
  {
    match v
    case Arr(items) =>
      forall i | 0 <= i < |items| ensures Alike(items[i], w.items[i]) { SameIsAlike(items[i], w.items[i]); }
      ArraysAlike(items, w.items);
    case Obj(fields) =>
      var x, y := SortFields(fields), SortFields(w.fields);
      ObjectsMatch(fields, w.fields);
      SortedFieldsAlign(fields, w.fields);
      forall i | 0 <= i < |x| ensures Alike(x[i].value, y[i].value) {
        assert x[i] in x && y[i] in y;
        KeyedInside(fields, x[i]);
        KeyedInside(w.fields, y[i]);
        SameIsAlike(x[i].value, y[i].value);
      }
      ObjectsAlike(fields, w.fields);
    case _ =>
  }

  // And what is read back alike is the same.
  lemma {:induction false} NormTellsSame(v: Json, w: Json)
    requires Norm(v) == Norm(w)
    ensures Same(v, w)
    decreases v
  {
    match v
    case Arr(items) =>
      NormItemsAgree(v, items, w, w.items);
      forall i | 0 <= i < |items| ensures Same(items[i], w.items[i]) { NormTellsSame(items[i], w.items[i]); }
    case Obj(fields) =>
      var x, y := SortFields(fields), SortFields(w.fields);
      NormFieldsAgree(v, x, w, y);
      forall i | 0 <= i < |x| ensures Same(x[i].value, y[i].value) {
        assert x[i] in x && x[i] in fields;
        NormTellsSame(x[i].value, y[i].value);
      }
      AlignedIsSame(fields, w.fields);
    case _ =>
  }

  lemma AlignedIsSame(a: seq<Field>, b: seq<Field>)
    requires var x, y := SortFields(a), SortFields(b);
      |x| == |y| && forall i :: 0 <= i < |x| ==> x[i].key == y[i].key && Same(x[i].value, y[i].value)
    ensures Same(Obj(a), Obj(b))
  {
    var x, y := SortFields(a), SortFields(b);
    AlignedMatch(x, y);
    SortedMatch(a, b);
    ObjectsMatch(a, b);
  }

  lemma AlignedMatch(x: seq<Field>, y: seq<Field>)
    requires |x| == |y| && forall i :: 0 <= i < |x| ==> x[i].key == y[i].key && Same(x[i].value, y[i].value)
    ensures Matches(x, y)
  {
    forall i | 0 <= i < |x| && Present(x[i]) ensures HasSame(x[i].value, x[i].key, y) {
      assert Same(x[i].value, y[i].value) && Present(y[i]);
    }
    forall j | 0 <= j < |y| && Present(y[j]) ensures HasPresent(x, y[j].key) {
      assert Same(x[j].value, y[j].value) && Present(x[j]);
    }
  }

  // The text depends on nothing but what is read back, down to the error a refused value gets.
  lemma {:induction false} NormTellsText(v: Json, w: Json)
    requires Norm(v) == Norm(w)
    ensures Canon(v) == Canon(w)
    decreases v
  {
    match v
    case Arr(items) =>
      NormItemsAgree(v, items, w, w.items);
      forall i | 0 <= i < |items| ensures Alike(items[i], w.items[i]) { NormTellsText(items[i], w.items[i]); }
      ArraysAlike(items, w.items);
    case Obj(fields) =>
      var x, y := SortFields(fields), SortFields(w.fields);
      NormFieldsAgree(v, x, w, y);
      forall i | 0 <= i < |x| ensures Alike(x[i].value, y[i].value) {
        assert x[i] in x && x[i] in fields;
        NormTellsText(x[i].value, y[i].value);
      }
      ObjectsAlike(fields, w.fields);
    case _ =>
  }

  // The canonical text does not depend on the order keys were inserted in, at any depth; and two values that print
  // have one text exactly when they are the same.
  lemma CanonIgnoresInsertionOrder(v: Json, w: Json)
    requires Keyed(v) && Keyed(w)
    ensures Same(v, w) <==> Norm(v) == Norm(w)
    ensures Same(v, w) ==> Canon(v) == Canon(w)
    ensures Canon(v).Ok? && Canon(v) == Canon(w) ==> Same(v, w)
  {
    if Same(v, w) { SameIsAlike(v, w); }
    if Norm(v) == Norm(w) { NormTellsSame(v, w); }
    if Canon(v).Ok? && Canon(v) == Canon(w) { JsonParse.CanonIsInjective(v, w); }
  }

  // Reordering is the same: the fields of one object in some other order, key for key, with values that are the
  // same, however deep the reordering goes on inside them.
  lemma ReorderedIsSame(a: seq<Field>, c: seq<Field>, b: seq<Field>)
    requires multiset(a) == multiset(c) && |c| == |b|
    requires forall i :: 0 <= i < |b| ==> c[i].key == b[i].key && Same(c[i].value, b[i].value)
    ensures Same(Obj(a), Obj(b))
  {
    AlignedMatch(c, b);
    forall i | 0 <= i < |a| && Present(a[i]) ensures HasSame(a[i].value, a[i].key, b) {
      SameElements(a, c, a[i]);
      var j :| 0 <= j < |c| && c[j] == a[i];
    }
    forall j | 0 <= j < |b| && Present(b[j]) ensures HasPresent(a, b[j].key) {
      var i :| 0 <= i < |c| && Present(c[i]) && c[i].key == b[j].key;
      SameElements(a, c, c[i]);
      var k :| 0 <= k < |a| && a[k] == c[i];
    }
    ObjectsMatch(a, b);
  }
}
