/**
 `scanUnits` of lib/state-branch.js: a shard's added text is cut at record headers, and a record past
 the filter's byte cap is cut again into overlapping windows. Nothing may be dropped on the way.
 */
module ScanUnits {
  import opened Basics
  import Utf8

  const MAX_UNIT_BYTES := 2048
  const OVERLAP := 256

  // Buffer.byteLength(s, 'utf8'), without encoding: a surrogate pair takes four bytes, a lone surrogate three.
  function ByteLength(s: Text): nat {
    if s == [] then 0
    else if HighSurrogate(s[0]) && |s| > 1 && LowSurrogate(s[1]) then 4 + ByteLength(s[2..])
    else (if s[0] < 0x80 then 1 else if s[0] < 0x800 then 2 else 3) + ByteLength(s[1..])
  }

  // The count is the number of bytes.
  lemma {:induction false} ByteLengthCounts(s: Text)
    ensures ByteLength(s) == |Utf8.Encode(s)|
  {
    if s != [] {
      ByteLengthCounts(Utf8.Tail(s));
      assert Utf8.Encode(s) == Utf8.Head(s) + Utf8.Encode(Utf8.Tail(s));
    }
  }

  lemma {:induction false} ByteLengthBound(s: Text)
    ensures |s| <= ByteLength(s) <= 3 * |s|
  {
    if s == [] {
    } else if HighSurrogate(s[0]) && |s| > 1 && LowSurrogate(s[1]) {
      ByteLengthBound(s[2..]);
    } else {
      ByteLengthBound(s[1..]);
    }
  }

  // ------------------------------------------------------- record headers ---
  // A header line: two hashes and two words, each after blanks, and at most blanks and a return behind them.

  const HASH: Unit := 0x23

  predicate IsBreak(u: Unit) { u == NEWLINE || u == RETURN || u == 0x2028 || u == 0x2029 }

  predicate IsBlank(u: Unit) { u == 0x20 || u == 0x09 }

  predicate IsSpace(u: Unit) {
    0x09 <= u <= 0x0d || u == 0x20 || u == 0xa0 || u == 0x1680 || 0x2000 <= u <= 0x200a ||
    u == 0x2028 || u == 0x2029 || u == 0x202f || u == 0x205f || u == 0x3000 || u == 0xfeff
  }

  function SkipBlanks(s: Text, i: nat): (j: nat)
    requires i <= |s|
    ensures i <= j <= |s|
    decreases |s| - i
  {
    if i < |s| && IsBlank(s[i]) then SkipBlanks(s, i + 1) else i
  }

  function SkipWord(s: Text, i: nat): (j: nat)
    requires i <= |s|
    ensures i <= j <= |s|
    decreases |s| - i
  {
    if i < |s| && !IsSpace(s[i]) then SkipWord(s, i + 1) else i
  }

  predicate HeaderAt(s: Text, i: nat) {
    && i + 2 <= |s|
    && (i == 0 || IsBreak(s[i - 1]))
    && s[i] == HASH && s[i + 1] == HASH
    && var kind := SkipBlanks(s, i + 2);
       var kindEnd := SkipWord(s, kind);
       var stamp := SkipBlanks(s, kindEnd);
       var stampEnd := SkipWord(s, stamp);
       var end := SkipBlanks(s, stampEnd);
    && i + 2 < kind < kindEnd < stamp < stampEnd
    && (end == |s| || IsBreak(s[end]))
  }

  // What ECMAScript counts as a line terminator, and as white space, one by one.
  predicate LineEnd(u: Unit) { u in {0x0a, 0x0d, 0x2028, 0x2029} }

  predicate WhiteSpace(u: Unit) {
    LineEnd(u) ||
    u in {0x09, 0x0b, 0x0c, 0x20, 0xa0, 0x1680, 0x2000, 0x2001, 0x2002, 0x2003, 0x2004, 0x2005, 0x2006, 0x2007, 0x2008,
          0x2009, 0x200a, 0x202f, 0x205f, 0x3000, 0xfeff}
  }

  predicate AllBlank(s: Text, i: nat, j: nat)
    requires i <= j <= |s|
  {
    forall k :: i <= k < j ==> s[k] == 0x20 || s[k] == 0x09
  }

  predicate NoSpace(s: Text, i: nat, j: nat)
    requires i <= j <= |s|
  {
    forall k :: i <= k < j ==> !WhiteSpace(s[k])
  }

  // From i on: two hashes, blanks up to a, a word up to b, blanks up to c, a word up to d, blanks up to the end of the
  // line at e.
  predicate HeaderShape(s: Text, i: nat, a: nat, b: nat, c: nat, d: nat, e: nat) {
    && i + 2 < a < b < c < d <= e <= |s|
    && (i == 0 || LineEnd(s[i - 1])) && s[i] == 0x23 && s[i + 1] == 0x23
    && AllBlank(s, i + 2, a) && NoSpace(s, a, b) && AllBlank(s, b, c) && NoSpace(s, c, d) && AllBlank(s, d, e)
    && (e == |s| || LineEnd(s[e]))
  }

  lemma {:induction false} SkipBlanksTo(s: Text, i: nat, j: nat)
    requires i <= j <= |s|
    ensures SkipBlanks(s, i) == j <==> AllBlank(s, i, j) && (j == |s| || !IsBlank(s[j]))
    decreases |s| - i
  {
    if i < j && IsBlank(s[i]) {
      SkipBlanksTo(s, i + 1, j);
    } else if i < j {
      assert !AllBlank(s, i, j);
    }
  }

  lemma {:induction false} SkipWordTo(s: Text, i: nat, j: nat)
    requires i <= j <= |s|
    ensures SkipWord(s, i) == j <==> NoSpace(s, i, j) && (j == |s| || IsSpace(s[j]))
    decreases |s| - i
  {
    if i < j && !IsSpace(s[i]) {
      SkipWordTo(s, i + 1, j);
    } else if i < j {
      assert !NoSpace(s, i, j);
    }
  }

  lemma HeaderHasShape(s: Text, i: nat) returns (a: nat, b: nat, c: nat, d: nat, e: nat)
    requires HeaderAt(s, i)
    ensures HeaderShape(s, i, a, b, c, d, e)
  {
    a := SkipBlanks(s, i + 2);
    b := SkipWord(s, a);
    c := SkipBlanks(s, b);
    d := SkipWord(s, c);
    e := SkipBlanks(s, d);
    SkipBlanksTo(s, i + 2, a);
    SkipWordTo(s, a, b);
    SkipBlanksTo(s, b, c);
    SkipWordTo(s, c, d);
    SkipBlanksTo(s, d, e);
  }

  lemma ShapeIsHeader(s: Text, i: nat, a: nat, b: nat, c: nat, d: nat, e: nat)
    requires HeaderShape(s, i, a, b, c, d, e)
    ensures HeaderAt(s, i)
  {
    assert !IsSpace(s[a]) && IsBlank(s[b]) && !IsSpace(s[c]);
    SkipBlanksTo(s, i + 2, a);
    SkipWordTo(s, a, b);
    SkipBlanksTo(s, b, c);
    assert d == |s| || IsSpace(s[d]) by { if d < e { assert IsBlank(s[d]); } }
    SkipWordTo(s, c, d);
    SkipBlanksTo(s, d, e);
  }

  // Taking as much as fits at each step finds a header line wherever there is one.
  lemma HeaderAtExactlyWhen(s: Text, i: nat)
    ensures HeaderAt(s, i) <==> exists a: nat, b: nat, c: nat, d: nat, e: nat :: HeaderShape(s, i, a, b, c, d, e)
  {
    if HeaderAt(s, i) { var a, b, c, d, e := HeaderHasShape(s, i); }
    if a: nat, b: nat, c: nat, d: nat, e: nat :| HeaderShape(s, i, a, b, c, d, e) { ShapeIsHeader(s, i, a, b, c, d, e); }
  }

  // The positions the regular expression matches at, in order, from `i` on.
  function Headers(s: Text, i: nat): (starts: seq<nat>)
    requires i <= |s|
    ensures forall k :: 0 <= k < |starts| ==> i <= starts[k] < |s|
    ensures forall k, l :: 0 <= k < l < |starts| ==> starts[k] < starts[l]
    decreases |s| - i
  {
    if i == |s| then []
    else if HeaderAt(s, i) then [i] + Headers(s, i + 1)
    else Headers(s, i + 1)
  }

  // The text from `from` on, cut at each of `starts`.
  function CutAt(s: Text, from: nat, starts: seq<nat>): (records: seq<Text>)
    requires from <= |s|
    requires forall k :: 0 <= k < |starts| ==> from <= starts[k] < |s|
    requires forall k, l :: 0 <= k < l < |starts| ==> starts[k] < starts[l]
    decreases |starts|
  {
    if starts == [] then [s[from..]]
    else (if from < starts[0] then [s[from..starts[0]]] else []) + Rest(s, starts)
  }

  // The records that begin at `starts`, the last one running to the end of the text.
  function Rest(s: Text, starts: seq<nat>): (records: seq<Text>)
    requires forall k :: 0 <= k < |starts| ==> starts[k] < |s|
    requires forall k, l :: 0 <= k < l < |starts| ==> starts[k] < starts[l]
    decreases |starts|
  {
    if starts == [] then []
    else if |starts| == 1 then [s[starts[0]..]]
    else [s[starts[0]..starts[1]]] + Rest(s, starts[1..])
  }

  function Records(s: Text): seq<Text> {
    if s == [] then [] else CutAt(s, 0, Headers(s, 0))
  }

  function Concat(texts: seq<Text>): Text {
    if texts == [] then [] else texts[0] + Concat(texts[1..])
  }

  lemma {:induction false} RestConcat(s: Text, starts: seq<nat>)
    requires starts != []
    requires forall k :: 0 <= k < |starts| ==> starts[k] < |s|
    requires forall k, l :: 0 <= k < l < |starts| ==> starts[k] < starts[l]
    ensures Concat(Rest(s, starts)) == s[starts[0]..]
  {
    if |starts| == 1 {
      assert Concat([s[starts[0]..]]) == s[starts[0]..] + Concat([]);
    } else {
      RestConcat(s, starts[1..]);
      assert s[starts[0]..] == s[starts[0]..starts[1]] + s[starts[1]..];
    }
  }

  // The records concatenate to the input: no byte is dropped between headers.
  lemma RecordsConcat(s: Text)
    ensures Concat(Records(s)) == s
  {
    var starts := Headers(s, 0);
    if s == [] {
    } else if starts == [] {
      assert Concat([s[0..]]) == s[0..] + Concat([]);
    } else {
      RestConcat(s, starts);
      if 0 < starts[0] {
        var first := s[0..starts[0]];
        assert ([first] + Rest(s, starts))[1..] == Rest(s, starts);
        assert s == first + s[starts[0]..];
      } else {
        assert [] + Rest(s, starts) == Rest(s, starts);
        assert s == s[0..];
      }
    }
  }

  // -------------------------------------------------------------- windows ---

  // The window starting at `i`, halved until it fits the cap.
  function Shrink(u: Text, i: nat, n: nat): (m: nat)
    requires 1 <= n && i + n <= |u|
    ensures 1 <= m <= n
    decreases n
  {
    if n > 1 && ByteLength(u[i..i + n]) > MAX_UNIT_BYTES then Shrink(u, i, (n + 1) / 2) else n
  }

  function WindowSize(u: Text, i: nat): (n: nat)
    requires i < |u|
    ensures 1 <= n && i + n <= |u|
  {
    Shrink(u, i, if MAX_UNIT_BYTES <= |u| - i then MAX_UNIT_BYTES else |u| - i)
  }

  function Windows(u: Text, i: nat): (windows: seq<Text>)
    requires i < |u|
    decreases |u| - i
  {
    var n := WindowSize(u, i);
    if i + n >= |u| then [u[i..i + n]]
    else [u[i..i + n]] + Windows(u, i + if n > OVERLAP then n - OVERLAP else 1)
  }

  function UnitsOf(record: Text): seq<Text> {
    if ByteLength(record) <= MAX_UNIT_BYTES then [record] else Windows(record, 0)
  }

  function AllUnits(records: seq<Text>): seq<Text> {
    if records == [] then [] else UnitsOf(records[0]) + AllUnits(records[1..])
  }

  function Units(s: Text): seq<Text> { AllUnits(Records(s)) }

  // Encoded, a text takes no more than 2048 bytes.
  predicate Fits(s: Text) { |Utf8.Encode(s)| <= 2048 }

  // A window fits the cap, and halving never brings one down to the overlap.
  lemma {:induction false} ShrinkFits(u: Text, i: nat, n: nat)
    requires 1 <= n && i + n <= |u|
    ensures Fits(u[i..i + Shrink(u, i, n)])
    ensures Shrink(u, i, n) < n ==> Shrink(u, i, n) >= 342
    decreases n
  {
    ShrinkCounted(u, i, n);
    ByteLengthCounts(u[i..i + Shrink(u, i, n)]);
  }

  lemma {:induction false} ShrinkCounted(u: Text, i: nat, n: nat)
    requires 1 <= n && i + n <= |u|
    ensures ByteLength(u[i..i + Shrink(u, i, n)]) <= MAX_UNIT_BYTES
    ensures Shrink(u, i, n) < n ==> Shrink(u, i, n) >= 342
    decreases n
  {
    ByteLengthBound(u[i..i + n]);
    if n > 1 && ByteLength(u[i..i + n]) > MAX_UNIT_BYTES { ShrinkCounted(u, i, (n + 1) / 2); }
  }

  // A window that is not the last is longer than the overlap, so the max with 1 never decides the step.
  lemma NonFinalWindowExceedsOverlap(u: Text, i: nat)
    requires i < |u| && i + WindowSize(u, i) < |u|
    ensures WindowSize(u, i) >= 342
  {
    ShrinkCounted(u, i, if MAX_UNIT_BYTES <= |u| - i then MAX_UNIT_BYTES else |u| - i);
  }

  // Two windows one after the other have 256 units in common: the next one starts that far before the end of this one.
  lemma WindowsOverlap(u: Text, i: nat)
    requires i < |u|
    ensures Windows(u, i) != [] && i + |Windows(u, i)[0]| <= |u| && Windows(u, i)[0] == u[i..i + |Windows(u, i)[0]|]
    ensures var end := i + |Windows(u, i)[0]|;
      if end == |u| then |Windows(u, i)| == 1 else end - 256 > i && Windows(u, i)[1..] == Windows(u, end - 256)
  {
    if i + WindowSize(u, i) < |u| { NonFinalWindowExceedsOverlap(u, i); }
  }

  lemma {:induction false} WindowsFit(u: Text, i: nat)
    requires i < |u|
    ensures forall k :: 0 <= k < |Windows(u, i)| ==> ByteLength(Windows(u, i)[k]) <= MAX_UNIT_BYTES
    decreases |u| - i
  {
    ShrinkCounted(u, i, if MAX_UNIT_BYTES <= |u| - i then MAX_UNIT_BYTES else |u| - i);
    var n := WindowSize(u, i);
    if i + n < |u| { WindowsFit(u, i + if n > OVERLAP then n - OVERLAP else 1); }
  }

  predicate OccursAt(part: Text, whole: Text, o: nat) {
    o + |part| <= |whole| && whole[o..o + |part|] == part
  }

  // `part` lies wholly inside `whole`.
  ghost predicate Within(part: Text, whole: Text) { exists o :: OccursAt(part, whole, o) }

  ghost predicate WithinSome(part: Text, units: seq<Text>) {
    exists k :: 0 <= k < |units| && Within(part, units[k])
  }

  lemma WithinSomeLater(part: Text, head: seq<Text>, tail: seq<Text>)
    requires WithinSome(part, tail)
    ensures WithinSome(part, head + tail)
  {
    var k :| 0 <= k < |tail| && Within(part, tail[k]);
    assert (head + tail)[|head| + k] == tail[k];
  }

  lemma WithinSomeEarlier(part: Text, head: seq<Text>, tail: seq<Text>)
    requires WithinSome(part, head)
    ensures WithinSome(part, head + tail)
  {
    var k :| 0 <= k < |head| && Within(part, head[k]);
    assert (head + tail)[k] == head[k];
  }

  // A stretch inside the first window at `i`.
  lemma FirstWindowCovers(u: Text, i: nat, a: nat, len: nat)
    requires i <= a && i < |u| && a + len <= i + WindowSize(u, i)
    ensures WithinSome(u[a..a + len], [u[i..i + WindowSize(u, i)]])
  {
    var w := u[i..i + WindowSize(u, i)];
    var part := u[a..a + len];
    assert |w| == WindowSize(u, i) && a - i + len <= |w|;
    forall k | 0 <= k < len ensures w[a - i..a - i + len][k] == part[k] {
      assert w[a - i..a - i + len][k] == w[a - i + k] == u[a + k];
    }
    assert w[a - i..a - i + len] == part;
    assert OccursAt(part, w, a - i);
    assert [w][0] == w;
  }

  // Any stretch no longer than the overlap lies wholly inside one window.
  lemma {:induction false} WindowsCover(u: Text, i: nat, a: nat, len: nat)
    requires i <= a && i < |u| && a + len <= |u| && len <= 256
    ensures WithinSome(u[a..a + len], Windows(u, i))
    decreases |u| - i
  {
    var n := WindowSize(u, i);
    var first := [u[i..i + n]];
    if i + n < |u| {
      NonFinalWindowExceedsOverlap(u, i);
      var rest := Windows(u, i + n - OVERLAP);
      if a + len <= i + n {
        FirstWindowCovers(u, i, a, len);
        WithinSomeEarlier(u[a..a + len], first, rest);
      } else {
        WindowsCover(u, i + n - OVERLAP, a, len);
        WithinSomeLater(u[a..a + len], first, rest);
      }
    } else {
      FirstWindowCovers(u, i, a, len);
    }
  }

  lemma {:induction false} AllUnitsContain(records: seq<Text>, r: nat, part: Text)
    requires r < |records| && WithinSome(part, UnitsOf(records[r]))
    ensures WithinSome(part, AllUnits(records))
  {
    var head, tail := UnitsOf(records[0]), AllUnits(records[1..]);
    if r == 0 {
      WithinSomeEarlier(part, head, tail);
    } else {
      AllUnitsContain(records[1..], r - 1, part);
      WithinSomeLater(part, head, tail);
    }
  }

  // Every substring of at most 256 units inside a record reaches the filter in one piece.
  lemma ShortValuesReachTheFilterWhole(s: Text, r: nat, a: nat, len: nat)
    requires r < |Records(s)| && a + len <= |Records(s)[r]| && len <= 256
    ensures WithinSome(Records(s)[r][a..a + len], Units(s))
  {
    var record := Records(s)[r];
    var part := record[a..a + len];
    if ByteLength(record) <= MAX_UNIT_BYTES {
      assert OccursAt(part, record, a);
      assert UnitsOf(record)[0] == record;
    } else {
      WindowsCover(record, 0, a, len);
    }
    AllUnitsContain(Records(s), r, part);
  }

  // Every unit is within the filter's cap, so none is refused for its size alone.
  lemma UnitsFit(records: seq<Text>)
    ensures forall k :: 0 <= k < |AllUnits(records)| ==> Fits(AllUnits(records)[k])
  {
    UnitsCounted(records);
    forall k | 0 <= k < |AllUnits(records)| ensures Fits(AllUnits(records)[k]) { ByteLengthCounts(AllUnits(records)[k]); }
  }

  lemma {:induction false} UnitsCounted(records: seq<Text>)
    ensures forall k :: 0 <= k < |AllUnits(records)| ==> ByteLength(AllUnits(records)[k]) <= MAX_UNIT_BYTES
  {
    if records != [] {
      UnitsCounted(records[1..]);
      if ByteLength(records[0]) > MAX_UNIT_BYTES { WindowsFit(records[0], 0); }
    }
  }

  // -------------------------------------------------------------- the loops ---

  method ScanUnits(s: Text) returns (units: seq<Text>)
    ensures units == Units(s)
    ensures forall k :: 0 <= k < |units| ==> Fits(units[k])
  {
    units := [];
    UnitsFit(Records(s));
    if s == [] { return; }
    var starts := FindHeaders(s);
    var records := SliceRecords(s, starts);
    var r := 0;
    while r < |records|
      invariant r <= |records|
      invariant AllUnits(records) == units + AllUnits(records[r..])
    {
      var part := CutRecord(records[r]);
      NextRecord(records, r, units);
      units := units + part;
      r := r + 1;
    }
  }

  // A record within the cap is one unit; a longer one is cut into windows.
  method CutRecord(u: Text) returns (units: seq<Text>)
    ensures units == UnitsOf(u)
  {
    if ByteLength(u) <= MAX_UNIT_BYTES { return [u]; }
    units := CutWindows(u);
  }

  lemma NextRecord(records: seq<Text>, r: nat, units: seq<Text>)
    requires r < |records|
    ensures units + AllUnits(records[r..]) == (units + UnitsOf(records[r])) + AllUnits(records[r + 1..])
  {
    assert records[r..][0] == records[r] && records[r..][1..] == records[r + 1..];
  }

  method FindHeaders(s: Text) returns (starts: seq<nat>)
    ensures starts == Headers(s, 0)
  {
    starts := [];
    var i := 0;
    ghost var all := Headers(s, 0);
    while i < |s|
      invariant i <= |s| && starts + Headers(s, i) == all
    {
      var found := HeaderAt(s, i);
      NextHeader(s, i, starts, found);
      starts := if found then starts + [i] else starts;
      i := i + 1;
    }
  }

  lemma NextHeader(s: Text, i: nat, starts: seq<nat>, found: bool)
    requires i < |s| && found == HeaderAt(s, i)
    ensures starts + Headers(s, i) == (if found then starts + [i] else starts) + Headers(s, i + 1)
  {
  }

  method SliceRecords(s: Text, starts: seq<nat>) returns (records: seq<Text>)
    requires forall k :: 0 <= k < |starts| ==> starts[k] < |s|
    requires forall k, l :: 0 <= k < l < |starts| ==> starts[k] < starts[l]
    ensures records == CutAt(s, 0, starts)
  {
    if starts == [] { return [s[0..]]; }
    records := if starts[0] > 0 then [s[0..starts[0]]] else [];
    var i := 0;
    while i < |starts|
      invariant i <= |starts|
      invariant records + Rest(s, starts[i..]) == CutAt(s, 0, starts)
    {
      ghost var before := records;
      if i + 1 < |starts| {
        assert starts[i..][1] == starts[i + 1] && starts[i..][1..] == starts[i + 1..];
        records := records + [s[starts[i]..starts[i + 1]]];
      } else {
        records := records + [s[starts[i]..]];
      }
      assert records + Rest(s, starts[i + 1..]) == before + Rest(s, starts[i..]);
      i := i + 1;
    }
  }

  // The window at `i`: shrunk by halves until it fits the cap in bytes.
  method FitWindow(u: Text, i: nat) returns (n: nat)
    requires i < |u|
    ensures n == WindowSize(u, i)
  {
    n := if MAX_UNIT_BYTES <= |u| - i then MAX_UNIT_BYTES else |u| - i;
    while n > 1 && ByteLength(u[i..i + n]) > MAX_UNIT_BYTES
      invariant 1 <= n && i + n <= |u|
      invariant Shrink(u, i, n) == WindowSize(u, i)
    {
      n := (n + 1) / 2;
    }
  }

  method OneWindow(u: Text, i: nat, done: seq<Text>) returns (windows: seq<Text>, n: nat)
    requires i < |u|
    ensures 1 <= n && (i + n >= |u| ==> windows == done + Windows(u, i))
    ensures i + n < |u| ==> windows + Windows(u, i + if n > OVERLAP then n - OVERLAP else 1) == done + Windows(u, i)
  {
    n := FitWindow(u, i);
    NextWindows(u, i, done);
    windows := done + [u[i..i + n]];
  }

  method CutWindows(u: Text) returns (windows: seq<Text>)
    requires u != []
    ensures windows == Windows(u, 0)
  {
    windows := [];
    var i, n := 0, 0;
    while i < |u|
      invariant i < |u| && windows + Windows(u, i) == Windows(u, 0)
      decreases |u| - i
    {
      windows, n := OneWindow(u, i, windows);
      if i + n >= |u| { return; }
      i := i + if n > OVERLAP then n - OVERLAP else 1;
    }
  }

  lemma NextWindows(u: Text, i: nat, done: seq<Text>)
    requires i < |u|
    ensures var n := WindowSize(u, i);
            var step := if n > OVERLAP then n - OVERLAP else 1;
            done + Windows(u, i) ==
            if i + n >= |u| then done + [u[i..i + n]] else done + [u[i..i + n]] + Windows(u, i + step)
  {
    var n := WindowSize(u, i);
    if i + n < |u| {
      var rest := Windows(u, i + if n > OVERLAP then n - OVERLAP else 1);
      assert done + [u[i..i + n]] + rest == done + ([u[i..i + n]] + rest);
    }
  }
}
