/**
 The archive scripts/build-plugin-zip.js writes, as sections 4.3.7, 4.3.12 and 4.3.16 of PKWARE APPNOTE.TXT
 lay it out: local headers with their data, the central directory, the end record; and a reader of it.
 */
module ZipLayout {
  import opened Basics
  import opened Utf8
  import Crc32

  type Bytes = seq<Byte>

  // ------------------------------------------------------- little-endian fields ---

  function Power256(k: nat): (p: nat)
    ensures p > 0
  {
    if k == 0 then 1 else 256 * Power256(k - 1)
  }

  // The low width bytes of n: what does not fit is cut off, as n >>> 0 cuts it.
  function LittleEndian(width: nat, n: nat): (b: Bytes)
    ensures |b| == width
  {
    if width == 0 then [] else [n % 256] + LittleEndian(width - 1, n / 256)
  }

  function FromLittleEndian(b: Bytes): nat { if b == [] then 0 else b[0] + 256 * FromLittleEndian(b[1..]) }

  // A stored field reads back as its value exactly when the value fits.
  lemma {:induction false} FieldIsExact(width: nat, n: nat)
    ensures FromLittleEndian(LittleEndian(width, n)) == n <==> n < Power256(width)
    ensures FromLittleEndian(LittleEndian(width, n)) < Power256(width)
  {
    if width > 0 {
      FieldIsExact(width - 1, n / 256);
      var b := LittleEndian(width, n);
      assert b[1..] == LittleEndian(width - 1, n / 256);
    }
  }

  datatype Item = Item(width: nat, value: nat)

  function Encode(items: seq<Item>): Bytes {
    if items == [] then [] else LittleEndian(items[0].width, items[0].value) + Encode(items[1..])
  }

  function Widths(items: seq<Item>): (r: seq<nat>)
    ensures |r| == |items|
  {
    if items == [] then [] else [items[0].width] + Widths(items[1..])
  }

  function Values(items: seq<Item>): (r: seq<nat>)
    ensures |r| == |items| && forall i :: 0 <= i < |items| ==> r[i] == items[i].value
  {
    if items == [] then [] else [items[0].value] + Values(items[1..])
  }

  // The values of the fields at the head of b, and what follows them.
  function Decode(widths: seq<nat>, b: Bytes): (r: Option<(seq<nat>, Bytes)>)
    ensures r.Some? ==> |r.value.0| == |widths|
  {
    if widths == [] then Some(([], b))
    else if |b| < widths[0] then None
    else
      match Decode(widths[1..], b[widths[0]..])
      case None => None
      case Some((values, rest)) => Some(([FromLittleEndian(b[..widths[0]])] + values, rest))
  }

  predicate ItemFits(i: Item) { i.value < Power256(i.width) }

  lemma TakeField(widths: seq<nat>, head: Bytes, body: Bytes)
    requires widths != [] && |head| == widths[0]
    ensures Decode(widths, head + body) ==
      match Decode(widths[1..], body)
      case None => None
      case Some((values, rest)) => Some(([FromLittleEndian(head)] + values, rest))
  {
    var b := head + body;
    assert b[..widths[0]] == head && b[widths[0]..] == body;
  }

  lemma {:induction false} DecodeEncode(items: seq<Item>, rest: Bytes)
    requires forall i :: 0 <= i < |items| ==> ItemFits(items[i])
    ensures Decode(Widths(items), Encode(items) + rest) == Some((Values(items), rest))
  {
    if items == [] {
      assert Encode(items) + rest == rest;
    } else {
      var head, body := LittleEndian(items[0].width, items[0].value), Encode(items[1..]) + rest;
      assert ItemFits(items[0]);
      FieldIsExact(items[0].width, items[0].value);
      assert Encode(items) + rest == head + body;
      assert Widths(items)[1..] == Widths(items[1..]);
      DecodeEncode(items[1..], rest);
      TakeField(Widths(items), head, body);
    }
  }

  // --------------------------------------------------------------------- the layout ---

  const LOCAL_SIGNATURE := 0x04034b50
  const CENTRAL_SIGNATURE := 0x02014b50
  const END_SIGNATURE := 0x06054b50
  const VERSION := 20
  const UTF8_FLAG := 0x0800
  const DEFLATE := 8
  const DOS_TIME := 0
  const DOS_DATE := 0x21
  const MAX_U16: nat := 65535
  const MAX_U32: nat := 0xFFFF_FFFF
  const END_LENGTH: nat := 22

  // An archived file: its name, the CRC and length of its data, and its compressed data.
  datatype Entry = Entry(name: Bytes, crc: nat, size: nat, comp: Bytes)

  function LocalItems(e: Entry): seq<Item> {
    [Item(4, LOCAL_SIGNATURE), Item(2, VERSION), Item(2, UTF8_FLAG), Item(2, DEFLATE), Item(2, DOS_TIME), Item(2, DOS_DATE),
     Item(4, e.crc), Item(4, |e.comp|), Item(4, e.size), Item(2, |e.name|), Item(2, 0)]
  }

  function CentralItems(e: Entry, offset: nat): seq<Item> {
    [Item(4, CENTRAL_SIGNATURE), Item(2, VERSION), Item(2, VERSION), Item(2, UTF8_FLAG), Item(2, DEFLATE),
     Item(2, DOS_TIME), Item(2, DOS_DATE), Item(4, e.crc), Item(4, |e.comp|), Item(4, e.size), Item(2, |e.name|),
     Item(2, 0), Item(2, 0), Item(2, 0), Item(2, 0), Item(4, 0), Item(4, offset)]
  }

  function EndItems(count: nat, size: nat, offset: nat): seq<Item> {
    [Item(4, END_SIGNATURE), Item(2, 0), Item(2, 0), Item(2, count), Item(2, count), Item(4, size), Item(4, offset), Item(2, 0)]
  }

  function Local(e: Entry): Bytes { Encode(LocalItems(e)) + (e.name + e.comp) }

  function Central(e: Entry, offset: nat): Bytes { Encode(CentralItems(e, offset)) + e.name }

  function Concat(parts: seq<Bytes>): Bytes { if parts == [] then [] else parts[0] + Concat(parts[1..]) }

  function Locals(es: seq<Entry>): (r: seq<Bytes>)
    ensures |r| == |es| && forall i :: 0 <= i < |es| ==> r[i] == Local(es[i])
  {
    seq(|es|, i requires 0 <= i < |es| => Local(es[i]))
  }

  // Where the local header of file k stands.
  function Offset(es: seq<Entry>, k: nat): nat
    requires k <= |es|
  {
    |Concat(Locals(es[..k]))|
  }

  function Centrals(es: seq<Entry>): (r: seq<Bytes>)
    ensures |r| == |es| && forall i :: 0 <= i < |es| ==> r[i] == Central(es[i], Offset(es, i))
  {
    seq(|es|, i requires 0 <= i < |es| => Central(es[i], Offset(es, i)))
  }

  function Zip(es: seq<Entry>): Bytes {
    var locals, centrals := Concat(Locals(es)), Concat(Centrals(es));
    locals + (centrals + Encode(EndItems(|es|, |centrals|, |locals|)))
  }

  // ----------------------------------------------------------------------- the reader ---

  const LOCAL_WIDTHS: seq<nat> := [4, 2, 2, 2, 2, 2, 4, 4, 4, 2, 2]
  const CENTRAL_WIDTHS: seq<nat> := [4, 2, 2, 2, 2, 2, 2, 4, 4, 4, 2, 2, 2, 2, 2, 4, 4]
  const END_WIDTHS: seq<nat> := [4, 2, 2, 2, 2, 4, 4, 2]

  // The file whose local header starts b.
  function ReadLocal(b: Bytes): Option<Entry> {
    match Decode(LOCAL_WIDTHS, b)
    case None => None
    case Some((v, rest)) =>
      if v[0] != LOCAL_SIGNATURE || |rest| < v[9] + v[10] + v[7] then None
      else Some(Entry(rest[..v[9]], v[6], v[8], rest[v[9] + v[10]..v[9] + v[10] + v[7]]))
  }

  // The file the central record at the head of b describes, and what follows the record. The local header must
  // stand at the recorded offset and agree with the record.
  function ReadCentral(zip: Bytes, b: Bytes): Option<(Entry, Bytes)> {
    match Decode(CENTRAL_WIDTHS, b)
    case None => None
    case Some((v, rest)) =>
      if v[0] != CENTRAL_SIGNATURE || |rest| < v[10] + v[11] + v[12] || v[16] > |zip| then None
      else
        match ReadLocal(zip[v[16]..])
        case None => None
        case Some(e) =>
          if e.name != rest[..v[10]] || e.crc != v[7] || |e.comp| != v[8] || e.size != v[9] then None
          else Some((e, rest[v[10] + v[11] + v[12]..]))
  }

  type Reader = Bytes -> Option<(Entry, Bytes)>

  function CentralReader(zip: Bytes): Reader { (b: Bytes) => ReadCentral(zip, b) }

  // count records, one after another.
  function ReadAll(read: Reader, b: Bytes, count: nat): Option<seq<Entry>>
    decreases count
  {
    if count == 0 then Some([])
    else
      match read(b)
      case None => None
      case Some((e, rest)) =>
        match ReadAll(read, rest, count - 1)
        case None => None
        case Some(es) => Some([e] + es)
  }

  // From the end record (there is no archive comment) to the central directory to the files.
  function Read(zip: Bytes): Option<seq<Entry>> {
    if |zip| < END_LENGTH then None
    else
      match Decode(END_WIDTHS, zip[|zip| - END_LENGTH..])
      case None => None
      case Some((v, rest)) =>
        if v[0] != END_SIGNATURE || v[6] > |zip| then None else ReadAll(CentralReader(zip), zip[v[6]..], v[4])
  }

  // ------------------------------------------------------------------ the round trip ---

  predicate EntryFits(e: Entry) {
    |e.name| <= MAX_U16 && e.crc <= MAX_U32 && |e.comp| <= MAX_U32 && e.size <= MAX_U32
  }

  // Counts, sizes and offsets fit their 16- and 32-bit fields.
  ghost predicate Fits(es: seq<Entry>) {
    (forall i :: 0 <= i < |es| ==> EntryFits(es[i])) && |es| <= MAX_U16 &&
    |Concat(Locals(es))| <= MAX_U32 && |Concat(Centrals(es))| <= MAX_U32
  }

  lemma FieldSizes()
    ensures Power256(2) == MAX_U16 + 1 && Power256(4) == MAX_U32 + 1
  {
    assert Power256(1) == 256 * Power256(0);
    assert Power256(2) == 256 * Power256(1);
    assert Power256(3) == 256 * Power256(2);
  }

  lemma ReadLocalInverts(e: Entry, rest: Bytes)
    requires EntryFits(e)
    ensures ReadLocal(Local(e) + rest) == Some(e)
  {
    var items, tail := LocalItems(e), e.name + e.comp + rest;
    FieldSizes();
    forall i | 0 <= i < |items| ensures ItemFits(items[i]) {}
    DecodeEncode(items, tail);
    assert Local(e) + rest == Encode(items) + tail;
    LocalWidths(e);
    assert tail[..|e.name|] == e.name && tail[|e.name|..|e.name| + |e.comp|] == e.comp;
  }

  lemma {:induction false} WidthsByIndex(items: seq<Item>, widths: seq<nat>)
    requires |items| == |widths| && forall i :: 0 <= i < |items| ==> items[i].width == widths[i]
    ensures Widths(items) == widths
  {
    if items != [] {
      WidthsByIndex(items[1..], widths[1..]);
      assert widths == [widths[0]] + widths[1..];
    }
  }

  lemma LocalWidths(e: Entry)
    ensures Widths(LocalItems(e)) == LOCAL_WIDTHS
  {
    WidthsByIndex(LocalItems(e), LOCAL_WIDTHS);
  }

  lemma CentralWidths(e: Entry, offset: nat)
    ensures Widths(CentralItems(e, offset)) == CENTRAL_WIDTHS
  {
    WidthsByIndex(CentralItems(e, offset), CENTRAL_WIDTHS);
  }

  lemma CentralDecodes(e: Entry, offset: nat, tail: Bytes)
    requires EntryFits(e) && offset <= MAX_U32
    ensures Decode(CENTRAL_WIDTHS, Encode(CentralItems(e, offset)) + tail) == Some((Values(CentralItems(e, offset)), tail))
  {
    var items := CentralItems(e, offset);
    FieldSizes();
    forall i | 0 <= i < |items| ensures ItemFits(items[i]) {}
    DecodeEncode(items, tail);
    CentralWidths(e, offset);
  }

  lemma CentralValues(e: Entry, offset: nat)
    ensures var v := Values(CentralItems(e, offset));
      v[0] == CENTRAL_SIGNATURE && v[7] == e.crc && v[8] == |e.comp| && v[9] == e.size && v[10] == |e.name| &&
      v[11] == 0 && v[12] == 0 && v[16] == offset
  {
  }

  // The record is read back, when the local header stands where the record says.
  lemma ReadCentralInverts(zip: Bytes, e: Entry, offset: nat, more: Bytes, rest: Bytes)
    requires EntryFits(e) && offset <= MAX_U32 && offset <= |zip| && zip[offset..] == Local(e) + more
    ensures ReadCentral(zip, Central(e, offset) + rest) == Some((e, rest))
  {
    var tail := e.name + rest;
    CentralDecodes(e, offset, tail);
    CentralValues(e, offset);
    assert Central(e, offset) + rest == Encode(CentralItems(e, offset)) + tail;
    ReadLocalInverts(e, more);
    assert tail[..|e.name|] == e.name && tail[|e.name|..] == rest;
  }

  lemma Assoc(a: Bytes, b: Bytes, c: Bytes)
    ensures a + (b + c) == a + b + c
  {
  }

  lemma {:induction false} ConcatSplits(a: seq<Bytes>, b: seq<Bytes>)
    ensures Concat(a + b) == Concat(a) + Concat(b)
  {
    if a == [] {
      assert a + b == b;
    } else {
      assert (a + b)[1..] == a[1..] + b;
      ConcatSplits(a[1..], b);
      Assoc(a[0], Concat(a[1..]), Concat(b));
    }
  }

  // A reader that takes each record off what follows it takes them all.
  lemma {:induction false} ReadAllInverts(read: Reader, records: seq<Bytes>, es: seq<Entry>, rest: Bytes)
    requires |records| == |es|
    requires forall k, tail :: 0 <= k < |es| ==> read(records[k] + tail) == Some((es[k], tail))
    ensures ReadAll(read, Concat(records) + rest, |es|) == Some(es)
    decreases |es|
  {
    if es != [] {
      var tail := Concat(records[1..]) + rest;
      Assoc(records[0], Concat(records[1..]), rest);
      assert read(records[0] + tail) == Some((es[0], tail));
      ReadAllInverts(read, records[1..], es[1..], rest);
      assert es == [es[0]] + es[1..];
    }
  }

  // Every offset lands on its local header.
  lemma OffsetsLand(es: seq<Entry>, after: Bytes, k: nat) returns (more: Bytes)
    requires k < |es|
    ensures Offset(es, k) <= |Concat(Locals(es))|
    ensures (Concat(Locals(es)) + after)[Offset(es, k)..] == Local(es[k]) + more
  {
    var parts := Locals(es);
    var before, others := Concat(parts[..k]), Concat(parts[k + 1..]);
    assert parts == parts[..k] + parts[k..] && parts[k..] == [parts[k]] + parts[k + 1..];
    ConcatSplits(parts[..k], parts[k..]);
    assert Locals(es[..k]) == parts[..k];
    more := others + after;
    LandsAt(before, parts[k], others, after);
  }

  lemma LandsAt(before: Bytes, local: Bytes, others: Bytes, after: Bytes)
    ensures (before + (local + others) + after)[|before|..] == local + (others + after)
  {
    assert before + (local + others) + after == before + (local + (others + after));
  }

  lemma RecordIsRead(es: seq<Entry>, after: Bytes, k: nat, tail: Bytes)
    requires k < |es| && EntryFits(es[k]) && |Concat(Locals(es))| <= MAX_U32
    ensures ReadCentral(Concat(Locals(es)) + after, Centrals(es)[k] + tail) == Some((es[k], tail))
  {
    var more := OffsetsLand(es, after, k);
    ReadCentralInverts(Concat(Locals(es)) + after, es[k], Offset(es, k), more, tail);
  }

  lemma EndRecord(count: nat, size: nat, offset: nat)
    requires count <= MAX_U16 && size <= MAX_U32 && offset <= MAX_U32
    ensures |Encode(EndItems(count, size, offset))| == END_LENGTH
    ensures Decode(END_WIDTHS, Encode(EndItems(count, size, offset))) == Some((Values(EndItems(count, size, offset)), []))
  {
    var items := EndItems(count, size, offset);
    FieldSizes();
    forall i | 0 <= i < |items| ensures ItemFits(items[i]) {}
    DecodeEncode(items, []);
    assert Encode(items) + [] == Encode(items);
    WidthsByIndex(items, END_WIDTHS);
    EncodedLength(items);
    SumOf(END_WIDTHS);
  }

  function Sum(widths: seq<nat>): nat { if widths == [] then 0 else widths[0] + Sum(widths[1..]) }

  lemma {:induction false} EncodedLength(items: seq<Item>)
    ensures |Encode(items)| == Sum(Widths(items))
  {
    if items != [] {
      EncodedLength(items[1..]);
      assert Widths(items)[1..] == Widths(items[1..]);
    }
  }

  lemma SumOf(widths: seq<nat>)
    requires widths == END_WIDTHS
    ensures Sum(widths) == END_LENGTH
  {
    assert widths[1..] == [2, 2, 2, 2, 4, 4, 2];
    assert widths[2..] == widths[1..][1..] && widths[3..] == widths[2..][1..] && widths[4..] == widths[3..][1..];
    assert widths[5..] == widths[4..][1..] && widths[6..] == widths[5..][1..] && widths[7..] == widths[6..][1..];
    assert widths[8..] == widths[7..][1..];
  }

  lemma EndSlices(locals: Bytes, centrals: Bytes, end: Bytes, zip: Bytes)
    requires zip == locals + (centrals + end)
    ensures zip[|zip| - |end|..] == end && zip[|locals|..] == centrals + end
  {
  }

  lemma DirectoryIsRead(es: seq<Entry>, zip: Bytes, after: Bytes, rest: Bytes)
    requires Fits(es) && zip == Concat(Locals(es)) + after
    ensures ReadAll(CentralReader(zip), Concat(Centrals(es)) + rest, |es|) == Some(es)
  {
    var read, records := CentralReader(zip), Centrals(es);
    forall k, tail | 0 <= k < |es| ensures read(records[k] + tail) == Some((es[k], tail)) {
      RecordIsRead(es, after, k, tail);
    }
    ReadAllInverts(read, records, es, rest);
  }

  // The reader recovers exactly the files written, in order.
  lemma ReadInvertsZip(es: seq<Entry>)
    requires Fits(es)
    ensures Read(Zip(es)) == Some(es)
  {
    var locals, centrals := Concat(Locals(es)), Concat(Centrals(es));
    var end := Encode(EndItems(|es|, |centrals|, |locals|));
    EndRecord(|es|, |centrals|, |locals|);
    EndSlices(locals, centrals, end, Zip(es));
    DirectoryIsRead(es, Zip(es), centrals + end, end);
    EndLeadsToDirectory(Zip(es), |es|, |centrals|, |locals|);
  }

  lemma EndLeadsToDirectory(zip: Bytes, count: nat, size: nat, offset: nat)
    requires count <= MAX_U16 && size <= MAX_U32 && offset <= MAX_U32 && offset <= |zip| && |zip| >= END_LENGTH
    requires zip[|zip| - END_LENGTH..] == Encode(EndItems(count, size, offset))
    ensures Read(zip) == ReadAll(CentralReader(zip), zip[offset..], count)
  {
    EndRecord(count, size, offset);
    var v := Values(EndItems(count, size, offset));
    assert v[0] == END_SIGNATURE && v[4] == count && v[6] == offset;
  }

  // --------------------------------------------------------------- past 32 bits ---

  // What fields hold, fitting or not.
  function Held(items: seq<Item>): (r: seq<nat>)
    ensures |r| == |items|
    ensures forall i :: 0 <= i < |items| ==> r[i] == FromLittleEndian(LittleEndian(items[i].width, items[i].value))
  {
    if items == [] then [] else [FromLittleEndian(LittleEndian(items[0].width, items[0].value))] + Held(items[1..])
  }

  lemma {:induction false} DecodeHeld(items: seq<Item>, rest: Bytes)
    ensures Decode(Widths(items), Encode(items) + rest) == Some((Held(items), rest))
  {
    if items == [] {
      assert Encode(items) + rest == rest;
    } else {
      var head, body := LittleEndian(items[0].width, items[0].value), Encode(items[1..]) + rest;
      assert Encode(items) + rest == head + body;
      assert Widths(items)[1..] == Widths(items[1..]);
      DecodeHeld(items[1..], rest);
      TakeField(Widths(items), head, body);
    }
  }

  // The offset a reader finds in the k-th central record.
  function StoredOffset(es: seq<Entry>, k: nat, tail: Bytes): Option<nat>
    requires k < |es|
  {
    match Decode(CENTRAL_WIDTHS, Centrals(es)[k] + tail)
    case None => None
    case Some((v, _)) => Some(v[16])
  }

  // It is where the local header stands exactly when that is within 32 bits; past them it is before it.
  lemma StoredOffsetIsExact(es: seq<Entry>, k: nat, tail: Bytes)
    requires k < |es|
    ensures StoredOffset(es, k, tail).Some?
    ensures StoredOffset(es, k, tail) == Some(Offset(es, k)) <==> Offset(es, k) <= MAX_U32
    ensures Offset(es, k) > MAX_U32 ==> StoredOffset(es, k, tail).value < Offset(es, k)
  {
    var items := CentralItems(es[k], Offset(es, k));
    assert Centrals(es)[k] + tail == Encode(items) + (es[k].name + tail);
    DecodeHeld(items, es[k].name + tail);
    CentralWidths(es[k], Offset(es, k));
    assert items[16] == Item(4, Offset(es, k));
    OffsetFieldIsExact(Offset(es, k));
  }

  lemma OffsetFieldIsExact(offset: nat)
    ensures FromLittleEndian(LittleEndian(4, offset)) == offset <==> offset <= MAX_U32
    ensures FromLittleEndian(LittleEndian(4, offset)) <= MAX_U32
  {
    FieldIsExact(4, offset);
    FieldSizes();
  }

  lemma OffsetsRise(es: seq<Entry>, j: nat, k: nat)
    requires j <= k <= |es|
    ensures Offset(es, j) <= Offset(es, k)
  {
    var parts := Locals(es[..k]);
    assert Locals(es[..j]) == parts[..j] && parts == parts[..j] + parts[j..];
    ConcatSplits(parts[..j], parts[j..]);
  }

  // So every central record of an archive names its local header exactly when the last one starts within 32 bits.
  lemma EveryOffsetIsExactWhen(es: seq<Entry>, tail: Bytes)
    requires es != []
    ensures (forall k :: 0 <= k < |es| ==> StoredOffset(es, k, tail) == Some(Offset(es, k))) <==>
      Offset(es, |es| - 1) <= MAX_U32
  {
    var last := |es| - 1;
    StoredOffsetIsExact(es, last, tail);
    if Offset(es, last) <= MAX_U32 {
      forall k | 0 <= k < |es| ensures StoredOffset(es, k, tail) == Some(Offset(es, k)) {
        OffsetsRise(es, k, last);
        StoredOffsetIsExact(es, k, tail);
      }
    }
  }

  // ----------------------------------------------------------------------- the writer ---

  datatype RangeError = OutOfRange

  // A gathered file: its path in UTF-8 and its contents.
  datatype File = File(name: Bytes, data: seq<bv8>)

  // The archived form of a file, under a compressor.
  function EntryOf(f: File, deflate: seq<bv8> -> Bytes): Entry {
    Entry(f.name, Crc32.Crc(f.data) as int, |f.data|, deflate(f.data))
  }

  function EntriesOf(files: seq<File>, deflate: seq<bv8> -> Bytes): (r: seq<Entry>)
    ensures |r| == |files| && forall i :: 0 <= i < |files| ==> r[i] == EntryOf(files[i], deflate)
  {
    seq(|files|, i requires 0 <= i < |files| => EntryOf(files[i], deflate))
  }

  // What the writer has so far.
  datatype Output = Output(locals: seq<Bytes>, centrals: seq<Bytes>, offset: nat)

  ghost predicate Written(es: seq<Entry>, out: Output) {
    out == Output(Locals(es), Centrals(es), |Concat(Locals(es))|)
  }

  lemma WrittenAppend(es: seq<Entry>, e: Entry, out: Output)
    requires Written(es, out)
    ensures Written(es + [e], Output(out.locals + [Local(e)], out.centrals + [Central(e, out.offset)], out.offset + |Local(e)|))
  {
    var all := es + [e];
    assert Locals(all) == Locals(es) + [Local(e)];
    ConcatSplits(Locals(es), [Local(e)]);
    assert Concat([Local(e)]) == Local(e) + Concat([Local(e)][1..]);
    forall i | 0 <= i < |es| ensures Centrals(all)[i] == Centrals(es)[i] {
      assert all[..i] == es[..i];
    }
    assert all[..|es|] == es;
    assert Centrals(all) == Centrals(es) + [Central(e, out.offset)];
  }

  // One file more: its local header and data, its central record at the running offset.
  method AddEntry(ghost es: seq<Entry>, e: Entry, out: Output) returns (next: Output)
    requires Written(es, out)
    ensures Written(es + [e], next)
  {
    WrittenAppend(es, e, out);
    var local := Local(e);
    next := Output(out.locals + [local], out.centrals + [Central(e, out.offset)], out.offset + |local|);
  }

  lemma EntriesSoFar(files: seq<File>, deflate: seq<bv8> -> Bytes, i: nat)
    requires i < |files|
    ensures EntriesOf(files[..i + 1], deflate) == EntriesOf(files[..i], deflate) + [EntryOf(files[i], deflate)]
  {
  }

  method AddFile(table: array<bv32>, files: seq<File>, i: nat, deflate: seq<bv8> -> Bytes, out: Output)
    returns (next: Option<Output>)
    requires Crc32.IsTable(table, Crc32.Bits(), 8) && i < |files|
    requires Written(EntriesOf(files[..i], deflate), out)
    ensures next.Some? <==> |files[i].name| <= MAX_U16
    ensures next.Some? ==> Written(EntriesOf(files[..i + 1], deflate), next.value)
  {
    if |files[i].name| > MAX_U16 { return None; }
    var crc := Crc32.TableCrc(table, files[i].data);
    var e := Entry(files[i].name, crc as int, |files[i].data|, deflate(files[i].data));
    EntriesSoFar(files, deflate, i);
    var after := AddEntry(EntriesOf(files[..i], deflate), e, out);
    next := Some(after);
  }

  // writeUInt16LE throws on what does not fit.
  predicate NamesFit(files: seq<File>, n: nat)
    requires n <= |files|
  {
    forall i :: 0 <= i < n ==> |files[i].name| <= MAX_U16
  }

  // One pass over the files with a running offset; stops at the first name that is too long.
  method WriteFiles(table: array<bv32>, files: seq<File>, deflate: seq<bv8> -> Bytes) returns (out: Option<Output>)
    requires Crc32.IsTable(table, Crc32.Bits(), 8)
    ensures out.Some? <==> NamesFit(files, |files|)
    ensures out.Some? ==> Written(EntriesOf(files, deflate), out.value)
  {
    out := Some(Output([], [], 0));
    var i := 0;
    while i < |files| && out.Some?
      invariant i <= |files|
      invariant if out.Some? then NamesFit(files, i) && Written(EntriesOf(files[..i], deflate), out.value)
                else !NamesFit(files, |files|)
    {
      out := AddFile(table, files, i, deflate, out.value);
      i := i + 1;
    }
    assert out.Some? ==> files[..i] == files;
  }

  // The archive is written unless a 16-bit field would not hold a name's length or the number of files.
  method BuildZip(files: seq<File>, deflate: seq<bv8> -> Bytes) returns (r: Result<Bytes, RangeError>)
    ensures r.Ok? <==> NamesFit(files, |files|) && |files| <= MAX_U16
    ensures r.Ok? ==> r.value == Zip(EntriesOf(files, deflate))
  {
    var table := Crc32.MakeTable();
    var out := WriteFiles(table, files, deflate);
    if out.None? || |files| > MAX_U16 { return Err(OutOfRange); }
    var centralDir := Concat(out.value.centrals);
    r := Ok(Concat(out.value.locals) + (centralDir + Encode(EndItems(|files|, |centralDir|, out.value.offset))));
  }

  // ------------------------------------------------------------------ the headers ---

  lemma TwoBytes(n: nat)
    requires n <= 65535
    ensures LittleEndian(2, n) == [n % 256, n / 256]
  {
    assert LittleEndian(1, n / 256) == [n / 256] + LittleEndian(0, n / 256 / 256);
  }

  lemma FourBytes(n: nat)
    requires n <= 0xFFFF_FFFF
    ensures LittleEndian(4, n) == [n % 256, n / 256 % 256, n / 65536 % 256, n / 16777216]
  {
    assert LittleEndian(4, n) == [n % 256] + LittleEndian(3, n / 256);
    assert LittleEndian(3, n / 256) == [n / 256 % 256] + LittleEndian(2, n / 256 / 256);
    TwoBytes(n / 256 / 256);
  }

  // Two-byte fields stand one after another, low byte first.
  lemma {:induction false} PairAt(items: seq<Item>, n: nat, i: nat)
    requires i < n <= |items| && forall j :: 0 <= j < n ==> items[j].width == 2 && items[j].value <= 65535
    ensures |Encode(items)| >= 2 * n
    ensures Encode(items)[2 * i] == items[i].value % 256 && Encode(items)[2 * i + 1] == items[i].value / 256
    decreases n
  {
    TwoBytes(items[0].value);
    assert Encode(items) == [items[0].value % 256, items[0].value / 256] + Encode(items[1..]);
    if n > 1 {
      PairAt(items[1..], n - 1, if i == 0 then 0 else i - 1);
    }
  }

  predicate Carries(b: Bytes, at: nat, n: nat) { at + 2 <= |b| && b[at] == n % 256 && b[at + 1] == n / 256 }

  // A four-byte signature, and then two-byte fields.
  ghost predicate Begins(b: Bytes, items: seq<Item>, n: nat)
    requires 0 < n <= |items|
  {
    |b| >= 4 && b[..4] == LittleEndian(4, items[0].value) &&
    forall i :: 0 < i < n ==> Carries(b, 2 + 2 * i, items[i].value)
  }

  lemma Behind(four: Bytes, e: Bytes, rest: Bytes, k: nat, n: nat)
    requires |four| == 4 && Carries(e, k, n)
    ensures Carries(four + e + rest, 4 + k, n)
  {
  }

  lemma HeaderBegins(items: seq<Item>, n: nat, rest: Bytes)
    requires 0 < n <= |items| && items[0].width == 4
    requires forall i :: 0 < i < n ==> items[i].width == 2 && items[i].value <= 65535
    ensures Begins(Encode(items) + rest, items, n)
  {
    var four, others := LittleEndian(4, items[0].value), Encode(items[1..]);
    forall i | 0 < i < n ensures Carries(four + others + rest, 2 + 2 * i, items[i].value) {
      PairAt(items[1..], n - 1, i - 1);
      Behind(four, others, rest, 2 * (i - 1), items[i].value);
    }
  }

  // A local header: PK, 3 and 4, version 2.0, names in UTF-8, deflated, midnight of the first of January 1980.
  lemma LocalBegins(e: Entry)
    ensures var b := Local(e);
      && |b| >= 14 && b[0] == 0x50 && b[1] == 0x4b && b[2] == 3 && b[3] == 4
      && Carries(b, 4, 20) && Carries(b, 6, 0x0800) && Carries(b, 8, 8) && Carries(b, 10, 0) && Carries(b, 12, 0x21)
  {
    var items := LocalItems(e);
    HeaderBegins(items, 6, e.name + e.comp);
    FourBytes(LOCAL_SIGNATURE);
    Fields(Local(e), items, 6);
  }

  lemma Fields(b: Bytes, items: seq<Item>, n: nat)
    requires 5 <= n <= |items| && Begins(b, items, n)
    ensures Carries(b, 4, items[1].value) && Carries(b, 6, items[2].value) && Carries(b, 8, items[3].value)
    ensures Carries(b, 10, items[4].value) && (n > 5 ==> Carries(b, 12, items[5].value))
    ensures n > 6 ==> Carries(b, 14, items[6].value)
  {
    forall i | 0 < i < n ensures Carries(b, 2 + 2 * i, items[i].value) {}
    assert Carries(b, 2 + 2 * 1, items[1].value) && Carries(b, 2 + 2 * 2, items[2].value);
    assert Carries(b, 2 + 2 * 3, items[3].value) && Carries(b, 2 + 2 * 4, items[4].value);
    if n > 5 { assert Carries(b, 2 + 2 * 5, items[5].value); }
    if n > 6 { assert Carries(b, 2 + 2 * 6, items[6].value); }
  }

  // A central record: PK, 1 and 2, made by and read by version 2.0, and then as the local header.
  lemma CentralBegins(e: Entry, offset: nat)
    ensures var b := Central(e, offset);
      && |b| >= 16 && b[0] == 0x50 && b[1] == 0x4b && b[2] == 1 && b[3] == 2
      && Carries(b, 4, 20) && Carries(b, 6, 20) && Carries(b, 8, 0x0800) && Carries(b, 10, 8) && Carries(b, 12, 0)
      && Carries(b, 14, 0x21)
  {
    var items := CentralItems(e, offset);
    HeaderBegins(items, 7, e.name);
    FourBytes(CENTRAL_SIGNATURE);
    Fields(Central(e, offset), items, 7);
  }

  // And the end record: PK, 5 and 6, one disk, and the number of entries twice.
  lemma EndBegins(count: nat, size: nat, offset: nat)
    requires count <= 65535
    ensures var b := Encode(EndItems(count, size, offset));
      && |b| >= 12 && b[0] == 0x50 && b[1] == 0x4b && b[2] == 5 && b[3] == 6
      && Carries(b, 4, 0) && Carries(b, 6, 0) && Carries(b, 8, count) && Carries(b, 10, count)
  {
    var items := EndItems(count, size, offset);
    HeaderBegins(items, 5, []);
    FourBytes(END_SIGNATURE);
    assert Encode(items) + [] == Encode(items);
    Fields(Encode(items), items, 5);
  }
}
