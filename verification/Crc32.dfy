/**
 The CRC-32 of section 8 of RFC 1952, as scripts/build-plugin-zip.js computes it: a table built by nested
 loops and a byte loop over it, against division of the message one bit at a time.
 */
module Crc32 {
  import opened BitDivision

  const POLY: bv32 := 0xEDB88320
  const ONES: bv32 := 0xFFFF_FFFF

  // One step of division by the reflected polynomial, and its inverse.
  function ShiftOut(c: bv32): bv32 { if c & 1 == 1 then POLY ^ (c >> 1) else c >> 1 }

  function ShiftIn(c: bv32): bv32 { if c & 0x8000_0000 != 0 then ((c ^ POLY) << 1) | 1 else c << 1 }

  type Register = Machine<bv32, bv8>

  function Xor(a: bv32, b: bv32): bv32 { a ^ b }

  function LowestBit(x: bv32): bv32 { x & 1 }

  function OneDown(x: bv32): bv32 { x >> 1 }

  function Widen(b: bv8): bv32 { b as bv32 }

  function LowByte(x: bv32): bv32 { x & 0xFF }

  function HighBytes(x: bv32): bv32 { x & 0xFFFF_FF00 }

  function ByteDown(x: bv32): bv32 { x >> 8 }

  function Bits(): Register {
    Machine(Xor, ShiftOut, ShiftIn, LowestBit, OneDown, Widen, LowByte, HighBytes, ByteDown, 0)
  }

  // The reference: the message divided bit by bit, least significant bit of each byte first.
  function Crc(data: seq<bv8>): bv32 { Feed(Bits(), ONES, data, 8) ^ ONES }

  // ------------------------------------------------------------ laws of the bits ---

  lemma XorLaws(a: bv32, b: bv32, c: bv32)
    ensures (a ^ b) ^ c == a ^ (b ^ c) && a ^ 0 == a && 0 ^ a == a && a ^ a == 0
  {
  }

  lemma ShiftXor(a: bv32, b: bv32)
    ensures (a ^ b) >> 1 == (a >> 1) ^ (b >> 1)
    ensures (a ^ b) & 1 == (a & 1) ^ (b & 1)
  {
  }

  lemma LowBit(a: bv32)
    ensures a & 1 == 0 || a & 1 == 1
  {
  }

  lemma XorTwice(p: bv32, x: bv32, y: bv32)
    ensures (p ^ x) ^ (p ^ y) == x ^ y && (p ^ x) ^ y == p ^ (x ^ y) && x ^ (p ^ y) == p ^ (x ^ y)
  {
  }

  lemma ShiftOutIsLinear(a: bv32, b: bv32)
    ensures ShiftOut(a ^ b) == ShiftOut(a) ^ ShiftOut(b)
  {
    ShiftXor(a, b);
    LowBit(a);
    LowBit(b);
    XorTwice(POLY, a >> 1, b >> 1);
  }

  lemma ShiftOutIsReversible(c: bv32)
    ensures ShiftIn(ShiftOut(c)) == c
  {
  }

  lemma ShiftOutTakesBits(c: bv32, bits: bv32)
    ensures ShiftOut(c ^ (bits & 1)) ^ (bits >> 1) == ShiftOut(c ^ bits)
  {
  }

  lemma LowAndHigh(x: bv32)
    ensures (x & 0xFF) ^ (x & 0xFFFF_FF00) == x
    ensures (x & 0xFFFF_FF00) & 0xFF == 0 && (x & 0xFFFF_FF00) >> 8 == x >> 8
  {
  }

  // --------------------------------------------------------- eight steps a byte ---

  function ShiftRight(x: bv32, n: nat): bv32
    decreases n
  {
    if n == 0 then x else ShiftRight(x >> 1, n - 1)
  }

  predicate LowZero(x: bv32, n: nat)
    decreases n
  {
    n == 0 || (x & 1 == 0 && LowZero(x >> 1, n - 1))
  }

  lemma EightRight(x: bv32)
    ensures ShiftRight(x, 8) == x >> 8
    ensures x & 0xFF == 0 ==> LowZero(x, 8)
  {
  }

  lemma {:induction false} DownIsRight(x: bv32, n: nat)
    ensures Down(Bits(), x, n) == ShiftRight(x, n)
    decreases n
  {
    if n > 0 { DownIsRight(x >> 1, n - 1); }
  }

  lemma {:induction false} ZerosJustMove(x: bv32, n: nat)
    requires LowZero(x, n)
    ensures Shifts(Bits(), x, n) == ShiftRight(x, n)
    decreases n
  {
    if n > 0 { ZerosJustMove(x >> 1, n - 1); }
  }

  lemma ByteIsLow(b: bv8)
    ensures (b as bv32) >> 8 == 0
  {
  }

  lemma ByteGoesDown(b: bv8, w: nat)
    requires w == 8
    ensures Down(Bits(), b as bv32, w) == 0
  {
    DownIsRight(b as bv32, w);
    EightRight(b as bv32);
    ByteIsLow(b);
  }

  lemma HighMovesDown(x: bv32, w: nat)
    requires w == 8
    ensures Shifts(Bits(), x & 0xFFFF_FF00, w) == x >> 8
  {
    LowAndHigh(x);
    EightRight(x & 0xFFFF_FF00);
    ZerosJustMove(x & 0xFFFF_FF00, w);
  }

  lemma BitsAssociate()
    ensures Bits().Associative()
  {
    forall a: bv32, b: bv32, c: bv32 ensures Xor(Xor(a, b), c) == Xor(a, Xor(b, c)) { XorLaws(a, b, c); }
  }

  lemma BitsHaveZero()
    ensures Bits().HasZero()
  {
    forall a: bv32 ensures Xor(a, 0) == a && Xor(0, a) == a && Xor(a, a) == 0 { XorLaws(a, a, a); }
  }

  lemma BitsAreLinear()
    ensures Bits().Linear()
  {
    forall a: bv32, b: bv32 ensures ShiftOut(Xor(a, b)) == Xor(ShiftOut(a), ShiftOut(b)) { ShiftOutIsLinear(a, b); }
  }

  lemma BitsReverse()
    ensures Bits().Reversible()
  {
    forall a: bv32 ensures ShiftIn(ShiftOut(a)) == a { ShiftOutIsReversible(a); }
  }

  lemma BitsTakeBits()
    ensures Bits().TakesBits()
  {
    var m := Bits();
    forall c: bv32, x: bv32 ensures m.xor(m.step(m.xor(c, m.low(x))), m.down(x)) == m.step(m.xor(c, x)) {
      TakesOne(c, x);
    }
  }

  lemma TakesOne(c: bv32, x: bv32)
    ensures var m := Bits(); m.xor(m.step(m.xor(c, m.low(x))), m.down(x)) == m.step(m.xor(c, x))
  {
    var m := Bits();
    NamedLow(m, x);
    NamedStep(m, c, x & 1);
    NamedStep(m, c, x);
    NamedXor(m, ShiftOut(c ^ (x & 1)), x >> 1);
    ShiftOutTakesBits(c, x);
  }

  lemma NamedLow(m: Register, x: bv32)
    requires m == Bits()
    ensures m.low(x) == x & 1 && m.down(x) == x >> 1
  {
  }

  lemma NamedStep(m: Register, a: bv32, b: bv32)
    requires m == Bits()
    ensures m.step(m.xor(a, b)) == ShiftOut(a ^ b)
  {
  }

  lemma NamedXor(m: Register, p: bv32, q: bv32)
    requires m == Bits()
    ensures m.xor(p, q) == p ^ q
  {
  }

  lemma BitsTakeBytes(w: nat)
    requires w == 8
    ensures Bits().TakesBytes(w)
  {
    forall b: bv8 ensures Down(Bits(), Widen(b), w) == 0 { ByteGoesDown(b, w); }
  }

  lemma BitsSplit()
    ensures Bits().Splits()
  {
    forall x: bv32 ensures Xor(LowByte(x), HighBytes(x)) == x { LowAndHigh(x); }
  }

  lemma BitsMoveBytes(w: nat)
    requires w == 8
    ensures Bits().MovesBytes(w)
  {
    forall x: bv32 ensures Shifts(Bits(), HighBytes(x), w) == ByteDown(x) { HighMovesDown(x, w); }
  }

  // The register obeys the laws of division by the polynomial, eight steps to a byte.
  lemma BitsAreLawful(w: nat)
    requires w == 8
    ensures Bits().Lawful(w)
  {
    BitsAssociate();
    BitsHaveZero();
    BitsAreLinear();
    BitsReverse();
    BitsTakeBits();
    BitsTakeBytes(w);
    BitsSplit();
    BitsMoveBytes(w);
  }

  // ------------------------------------------------------------- the program ---

  function EntryAt(m: Register, n: bv8, w: nat): bv32 { Shifts(m, n as bv32, w) }

  // The table entry of every byte.
  ghost predicate IsTable(t: array<bv32>, m: Register, w: nat)
    reads t
  {
    t.Length == 256 && forall n: bv8 :: t[n as int] == EntryAt(m, n, w)
  }

  method MakeTable() returns (t: array<bv32>)
    ensures IsTable(t, Bits(), 8)
  {
    t := FillTable(Bits(), 8);
  }

  method FillTable(ghost m: Register, bits: nat) returns (t: array<bv32>)
    requires m == Bits()
    ensures IsTable(t, m, bits)
  {
    t := new bv32[256];
    var n := 0;
    while n < 256
      invariant n <= 256
      invariant forall i :: 0 <= i < n ==> t[i] == EntryAt(m, i as bv8, bits)
    {
      t[n] := TableEntry(m, n as bv8, bits);
      n := n + 1;
    }
    ByteIndices(t, m, bits);
  }

  lemma ByteIndices(t: array<bv32>, m: Register, w: nat)
    requires t.Length == 256 && forall i :: 0 <= i < 256 ==> t[i] == EntryAt(m, i as bv8, w)
    ensures IsTable(t, m, w)
  {
    forall b: bv8 ensures t[b as int] == EntryAt(m, b, w) {
      assert (b as int) as bv8 == b;
    }
  }

  method TableEntry(ghost m: Register, n: bv8, bits: nat) returns (c: bv32)
    requires m == Bits()
    ensures c == EntryAt(m, n, bits)
  {
    c := n as bv32;
    var k := 0;
    while k < bits
      invariant k <= bits && Shifts(m, c, bits - k) == EntryAt(m, n, bits)
    {
      c := if c & 1 == 1 then 0xEDB88320 ^ (c >> 1) else c >> 1;
      k := k + 1;
    }
  }

  // The table entry at the low byte of register and input, added to the register shifted by a byte.
  method OneByte(t: array<bv32>, c: bv32, b: bv8, ghost m: Register, ghost w: nat) returns (d: bv32)
    requires m == Bits() && w == 8 && IsTable(t, m, w)
    ensures d == FeedBits(m, c, m.lift(b), w)
  {
    var n := IndexOf(c, b);
    EntryOf(t, m, w, n);
    d := Combine(t[n as int], c, b, m, w);
  }

  function IndexOf(c: bv32, b: bv8): bv8 { ((c ^ (b as bv32)) & 0xFF) as bv8 }

  method Combine(entry: bv32, c: bv32, b: bv8, ghost m: Register, ghost w: nat) returns (d: bv32)
    requires m == Bits() && w == 8 && entry == EntryAt(m, IndexOf(c, b), w)
    ensures d == FeedBits(m, c, m.lift(b), w)
  {
    d := entry ^ (c >> 8);
    Combined(entry, c, b, m, w, d);
  }

  lemma Combined(entry: bv32, c: bv32, b: bv8, m: Register, w: nat, d: bv32)
    requires m == Bits() && w == 8 && entry == EntryAt(m, IndexOf(c, b), w) && d == entry ^ (c >> 8)
    ensures d == FeedBits(m, c, m.lift(b), w)
  {
    var x := c ^ (b as bv32);
    IndexIsLow(c, b, x);
    EntryOfLow(m, IndexOf(c, b), x & 0xFF, w);
    CombinedLow(entry, c, b, m, w, d, x);
  }

  lemma CombinedLow(entry: bv32, c: bv32, b: bv8, m: Register, w: nat, d: bv32, x: bv32)
    requires m == Bits() && w == 8 && x == c ^ (b as bv32)
    requires entry == Shifts(m, x & 0xFF, w) && c >> 8 == x >> 8 && d == entry ^ (c >> 8)
    ensures d == FeedBits(m, c, m.lift(b), w)
  {
    ByteByTable(m, c, b, w, x);
  }

  lemma IndexIsLow(c: bv32, b: bv8, x: bv32)
    requires x == c ^ (b as bv32)
    ensures IndexOf(c, b) as bv32 == x & 0xFF && c >> 8 == x >> 8
  {
    OtherBytes(c, b);
  }

  lemma EntryOfLow(m: Register, n: bv8, low: bv32, w: nat)
    requires n as bv32 == low
    ensures EntryAt(m, n, w) == Shifts(m, low, w)
  {
  }

  lemma ByteByTable(m: Register, c: bv32, b: bv8, w: nat, x: bv32)
    requires m == Bits() && w == 8 && x == c ^ (b as bv32)
    ensures FeedBits(m, c, m.lift(b), w) == Shifts(m, x & 0xFF, w) ^ (x >> 8)
  {
    BytesByTable(m, c, b, w);
    NamedBytes(m, c, b, x);
    NamedXor(m, Shifts(m, x & 0xFF, w), x >> 8);
  }

  lemma BytesByTable(m: Register, c: bv32, b: bv8, w: nat)
    requires m == Bits() && w == 8
    ensures var x := m.xor(c, m.lift(b)); FeedBits(m, c, m.lift(b), w) == m.xor(Shifts(m, m.lowByte(x), w), m.byteDown(x))
  {
    BitsAreLawful(w);
    TableStep(m, c, b, w);
  }

  lemma NamedBytes(m: Register, c: bv32, b: bv8, x: bv32)
    requires m == Bits() && x == c ^ (b as bv32)
    ensures m.xor(c, m.lift(b)) == x && m.lowByte(x) == x & 0xFF && m.byteDown(x) == x >> 8
  {
  }

  lemma EntryOf(t: array<bv32>, m: Register, w: nat, n: bv8)
    requires IsTable(t, m, w)
    ensures t[n as int] == EntryAt(m, n, w)
  {
  }

  lemma OtherBytes(c: bv32, b: bv8)
    ensures (c ^ (b as bv32)) >> 8 == c >> 8
    ensures ((c ^ (b as bv32)) & 0xFF) as bv8 as bv32 == (c ^ (b as bv32)) & 0xFF
  {
  }

  // The byte loop on the register.
  method TableFeed(t: array<bv32>, buf: seq<bv8>, ghost m: Register, ghost w: nat) returns (c: bv32)
    requires m == Bits() && w == 8 && IsTable(t, m, w)
    ensures c == Feed(m, ONES, buf, w)
  {
    c := 0xFFFF_FFFF;
    var i := 0;
    while i < |buf|
      invariant i <= |buf| && Feed(m, c, buf[i..], w) == Feed(m, ONES, buf, w)
    {
      FeedNext(m, c, buf, i, w);
      c := OneByte(t, c, buf[i], m, w);
      i := i + 1;
    }
  }

  lemma FeedNext(m: Register, c: bv32, buf: seq<bv8>, i: nat, w: nat)
    requires i < |buf|
    ensures Feed(m, c, buf[i..], w) == Feed(m, FeedBits(m, c, m.lift(buf[i]), w), buf[i + 1..], w)
  {
    assert buf[i..][0] == buf[i] && buf[i..][1..] == buf[i + 1..];
  }

  // The table form computes the bit-at-a-time CRC of every byte string.
  method TableCrc(t: array<bv32>, buf: seq<bv8>) returns (crc: bv32)
    requires IsTable(t, Bits(), 8)
    ensures crc == Crc(buf)
  {
    var c := TableFeed(t, buf, Bits(), 8);
    crc := c ^ 0xFFFF_FFFF;
  }

  // ------------------------------------------------------- what the CRC detects ---

  function ByteUp(x: bv32): bv32 { x << 8 }

  predicate Fits(x: bv32, bytes: nat) {
    (bytes <= 3 ==> x & 0xFF00_0000 == 0) && (bytes <= 2 ==> x & 0xFFFF_0000 == 0) &&
    (bytes <= 1 ==> x & 0xFFFF_FF00 == 0) && (bytes == 0 ==> x == 0)
  }

  lemma OneMoreFits(b: bv8, x: bv32, n: nat)
    requires Fits(x, n) && n <= 3
    ensures Fits((b as bv32) ^ (x << 8), n + 1)
  {
  }

  lemma {:induction false} WordFits(m: Register, bytes: seq<bv8>)
    requires m == Bits() && |bytes| <= 4
    ensures Fits(Word(m, ByteUp, bytes), |bytes|)
  {
    if bytes != [] {
      WordFits(m, bytes[1..]);
      OneMoreFits(bytes[0], Word(m, ByteUp, bytes[1..]), |bytes| - 1);
    }
  }

  lemma UpAndDown(m: Register, x: bv32, y: bv32)
    requires m == Bits() && x & 0xFF00_0000 == 0 && y == ByteUp(x)
    ensures m.highBytes(y) == y && m.byteDown(y) == x
  {
    NothingLost(x, y);
    NamedHigh(m, y);
  }

  lemma NothingLost(x: bv32, y: bv32)
    requires x & 0xFF00_0000 == 0 && y == x << 8
    ensures y & 0xFFFF_FF00 == y && y >> 8 == x
  {
  }

  lemma NamedHigh(m: Register, y: bv32)
    requires m == Bits()
    ensures m.highBytes(y) == y & 0xFFFF_FF00 && m.byteDown(y) == y >> 8
  {
  }

  lemma WordReturns(m: Register, bytes: seq<bv8>, w: nat)
    requires m == Bits() && w == 8 && |bytes| <= 3
    ensures Returns(m, ByteUp, Word(m, ByteUp, bytes), w)
  {
    var x := Word(m, ByteUp, bytes);
    WordFits(m, bytes);
    UpAndDown(m, x, ByteUp(x));
    BitsMove(m, ByteUp(x), w);
  }

  lemma BitsMove(m: Register, y: bv32, w: nat)
    requires m == Bits() && w == 8
    ensures Shifts(m, m.highBytes(y), w) == m.byteDown(y)
  {
    BitsMoveBytes(w);
  }

  predicate ThreeBytes(x: bv32) { x & 0xFF00_0000 == 0 }

  lemma BitsSeparate(m: Register)
    requires m == Bits()
    ensures Separates(m, ByteUp, ThreeBytes)
  {
    forall a, x, b, y | ThreeBytes(x) && ThreeBytes(y) && m.xor(m.lift(a), ByteUp(x)) == m.xor(m.lift(b), ByteUp(y))
      ensures a == b && x == y
    {
      Apart(m, a, x, b, y);
    }
  }

  lemma Apart(m: Register, a: bv8, x: bv32, b: bv8, y: bv32)
    requires m == Bits() && ThreeBytes(x) && ThreeBytes(y)
    requires m.xor(m.lift(a), ByteUp(x)) == m.xor(m.lift(b), ByteUp(y))
    ensures a == b && x == y
  {
    NamedLift(m, a, x);
    NamedLift(m, b, y);
    SplitWord(a, x, b, y, Xor(Widen(a), ByteUp(x)));
  }

  lemma NamedLift(m: Register, a: bv8, x: bv32)
    requires m == Bits()
    ensures m.xor(m.lift(a), ByteUp(x)) == Xor(Widen(a), ByteUp(x))
  {
  }

  lemma SplitWord(a: bv8, x: bv32, b: bv8, y: bv32, whole: bv32)
    requires ThreeBytes(x) && ThreeBytes(y)
    requires Xor(Widen(a), ByteUp(x)) == whole && Xor(Widen(b), ByteUp(y)) == whole
    ensures a == b && x == y
  {
  }

  lemma SameWordSameBytes(m: Register, u: seq<bv8>, v: seq<bv8>)
    requires m == Bits() && |u| == |v| <= 4 && Word(m, ByteUp, u) == Word(m, ByteUp, v)
    ensures u == v
  {
    forall i | 0 < i <= |u| ensures ThreeBytes(Word(m, ByteUp, u[i..])) { WordFits(m, u[i..]); }
    forall i | 0 < i <= |v| ensures ThreeBytes(Word(m, ByteUp, v[i..])) { WordFits(m, v[i..]); }
    BitsSeparate(m);
    WordIsInjective(m, ByteUp, ThreeBytes, u, v);
  }

  // Any change confined to four consecutive bytes changes the CRC.
  lemma BurstsAreDetected(before: seq<bv8>, u: seq<bv8>, v: seq<bv8>, after: seq<bv8>)
    requires |u| == |v| <= 4 && u != v
    ensures Crc(before + u + after) != Crc(before + v + after)
  {
    SameFeedSameBytes(Bits(), before, u, v, after, 8);
    SameXorSame(Feed(Bits(), ONES, before + u + after, 8), Feed(Bits(), ONES, before + v + after, 8), ONES);
  }

  lemma SameXorSame(c: bv32, d: bv32, b: bv32)
    ensures c ^ b == d ^ b ==> c == d
  {
  }

  lemma SameFeedSameBytes(m: Register, before: seq<bv8>, u: seq<bv8>, v: seq<bv8>, after: seq<bv8>, w: nat)
    requires m == Bits() && w == 8 && |u| == |v| <= 4
    ensures Feed(m, ONES, before + u + after, w) == Feed(m, ONES, before + v + after, w) ==> u == v
  {
    if Feed(m, ONES, before + u + after, w) == Feed(m, ONES, before + v + after, w) {
      SameWords(m, before, u, v, after, w);
      SameWordSameBytes(m, u, v);
    }
  }

  lemma SameWords(m: Register, before: seq<bv8>, u: seq<bv8>, v: seq<bv8>, after: seq<bv8>, w: nat)
    requires m == Bits() && w == 8 && |u| == |v| <= 4
    requires Feed(m, ONES, before + u + after, w) == Feed(m, ONES, before + v + after, w)
    ensures Word(m, ByteUp, u) == Word(m, ByteUp, v)
  {
    forall i | 0 < i <= |u| ensures Returns(m, ByteUp, Word(m, ByteUp, u[i..]), w) { WordReturns(m, u[i..], w); }
    forall i | 0 < i <= |v| ensures Returns(m, ByteUp, Word(m, ByteUp, v[i..]), w) { WordReturns(m, v[i..], w); }
    BitsAreLawful(w);
    SameRegisterSameWord(m, ByteUp, ONES, before, u, v, after, w);
  }

  // ---------------------------------------------------------------- the check value ---

  function Two(x: bv32): bv32 { ShiftOut(ShiftOut(x)) }

  function Eight(x: bv32): bv32 { Two(Two(Two(Two(x)))) }

  lemma OneShift(m: Register, x: bv32, n: nat)
    requires m == Bits() && n > 0
    ensures Shifts(m, x, n) == Shifts(m, ShiftOut(x), n - 1)
  {
  }

  lemma EightShifts(m: Register, x: bv32, w: nat)
    requires m == Bits() && w == 8
    ensures Shifts(m, x, w) == Eight(x)
  {
    var y, k := x, w;
    while k > 0
      invariant k <= w && Shifts(m, x, w) == Shifts(m, y, k)
      invariant k == 8 ==> y == x
      invariant k == 7 ==> y == ShiftOut(x)
      invariant k == 6 ==> y == Two(x)
      invariant k == 5 ==> y == ShiftOut(Two(x))
      invariant k == 4 ==> y == Two(Two(x))
      invariant k == 3 ==> y == ShiftOut(Two(Two(x)))
      invariant k == 2 ==> y == Two(Two(Two(x)))
      invariant k == 1 ==> y == ShiftOut(Two(Two(Two(x))))
      invariant k == 0 ==> y == Eight(x)
    {
      OneShift(m, y, k);
      y, k := ShiftOut(y), k - 1;
    }
  }

  // The same CRC, a byte at a time.
  function Bytewise(c: bv32, data: seq<bv8>): bv32
    decreases |data|
  {
    if data == [] then c else Bytewise(Eight(c ^ (data[0] as bv32)), data[1..])
  }

  lemma {:induction false} FeedIsBytewise(m: Register, c: bv32, data: seq<bv8>, w: nat)
    requires m == Bits() && w == 8
    ensures Feed(m, c, data, w) == Bytewise(c, data)
    decreases |data|
  {
    if data != [] {
      ByteIsEight(m, c, data[0], w);
      FeedIsBytewise(m, Eight(c ^ (data[0] as bv32)), data[1..], w);
    }
  }

  lemma ByteIsEight(m: Register, c: bv32, b: bv8, w: nat)
    requires m == Bits() && w == 8
    ensures FeedBits(m, c, m.lift(b), w) == Eight(c ^ (b as bv32))
  {
    BitsAreLawful(w);
    FeedByte(m, c, b, w);
    EightShifts(m, c ^ (b as bv32), w);
  }

  lemma OneMore(c: bv32, data: seq<bv8>, k: nat, d: bv32)
    requires k < |data| && d == Eight(c ^ (data[k] as bv32))
    ensures Bytewise(c, data[k..]) == Bytewise(d, data[k + 1..])
  {
    assert data[k..][0] == data[k] && data[k..][1..] == data[k + 1..];
  }

  predicate Digits(data: seq<bv8>) { data == [0x31, 0x32, 0x33, 0x34, 0x35, 0x36, 0x37, 0x38, 0x39] }

  lemma FirstDigits(data: seq<bv8>)
    requires Digits(data)
    ensures Bytewise(0xFFFF_FFFF, data[0..]) == Bytewise(0x77B7_9C2D, data[3..])
  {
    OneMore(0xFFFF_FFFF, data, 0, 0x7C23_1048);
    OneMore(0x7C23_1048, data, 1, 0xB0AC_BB32);
    OneMore(0xB0AC_BB32, data, 2, 0x77B7_9C2D);
  }

  lemma MiddleDigits(data: seq<bv8>)
    requires Digits(data)
    ensures Bytewise(0x77B7_9C2D, data[3..]) == Bytewise(0xF68D_2C9E, data[6..])
  {
    OneMore(0x77B7_9C2D, data, 3, 0x641C_1F5C);
    OneMore(0x641C_1F5C, data, 4, 0x340A_C5E3);
    OneMore(0x340A_C5E3, data, 5, 0xF68D_2C9E);
  }

  lemma LastDigits(data: seq<bv8>)
    requires Digits(data)
    ensures Bytewise(0xF68D_2C9E, data[6..]) == Bytewise(0x340B_C6D9, data[9..])
  {
    OneMore(0xF68D_2C9E, data, 6, 0xAFFC_9660);
    OneMore(0xAFFC_9660, data, 7, 0x651F_2550);
    OneMore(0x651F_2550, data, 8, 0x340B_C6D9);
  }

  lemma CrcIsBytewise(data: seq<bv8>, w: nat)
    requires w == 8
    ensures Crc(data) == Bytewise(ONES, data) ^ ONES
  {
    FeedIsBytewise(Bits(), ONES, data, w);
  }

  // The check value of this CRC: what it makes of the digits 1 to 9.
  lemma CheckValue(data: seq<bv8>)
    requires data == [0x31, 0x32, 0x33, 0x34, 0x35, 0x36, 0x37, 0x38, 0x39]
    ensures Crc(data) == 0xCBF4_3926
  {
    FirstDigits(data);
    MiddleDigits(data);
    LastDigits(data);
    assert data[0..] == data && data[9..] == [];
    CrcIsBytewise(data, 8);
  }
}
