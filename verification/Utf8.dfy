/** Buffer.from(s, 'utf8'): UTF-8 as in section 3 of RFC 3629, lone surrogates replaced by U+FFFD. */
module Utf8 {
  import opened Basics

  type Byte = b: int | 0 <= b < 0x100

  // No lone surrogate anywhere.
  predicate WellFormed(s: Text) {
    s == [] ||
    (if HighSurrogate(s[0]) then |s| > 1 && LowSurrogate(s[1]) && WellFormed(s[2..])
     else !LowSurrogate(s[0]) && WellFormed(s[1..]))
  }

  predicate StartsWithPair(s: Text) { |s| > 1 && HighSurrogate(s[0]) && LowSurrogate(s[1]) }

  // The code point of a surrogate pair, in four bytes.
  function EncodePair(h: Unit, l: Unit): seq<Byte>
    requires HighSurrogate(h) && LowSurrogate(l)
  {
    var c := PairPoint(h, l);
    [0xf0 + c / 0x4_0000, 0x80 + c / 0x1000 % 0x40, 0x80 + c / 0x40 % 0x40, 0x80 + c % 0x40]
  }

  function EncodeUnit(u: Unit): seq<Byte> {
    if u < 0x80 then [u]
    else if u < 0x800 then [0xc0 + u / 0x40, 0x80 + u % 0x40]
    else if HighSurrogate(u) || LowSurrogate(u) then [0xef, 0xbf, 0xbd]
    else [0xe0 + u / 0x1000, 0x80 + u / 0x40 % 0x40, 0x80 + u % 0x40]
  }

  function Head(s: Text): seq<Byte>
    requires s != []
  {
    if StartsWithPair(s) then EncodePair(s[0], s[1]) else EncodeUnit(s[0])
  }

  function Tail(s: Text): Text
    requires s != []
  {
    if StartsWithPair(s) then s[2..] else s[1..]
  }

  function Encode(s: Text): seq<Byte> {
    if s == [] then [] else Head(s) + Encode(Tail(s))
  }

  function PairPoint(h: Unit, l: Unit): nat
    requires HighSurrogate(h) && LowSurrogate(l)
  {
    0x1_0000 + (h - 0xd800) * 0x400 + (l - 0xdc00)
  }

  // ------------------------------------------------------------------- a decoder ---

  predicate Trail(b: Byte) { 0x80 <= b < 0xc0 }

  function Off(b: int, base: int): int { b - base }

  // The code point at the head of b and how many bytes it takes, as the table of section 3 of RFC 3629 reads them:
  // in the shortest form only, and no surrogates.
  function Point(b: seq<Byte>): Option<(nat, nat)> {
    if b == [] then None
    else if b[0] < 0x80 then Some((b[0], 1))
    else if 0xc0 <= b[0] < 0xe0 && |b| > 1 && Trail(b[1]) then
      var c := Off(b[0], 0xc0) * 0x40 + Off(b[1], 0x80);
      if c < 0x80 then None else Some((c, 2))
    else if 0xe0 <= b[0] < 0xf0 && |b| > 2 && Trail(b[1]) && Trail(b[2]) then
      var c := Off(b[0], 0xe0) * 0x1000 + Off(b[1], 0x80) * 0x40 + Off(b[2], 0x80);
      if c < 0x800 || 0xd800 <= c < 0xe000 then None else Some((c, 3))
    else if 0xf0 <= b[0] < 0xf8 && |b| > 3 && Trail(b[1]) && Trail(b[2]) && Trail(b[3]) then
      var c := Off(b[0], 0xf0) * 0x4_0000 + Off(b[1], 0x80) * 0x1000 + Off(b[2], 0x80) * 0x40 + Off(b[3], 0x80);
      if c < 0x1_0000 || c > 0x10_ffff then None else Some((c, 4))
    else None
  }

  // A code point in UTF-16, as section 2.1 of RFC 2781 has it.
  function Utf16(c: nat): Text
    requires c <= 0x10_ffff
  {
    if c < 0x1_0000 then [c] else [0xd800 + (c - 0x1_0000) / 0x400, 0xdc00 + (c - 0x1_0000) % 0x400]
  }

  function Decode(b: seq<Byte>): Option<Text>
    decreases |b|
  {
    if b == [] then Some([])
    else
      match Point(b)
      case None => None
      case Some((c, n)) =>
        if c > 0x10_ffff || !(0 < n <= |b|) then None
        else
          match Decode(b[n..])
          case None => None
          case Some(t) => Some(Utf16(c) + t)
  }

  // Every lone surrogate replaced.
  function Scrubbed(s: Text): Text {
    if s == [] then []
    else (if StartsWithPair(s) then [s[0], s[1]]
          else if HighSurrogate(s[0]) || LowSurrogate(s[0]) then [0xfffd] else [s[0]]) + Scrubbed(Tail(s))
  }

  lemma PairReads(h: Unit, l: Unit, rest: seq<Byte>)
    requires HighSurrogate(h) && LowSurrogate(l)
    ensures Point(EncodePair(h, l) + rest) == Some((PairPoint(h, l), 4))
  {
    var b := EncodePair(h, l);
    assert (b + rest)[0] == b[0] && (b + rest)[1] == b[1] && (b + rest)[2] == b[2] && (b + rest)[3] == b[3];
    Places(PairPoint(h, l));
  }

  lemma PairPointReads(h: Unit, l: Unit)
    requires HighSurrogate(h) && LowSurrogate(l)
    ensures Utf16(PairPoint(h, l)) == [h, l]
  {
  }

  lemma Places(c: nat)
    ensures c == c / 0x4_0000 * 0x4_0000 + c / 0x1000 % 0x40 * 0x1000 + c / 0x40 % 0x40 * 0x40 + c % 0x40
  {
    var c1, c2 := c / 0x40, c / 0x1000;
    assert c2 == c2 / 0x40 * 0x40 + c2 % 0x40 && c2 / 0x40 == c / 0x4_0000;
    assert c1 == c1 / 0x40 * 0x40 + c1 % 0x40 && c1 / 0x40 == c2;
  }

  lemma UnitReads(u: Unit, rest: seq<Byte>)
    ensures var c := if HighSurrogate(u) || LowSurrogate(u) then 0xfffd else u;
      Point(EncodeUnit(u) + rest) == Some((c, |EncodeUnit(u)|))
  {
    var b := EncodeUnit(u);
    assert forall i :: 0 <= i < |b| ==> (b + rest)[i] == b[i];
    if u >= 0x800 { Places(u); }
  }

  // The bytes of any text read back as the text, with its lone surrogates replaced; so those of a well-formed text
  // as the text itself.
  lemma {:induction false} DecodeInvertsEncode(s: Text)
    ensures Decode(Encode(s)) == Some(Scrubbed(s)) && (WellFormed(s) ==> Scrubbed(s) == s)
    decreases |s|
  {
    if s != [] {
      var head, rest := Head(s), Encode(Tail(s));
      DecodeInvertsEncode(Tail(s));
      assert (head + rest)[|head|..] == rest;
      if StartsWithPair(s) {
        PairReads(s[0], s[1], rest);
        PairPointReads(s[0], s[1]);
        assert WellFormed(s) ==> s == [s[0], s[1]] + s[2..];
      } else {
        UnitReads(s[0], rest);
        assert s == [s[0]] + s[1..];
      }
    }
  }

  // Well-formed texts with the same bytes are the same text.
  lemma EncodeIsInjective(a: Text, b: Text)
    requires WellFormed(a) && WellFormed(b) && Encode(a) == Encode(b)
    ensures a == b
  {
    DecodeInvertsEncode(a);
    DecodeInvertsEncode(b);
  }
}
