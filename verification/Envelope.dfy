/**
 Signed envelopes, lib/envelope.js: the eight signed fields, their canonical bytes, signing and verifying,
 re-signing, and the encrypted ntfy form. HMAC-SHA-256, AES-256-GCM and UTF-8 decoding are parameters.
 */
module Envelope {
  import opened Basics
  import opened CanonicalJson
  import opened JsonOrder
  import opened Utf8
  import Decimal
  import JsonParse
  import opened JsonSame

  type Fields = seq<Field>
  type Key = seq<Byte>

  const BODY: Text := [0x62, 0x6f, 0x64, 0x79]
  const FROM: Text := [0x66, 0x72, 0x6f, 0x6d]
  const NONCE: Text := [0x6e, 0x6f, 0x6e, 0x63, 0x65]
  const SENDER_SEQ: Text := [0x73, 0x65, 0x6e, 0x64, 0x65, 0x72, 0x5f, 0x73, 0x65, 0x71]
  const TS: Text := [0x74, 0x73]
  const TYPE: Text := [0x74, 0x79, 0x70, 0x65]
  const V: Text := [0x76]
  const WS: Text := [0x77, 0x73]
  const SIG: Text := [0x73, 0x69, 0x67]
  const ALG: Text := [0x61, 0x6c, 0x67]
  const ENC: Text := [0x65, 0x6e, 0x63]
  const CT: Text := [0x63, 0x74]
  const HS256: Text := [0x48, 0x53, 0x32, 0x35, 0x36]
  const A256GCM: Text := [0x41, 0x32, 0x35, 0x36, 0x47, 0x43, 0x4d]

  const SIGNED_FIELDS: seq<Text> := [BODY, FROM, NONCE, SENDER_SEQ, TS, TYPE, V, WS]
  const NTFY_CLEAR_FIELDS: seq<Text> := [SENDER_SEQ, TS, V, WS]
  const NTFY_HIDDEN_FIELDS: seq<Text> := [BODY, FROM, NONCE, TYPE]

  // obj[key]: undefined when the object has no such key.
  function Get(fs: Fields, key: Text): Json {
    if fs == [] then Undefined
    else if fs[0].key == key then fs[0].value
    else Get(fs[1..], key)
  }

  function Pick(fs: Fields, names: seq<Text>): Fields {
    if names == [] then []
    else
      var rest := Pick(fs, names[1..]);
      if Get(fs, names[0]) == Undefined then rest else [Field(names[0], Get(fs, names[0]))] + rest
  }

  // The UTF-8 bytes of the canonical text of the named fields.
  function Bytes(fs: Fields, names: seq<Text>): Result<seq<Byte>, CanonicalJson.Error> {
    match Canon(Obj(Pick(fs, names)))
    case Ok(t) => Ok(Encode(t))
    case Err(e) => Err(e)
  }

  function CanonicalBytes(fs: Fields): Result<seq<Byte>, CanonicalJson.Error> { Bytes(fs, SIGNED_FIELDS) }

  // --------------------------------------------------- what the bytes stand for ---

  ghost predicate Ascending(names: seq<Text>) {
    (forall i :: 0 <= i < |names| ==> GoodKey(names[i])) &&
    (forall i, j :: 0 <= i < j < |names| ==> KeyLess(names[i], names[j]))
  }

  // The two objects are read alike on the named fields.
  ghost predicate SameFields(a: Fields, b: Fields, names: seq<Text>) {
    forall i :: 0 <= i < |names| ==> Norm(Get(a, names[i])) == Norm(Get(b, names[i]))
  }

  // They agree on the named fields, up to the order of keys inside them, at every depth.
  ghost predicate AgreeOn(a: Fields, b: Fields, names: seq<Text>) {
    forall i :: 0 <= i < |names| ==> Same(Get(a, names[i]), Get(b, names[i]))
  }

  lemma {:induction false} GetIsKeyed(fs: Fields, key: Text)
    requires forall i :: 0 <= i < |fs| ==> Keyed(fs[i].value)
    ensures Keyed(Get(fs, key))
  {
    if fs != [] && fs[0].key != key {
      assert forall i :: 0 <= i < |fs| - 1 ==> fs[1..][i] == fs[i + 1];
      GetIsKeyed(fs[1..], key);
    }
  }

  // The two say the same: reading looks past the order of keys, and past nothing else.
  lemma SameFieldsAgree(a: Fields, b: Fields, names: seq<Text>)
    requires Keyed(Obj(a)) && Keyed(Obj(b))
    ensures SameFields(a, b, names) <==> AgreeOn(a, b, names)
  {
    forall i | 0 <= i < |names|
      ensures Norm(Get(a, names[i])) == Norm(Get(b, names[i])) <==> Same(Get(a, names[i]), Get(b, names[i]))
    {
      assert Obj(a).fields == a && Obj(b).fields == b;
      GetIsKeyed(a, names[i]);
      GetIsKeyed(b, names[i]);
      CanonIgnoresInsertionOrder(Get(a, names[i]), Get(b, names[i]));
    }
  }

  lemma {:induction false} PickIsOrdered(fs: Fields, names: seq<Text>)
    requires Ascending(names)
    ensures Ordered(Pick(fs, names))
    ensures forall f :: f in Pick(fs, names) ==> f.key in names && f.value != Undefined
  {
    if names != [] {
      var rest := Pick(fs, names[1..]);
      PickIsOrdered(fs, names[1..]);
      forall i | 0 <= i < |rest| ensures !KeyLess(rest[i].key, names[0]) {
        assert rest[i] in rest && rest[i].key in names[1..];
        KeyLessAsymmetric(names[0], rest[i].key);
      }
    }
  }

  lemma PickIsSorted(fs: Fields, names: seq<Text>)
    requires Ascending(names)
    ensures SortFields(Pick(fs, names)) == Pick(fs, names)
    ensures forall i :: 0 <= i < |Pick(fs, names)| ==> GoodKey(Pick(fs, names)[i].key)
  {
    PickIsOrdered(fs, names);
    var picked := Pick(fs, names);
    forall i | 0 <= i < |picked| ensures picked[i].value != Undefined && GoodKey(picked[i].key) {
      assert picked[i] in picked;
    }
    OrderedIsFixed(picked);
  }

  function NormalPick(fs: Fields, names: seq<Text>): Fields {
    if names == [] then []
    else
      var rest := NormalPick(fs, names[1..]);
      if Get(fs, names[0]) == Undefined then rest else [Field(names[0], Norm(Get(fs, names[0])))] + rest
  }

  lemma {:induction false} NormOfPick(fs: Fields, names: seq<Text>, w: Json)
    requires forall f :: f in Pick(fs, names) ==> f.value < w
    ensures NormFields(w, Pick(fs, names)) == NormalPick(fs, names)
  {
    if names != [] {
      var rest := Pick(fs, names[1..]);
      assert forall f :: f in rest ==> f in Pick(fs, names);
      NormOfPick(fs, names[1..], w);
      if Get(fs, names[0]) != Undefined { assert Pick(fs, names)[1..] == rest; }
    }
  }

  lemma NormOfPicked(fs: Fields, names: seq<Text>)
    requires Ascending(names)
    ensures Norm(Obj(Pick(fs, names))) == Obj(NormalPick(fs, names))
  {
    PickIsSorted(fs, names);
    NormOfPick(fs, names, Obj(Pick(fs, names)));
  }

  lemma {:induction false} NormalPickKeys(fs: Fields, names: seq<Text>, key: Text)
    requires key !in names
    ensures forall i :: 0 <= i < |NormalPick(fs, names)| ==> NormalPick(fs, names)[i].key != key
  {
    if names != [] { NormalPickKeys(fs, names[1..], key); }
  }

  lemma {:induction false} AscendingIsDistinct(names: seq<Text>)
    requires Ascending(names) && names != []
    ensures names[0] !in names[1..] && Ascending(names[1..])
  {
    if names[0] in names[1..] {
      var i :| 0 <= i < |names| - 1 && names[1..][i] == names[0];
      assert KeyLess(names[0], names[i + 1]);
      IrreflexiveKey(names[0]);
    }
  }

  lemma {:induction false} NormalPickDecides(a: Fields, b: Fields, names: seq<Text>)
    requires Ascending(names)
    ensures NormalPick(a, names) == NormalPick(b, names) <==> SameFields(a, b, names)
  {
    if names != [] {
      var n, rest := names[0], names[1..];
      AscendingIsDistinct(names);
      NormalPickDecides(a, b, rest);
      NormalPickKeys(a, rest, n);
      NormalPickKeys(b, rest, n);
      assert SameFields(a, b, names) <==> Norm(Get(a, n)) == Norm(Get(b, n)) && SameFields(a, b, rest);
      var x, y := NormalPick(a, names), NormalPick(b, names);
      if Get(a, n) != Undefined && Get(b, n) != Undefined {
        assert x[1..] == NormalPick(a, rest) && y[1..] == NormalPick(b, rest);
      } else if Get(a, n) != Undefined {
        assert x[0].key == n && Norm(Get(a, n)) != Norm(Get(b, n));
      } else if Get(b, n) != Undefined {
        assert y[0].key == n && Norm(Get(a, n)) != Norm(Get(b, n));
      }
    }
  }

  // Two objects have the same bytes exactly when they agree on every named field.
  lemma BytesStandForFields(a: Fields, b: Fields, names: seq<Text>)
    requires Ascending(names) && Bytes(a, names).Ok? && Bytes(b, names).Ok?
    ensures Bytes(a, names) == Bytes(b, names) <==> SameFields(a, b, names)
  {
    var x, y := Obj(Pick(a, names)), Obj(Pick(b, names));
    NormOfPicked(a, names);
    NormOfPicked(b, names);
    NormalPickDecides(a, b, names);
    CanonWellFormed(x);
    CanonWellFormed(y);
    if Bytes(a, names) == Bytes(b, names) {
      EncodeIsInjective(Canon(x).value, Canon(y).value);
      JsonParse.CanonIsInjective(x, y);
    }
    if SameFields(a, b, names) {
      CanonOfNorm(x);
      CanonOfNorm(y);
    }
  }

  // Reordering keys anywhere inside the named fields, or at the top, leaves the bytes as they are, and so does it
  // the error when there are none.
  lemma ReorderingKeepsBytes(a: Fields, b: Fields, names: seq<Text>)
    requires Ascending(names) && Keyed(Obj(a)) && Keyed(Obj(b))
    ensures AgreeOn(a, b, names) ==> Bytes(a, names) == Bytes(b, names)
    ensures Bytes(a, names).Ok? && Bytes(a, names) == Bytes(b, names) ==> AgreeOn(a, b, names)
  {
    SameFieldsAgree(a, b, names);
    NormOfPicked(a, names);
    NormOfPicked(b, names);
    NormalPickDecides(a, b, names);
    if SameFields(a, b, names) { NormTellsText(Obj(Pick(a, names)), Obj(Pick(b, names))); }
    if Bytes(a, names).Ok? && Bytes(b, names).Ok? { BytesStandForFields(a, b, names); }
  }

  lemma SignedFieldsAscend()
    ensures Ascending(SIGNED_FIELDS) && Ascending(NTFY_CLEAR_FIELDS) && Ascending(NTFY_HIDDEN_FIELDS)
  {
    var s := SIGNED_FIELDS;
    assert forall i :: 0 <= i < |s| ==> GoodKey(s[i]);
    assert KeyLess(SENDER_SEQ, TS) && KeyLess(TS, TYPE) by {
      assert KeyLess(TS[1..], TYPE[1..]);
    }
    assert NTFY_CLEAR_FIELDS == [s[3], s[4], s[6], s[7]];
    assert NTFY_HIDDEN_FIELDS == [s[0], s[1], s[2], s[5]];
  }

  // The signature input: the same bytes exactly when all eight signed fields agree.
  lemma CanonicalBytesStandForTheSignedFields(a: Fields, b: Fields)
    requires CanonicalBytes(a).Ok? && CanonicalBytes(b).Ok?
    ensures CanonicalBytes(a) == CanonicalBytes(b) <==> SameFields(a, b, SIGNED_FIELDS)
  {
    SignedFieldsAscend();
    BytesStandForFields(a, b, SIGNED_FIELDS);
  }

  // In other words: exactly when they are the same values, whatever the order of keys in the envelope, in its
  // sender or in its body.
  lemma SignatureInputIgnoresKeyOrder(a: Fields, b: Fields)
    requires Keyed(Obj(a)) && Keyed(Obj(b)) && CanonicalBytes(a).Ok?
    ensures CanonicalBytes(a) == CanonicalBytes(b) <==> AgreeOn(a, b, SIGNED_FIELDS)
  {
    SignedFieldsAscend();
    ReorderingKeepsBytes(a, b, SIGNED_FIELDS);
  }

  // ---------------------------------------------------------------- signing ---

  // What the platform's cryptography and decoding contribute, as functions.
  datatype Platform = Platform(
    mac: (Key, seq<Byte>) -> Text,                             // HMAC-SHA-256, in hex
    seal: (Key, seq<Byte>, seq<Byte>, seq<Byte>) -> Text,      // base64url(iv || AES-256-GCM(iv, aad, text) || tag)
    open: (Key, seq<Byte>, Text) -> Option<seq<Byte>>,         // (aad, ct); None when the call throws
    decode: seq<Byte> -> Text)                                 // Buffer#toString('utf8')

  // Sixty-four lower-case hexadecimal digits.
  predicate IsSig(t: Text) {
    |t| == 64 && forall i :: 0 <= i < |t| ==> Decimal.IsDigit(t[i]) || 0x61 <= t[i] <= 0x66
  }

  function Sign(p: Platform, fs: Fields, k: Key): Result<Text, CanonicalJson.Error> {
    match CanonicalBytes(fs)
    case Ok(bytes) => Ok(p.mac(k, bytes))
    case Err(e) => Err(e)
  }

  // Fails closed: what does not print never verifies.
  predicate Verify(p: Platform, fs: Fields, k: Key) {
    var got := Get(fs, SIG);
    got.Str? && IsSig(got.s) && Sign(p, fs, k) == Ok(got.s)
  }

  // Which fields are signed, and how the wire form splits them.
  lemma FieldNames()
    ensures |SIGNED_FIELDS| == 8 && SIGNED_FIELDS == [BODY, FROM, NONCE, SENDER_SEQ, TS, TYPE, V, WS]
    ensures NTFY_HIDDEN_FIELDS == [BODY, FROM, NONCE, TYPE] && NTFY_CLEAR_FIELDS == [SENDER_SEQ, TS, V, WS]
    ensures Spells("body", BODY) && Spells("from", FROM) && Spells("nonce", NONCE) && Spells("sender_seq", SENDER_SEQ)
    ensures Spells("ts", TS) && Spells("type", TYPE) && Spells("v", V) && Spells("ws", WS)
    ensures Spells("sig", SIG) && Spells("alg", ALG) && Spells("enc", ENC) && Spells("ct", CT)
    ensures Spells("HS256", HS256) && Spells("A256GCM", A256GCM)
  {
  }

  predicate IsHex64(t: Text) {
    |t| == 64 && forall i :: 0 <= i < 64 ==> 0x30 <= t[i] <= 0x39 || 0x61 <= t[i] <= 0x66
  }

  // An envelope verifies only with a signature of 64 lower-case hexadecimal digits, and with a mac that gives such
  // digits exactly when the signature is the mac of the signed fields' canonical bytes.
  lemma VerifiesExactlyWhen(p: Platform, fs: Fields, k: Key)
    ensures Verify(p, fs, k) ==> Get(fs, SIG).Str? && IsHex64(Get(fs, SIG).s)
    ensures (forall bytes :: IsHex64(p.mac(k, bytes))) ==>
      (Verify(p, fs, k) <==>
       Canon(Obj(Pick(fs, SIGNED_FIELDS))).Ok? &&
       Get(fs, SIG) == Str(p.mac(k, Encode(Canon(Obj(Pick(fs, SIGNED_FIELDS))).value))))
  {
    var canon := Canon(Obj(Pick(fs, SIGNED_FIELDS)));
    if canon.Ok? && (forall bytes :: IsHex64(p.mac(k, bytes))) { assert IsHex64(p.mac(k, Encode(canon.value))); }
  }

  ghost predicate Collides(p: Platform, k: Key, x: seq<Byte>, y: seq<Byte>) {
    x != y && p.mac(k, x) == p.mac(k, y)
  }

  // An altered envelope that keeps its signature verifies exactly when no signed field changed, unless
  // somebody found a collision.
  lemma AlteredEnvelopesAreRefused(p: Platform, a: Fields, b: Fields, k: Key)
    requires Verify(p, a, k) && Get(b, SIG) == Get(a, SIG) && CanonicalBytes(b).Ok?
    ensures SameFields(a, b, SIGNED_FIELDS) ==> Verify(p, b, k)
    ensures Verify(p, b, k) ==>
      SameFields(a, b, SIGNED_FIELDS) || Collides(p, k, CanonicalBytes(a).value, CanonicalBytes(b).value)
  {
    CanonicalBytesStandForTheSignedFields(a, b);
  }

  // -------------------------------------------------------------- re-signing ---

  function Remove(fs: Fields, key: Text): Fields {
    if fs == [] then []
    else if fs[0].key == key then Remove(fs[1..], key)
    else [fs[0]] + Remove(fs[1..], key)
  }

  function Set(fs: Fields, key: Text, v: Json): Fields {
    if fs == [] then [Field(key, v)]
    else if fs[0].key == key then [Field(key, v)] + fs[1..]
    else [fs[0]] + Set(fs[1..], key, v)
  }

  lemma {:induction false} GetOfSet(fs: Fields, key: Text, v: Json, other: Text)
    ensures Get(Set(fs, key, v), other) == if other == key then v else Get(fs, other)
  {
    if fs != [] && fs[0].key != key {
      GetOfSet(fs[1..], key, v, other);
      assert Set(fs, key, v)[1..] == Set(fs[1..], key, v);
    } else if fs != [] {
      assert Set(fs, key, v)[1..] == fs[1..];
    }
  }

  lemma {:induction false} GetOfRemove(fs: Fields, key: Text, other: Text)
    ensures Get(Remove(fs, key), other) == if other == key then Undefined else Get(fs, other)
  {
    if fs != [] {
      GetOfRemove(fs[1..], key, other);
      if fs[0].key != key { assert Remove(fs, key)[1..] == Remove(fs[1..], key); }
    }
  }

  // A queued envelope sent now: current time, new nonce and sequence number, no old signature or ciphertext.
  function Resign(p: Platform, fs: Fields, k: Key, ts: int, nonce: Text, senderSeq: int)
    : Result<Fields, CanonicalJson.Error>
  {
    var renewed := Set(Set(Set(fs, TS, Num(ts)), NONCE, Str(nonce)), SENDER_SEQ, Num(senderSeq));
    var bare := Remove(Remove(Remove(renewed, SIG), ENC), CT);
    match Sign(p, bare, k)
    case Ok(sig) => Ok(Set(bare, SIG, Str(sig)))
    case Err(e) => Err(e)
  }

  function ResignedValue(fs: Fields, key: Text, ts: int, nonce: Text, senderSeq: int): Json {
    if key == SENDER_SEQ then Num(senderSeq)
    else if key == NONCE then Str(nonce)
    else if key == TS then Num(ts)
    else if key == ENC || key == CT then Undefined
    else Get(fs, key)
  }

  lemma ResignedFields(p: Platform, fs: Fields, k: Key, ts: int, nonce: Text, senderSeq: int, key: Text)
    requires Resign(p, fs, k, ts, nonce, senderSeq).Ok? && key != SIG
    ensures Get(Resign(p, fs, k, ts, nonce, senderSeq).value, key) == ResignedValue(fs, key, ts, nonce, senderSeq)
  {
    var a := Set(fs, TS, Num(ts));
    var b := Set(a, NONCE, Str(nonce));
    var renewed := Set(b, SENDER_SEQ, Num(senderSeq));
    var bare := Remove(Remove(Remove(renewed, SIG), ENC), CT);
    GetOfSet(fs, TS, Num(ts), key);
    GetOfSet(a, NONCE, Str(nonce), key);
    GetOfSet(b, SENDER_SEQ, Num(senderSeq), key);
    GetOfRemove(renewed, SIG, key);
    GetOfRemove(Remove(renewed, SIG), ENC, key);
    GetOfRemove(Remove(Remove(renewed, SIG), ENC), CT, key);
    GetOfSet(bare, SIG, Str(Sign(p, bare, k).value), key);
  }

  lemma {:induction false} PickDependsOnNames(a: Fields, b: Fields, names: seq<Text>)
    requires forall i :: 0 <= i < |names| ==> Get(a, names[i]) == Get(b, names[i])
    ensures Pick(a, names) == Pick(b, names)
  {
    if names != [] { PickDependsOnNames(a, b, names[1..]); }
  }

  lemma SigningKeepsBytes(fs: Fields, sig: Json)
    ensures CanonicalBytes(Set(fs, SIG, sig)) == CanonicalBytes(fs)
  {
    var names := SIGNED_FIELDS;
    assert forall i :: 0 <= i < |names| ==> names[i] != SIG;
    forall i | 0 <= i < |names| ensures Get(Set(fs, SIG, sig), names[i]) == Get(fs, names[i]) {
      GetOfSet(fs, SIG, sig, names[i]);
    }
    PickDependsOnNames(Set(fs, SIG, sig), fs, names);
  }

  // The re-signed envelope verifies, whatever signature the queued one carried.
  lemma ResignedVerifies(p: Platform, fs: Fields, k: Key, ts: int, nonce: Text, senderSeq: int)
    requires forall bytes :: IsSig(p.mac(k, bytes))
    requires Resign(p, fs, k, ts, nonce, senderSeq).Ok?
    ensures Verify(p, Resign(p, fs, k, ts, nonce, senderSeq).value, k)
  {
    var renewed := Set(Set(Set(fs, TS, Num(ts)), NONCE, Str(nonce)), SENDER_SEQ, Num(senderSeq));
    var bare := Remove(Remove(Remove(renewed, SIG), ENC), CT);
    var sig := Str(Sign(p, bare, k).value);
    SigningKeepsBytes(bare, sig);
    GetOfSet(bare, SIG, sig, SIG);
  }
}
