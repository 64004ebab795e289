/**
 The invite blob, lib/invite.js: hsi1_ and the base64url of a canonical JSON object that carries its own
 checksum. SHA-256, base64url, UTF-8 decoding and String#trim are parameters.
 */
module Invite {
  import opened Basics
  import opened CanonicalJson
  import opened Envelope
  import opened JsonOrder
  import opened NtfyWire
  import Decimal
  import JsonParse
  import JsonSame
  import Utf8

  type Bytes = seq<Utf8.Byte>

  const PREFIX: Text := [0x68, 0x73, 0x69, 0x31, 0x5f]
  const P: Text := [0x70]
  const T: Text := [0x74]
  const E: Text := [0x65]
  const N: Text := [0x6e]
  const LOC: Text := [0x6c, 0x6f, 0x63]
  const S: Text := [0x73]
  const TOK: Text := [0x74, 0x6f, 0x6b]
  const TOPIC: Text := [0x74, 0x6f, 0x70, 0x69, 0x63]
  const C: Text := [0x63]
  const RELAY: Text := [0x72, 0x65, 0x6c, 0x61, 0x79]
  const NTFY: Text := [0x6e, 0x74, 0x66, 0x79]
  const REPO: Text := [0x72, 0x65, 0x70, 0x6f]
  const INLINE: Text := [0x69, 0x6e, 0x6c, 0x69, 0x6e, 0x65]
  const MAX_NAME := 64

  // What the platform contributes. digest gives the first eight hex digits of SHA-256.
  datatype Codec = Codec(digest: Bytes -> Text, toBase64: Bytes -> Text, fromBase64: Text -> Bytes,
                         decodeUtf8: Bytes -> Text, trim: Text -> Text)

  predicate IsHex(t: Text, n: nat) {
    |t| == n && forall i :: 0 <= i < |t| ==> Decimal.IsDigit(t[i]) || 0x61 <= t[i] <= 0x66
  }

  predicate Base64Unit(u: Unit) {
    0x41 <= u <= 0x5a || 0x61 <= u <= 0x7a || Decimal.IsDigit(u) || u == 0x2d || u == 0x5f
  }

  // Letters, digits, underscores and hyphens.
  predicate IsBase64(t: Text) { t != [] && forall i :: 0 <= i < |t| ==> Base64Unit(t[i]) }

  ghost predicate Lawful(k: Codec) {
    (forall b :: IsHex(k.digest(b), 8)) && (forall b :: k.fromBase64(k.toBase64(b)) == b) &&
    (forall b :: b != [] ==> IsBase64(k.toBase64(b))) && (forall t :: IsBase64(t) ==> k.trim(t) == t) &&
    (forall t :: Utf8.WellFormed(t) ==> k.decodeUtf8(Utf8.Encode(t)) == t)
  }

  datatype InviteError =
    | BadProtocol | BadTransport | BadEndpoint | BadWs | BadName | BadLoc | BadSecret | BadToken | BadTopic
    | BadChecksum | ChecksumMismatch | BadPrefix | BadEncoding | BadJson | NotPrintable

  // ---------------------------------------------------------------------- the fields ---

  // What the caller passes, every field or alias undefined when absent.
  datatype Input = Input(t: Json, transport: Json, e: Json, endpoint: Json, ws: Json, n: Json, name: Json, loc: Json,
                         s: Json, secret: Json, tok: Json, enrollmentToken: Json, topic: Json)

  function Or(a: Json, b: Json): Json { if Falsy(a) then b else a }

  function Optional(key: Text, v: Json): Fields { if v == Undefined then [] else [Field(key, v)] }

  // The object encode fills in, field by field.
  function Build(i: Input): Fields {
    var t, loc := Or(i.t, i.transport), Or(i.loc, Str(REPO));
    var n := if i.n == Undefined then Or(i.name, Str([])) else i.n;
    var s := if i.s != Undefined then i.s else if loc == Str(INLINE) then i.secret else Undefined;
    var tok := if i.tok != Undefined then i.tok
               else if loc == Str(INLINE) && t == Str(RELAY) then i.enrollmentToken else Undefined;
    [Field(P, Num(1)), Field(T, t), Field(E, Or(i.e, i.endpoint)), Field(WS, i.ws), Field(N, n), Field(LOC, loc)] +
    (Optional(S, s) + (Optional(TOK, tok) + Optional(TOPIC, i.topic)))
  }

  // Every present field except c.
  function WithoutC(fs: Fields): Fields {
    if fs == [] then []
    else (if fs[0].key != C && fs[0].value != Undefined then [fs[0]] else []) + WithoutC(fs[1..])
  }

  function ChecksumOf(k: Codec, fs: Fields): Result<Text, InviteError> {
    match Canon(Obj(WithoutC(fs)))
    case Ok(t) => Ok(k.digest(Utf8.Encode(t)))
    case Err(_) => Err(NotPrintable)
  }

  predicate NonEmpty(v: Json) { v.Str? && v.s != [] }

  function ShapeError(fs: Fields): Option<InviteError> {
    var t, loc := Get(fs, T), Get(fs, LOC);
    var inline := loc == Str(INLINE);
    if Get(fs, P) != Num(1) then Some(BadProtocol)
    else if t != Str(RELAY) && t != Str(NTFY) then Some(BadTransport)
    else if !NonEmpty(Get(fs, E)) then Some(BadEndpoint)
    else if !(Get(fs, WS).Str? && IsHex(Get(fs, WS).s, 32)) then Some(BadWs)
    else if !Get(fs, N).Str? || |Get(fs, N).s| > MAX_NAME then Some(BadName)
    else if loc != Str(REPO) && loc != Str(INLINE) then Some(BadLoc)
    else if inline && !NonEmpty(Get(fs, S)) then Some(BadSecret)
    else if !inline && Get(fs, S) != Undefined then Some(BadSecret)
    else if t == Str(RELAY) && inline && !NonEmpty(Get(fs, TOK)) then Some(BadToken)
    else if !(t == Str(RELAY) && inline) && Get(fs, TOK) != Undefined then Some(BadToken)
    else if t == Str(NTFY) && inline && !(Get(fs, TOPIC).Str? && IsHex(Get(fs, TOPIC).s, 32)) then Some(BadTopic)
    else if !(t == Str(NTFY) && inline) && Get(fs, TOPIC) != Undefined then Some(BadTopic)
    else None
  }

  function ChecksumError(k: Codec, fs: Fields): Option<InviteError> {
    var c := Get(fs, C);
    if !c.Str? || !IsHex(c.s, 8) then Some(BadChecksum)
    else
      match ChecksumOf(k, fs)
      case Err(e) => Some(e)
      case Ok(want) => if want != c.s then Some(ChecksumMismatch) else None
  }

  // ------------------------------------------------------------------- encode, decode ---

  // The blob of a filled-in object.
  function Sealed(k: Codec, fs: Fields): Result<Text, InviteError> {
    if ShapeError(fs).Some? then Err(ShapeError(fs).value)
    else
      match ChecksumOf(k, fs)
      case Err(e) => Err(e)
      case Ok(c) =>
        match Canon(Obj(fs + [Field(C, Str(c))]))
        case Err(_) => Err(NotPrintable)
        case Ok(t) => Ok(PREFIX + k.toBase64(Utf8.Encode(t)))
  }

  function Encode(k: Codec, i: Input): Result<Text, InviteError> { Sealed(k, Build(i)) }

  function Decode(k: Codec, blob: Text): Result<Fields, InviteError> {
    var trimmed := k.trim(blob);
    if !(PREFIX <= trimmed) then Err(BadPrefix)
    else
      var base64 := trimmed[|PREFIX|..];
      if !IsBase64(base64) then Err(BadEncoding)
      else
        match JsonParse.Parse(k.decodeUtf8(k.fromBase64(base64)))
        case None => Err(BadJson)
        case Some(v) =>
          if !v.Obj? then Err(BadJson)
          else if ShapeError(v.fields).Some? then Err(ShapeError(v.fields).value)
          else if ChecksumError(k, v.fields).Some? then Err(ChecksumError(k, v.fields).value)
          else Ok(v.fields)
  }

  // ------------------------------------------------------------ sorting keeps fields ---

  // Every key distinct, and every value one the printer and parser leave as it is.
  ghost predicate Plain(fs: Fields) {
    DistinctKeys(fs) && forall i :: 0 <= i < |fs| ==> fs[i].value == Undefined || fs[i].value.Str? || fs[i].value.Num?
  }

  lemma {:induction false} InsertReads(f: Field, fs: Fields, key: Text)
    requires forall i :: 0 <= i < |fs| ==> fs[i].key != f.key
    ensures Get(InsertField(f, fs), key) == if key == f.key then f.value else Get(fs, key)
  {
    if fs != [] && KeyLess(fs[0].key, f.key) {
      InsertReads(f, fs[1..], key);
      assert InsertField(f, fs)[1..] == InsertField(f, fs[1..]);
    } else {
      assert InsertField(f, fs)[1..] == fs;
    }
  }

  lemma SortedKeys(fs: Fields, key: Text)
    requires forall i :: 0 <= i < |fs| ==> fs[i].key != key
    ensures forall i :: 0 <= i < |SortFields(fs)| ==> SortFields(fs)[i].key != key
  {
    var sorted := SortFields(fs);
    forall i | 0 <= i < |sorted| ensures sorted[i].key != key {
      assert sorted[i] in sorted && sorted[i] in fs;
    }
  }

  lemma {:induction false} SortReads(fs: Fields, key: Text)
    requires DistinctKeys(fs)
    ensures Get(SortFields(fs), key) == Get(fs, key)
  {
    if fs != [] {
      SortReads(fs[1..], key);
      SortedKeys(fs[1..], fs[0].key);
      if fs[0].value == Undefined {
        if key == fs[0].key { NoSuchKey(SortFields(fs[1..]), key); }
      } else {
        InsertReads(fs[0], SortFields(fs[1..]), key);
      }
    }
  }

  // The smallest key comes first wherever it was inserted.
  lemma {:induction false} SmallestFirst(fs: Fields, c: Field)
    requires c.value != Undefined && forall i :: 0 <= i < |fs| ==> KeyLess(c.key, fs[i].key)
    ensures SortFields(fs + [c]) == [c] + SortFields(fs)
  {
    if fs == [] {
      assert fs + [c] == [c] && [c][1..] == [];
    } else {
      assert (fs + [c])[0] == fs[0] && (fs + [c])[1..] == fs[1..] + [c];
      SmallestFirst(fs[1..], c);
      assert ([c] + SortFields(fs[1..]))[1..] == SortFields(fs[1..]);
    }
  }

  lemma {:induction false} NormOfPlain(v: Json, fs: Fields)
    requires forall f :: f in fs ==> f.value < v
    requires forall f :: f in fs ==> f.value.Str? || f.value.Num?
    ensures NormFields(v, fs) == fs
  {
    if fs != [] {
      assert fs[0] in fs && forall f :: f in fs[1..] ==> f in fs;
      NormOfPlain(v, fs[1..]);
      assert fs == [fs[0]] + fs[1..];
    }
  }

  lemma {:induction false} SortWithoutC(fs: Fields)
    requires forall i :: 0 <= i < |fs| ==> fs[i].key != C
    ensures SortFields(WithoutC(fs)) == SortFields(fs)
  {
    if fs != [] {
      SortWithoutC(fs[1..]);
      if fs[0].value != Undefined {
        assert WithoutC(fs)[1..] == WithoutC(fs[1..]);
      } else {
        assert WithoutC(fs) == WithoutC(fs[1..]);
      }
    }
  }

  lemma {:induction false} WithoutCKeeps(fs: Fields)
    requires forall i :: 0 <= i < |fs| ==> fs[i].key != C && fs[i].value != Undefined
    ensures WithoutC(fs) == fs
  {
    if fs != [] {
      WithoutCKeeps(fs[1..]);
      assert fs == [fs[0]] + fs[1..];
    }
  }

  // ----------------------------------------------------------------- the round trip ---

  const NAMES: seq<Text> := [P, T, E, WS, N, LOC, S, TOK, TOPIC]

  lemma BuiltKeys(i: Input)
    ensures DistinctKeys(Build(i))
    ensures forall j :: 0 <= j < |Build(i)| ==> KeyLess(C, Build(i)[j].key)
  {
    assert KeyLess(C, P) && KeyLess(C, T) && KeyLess(C, E) && KeyLess(C, WS) && KeyLess(C, N) && KeyLess(C, LOC);
    assert KeyLess(C, S) && KeyLess(C, TOK) && KeyLess(C, TOPIC);
  }

  // What the shape check leaves is plain.
  lemma ShapedIsPlain(fs: Fields)
    requires ShapeError(fs).None? && DistinctKeys(fs)
    requires forall j :: 0 <= j < |fs| ==> fs[j].key in NAMES
    ensures Plain(fs)
  {
    forall j | 0 <= j < |fs| ensures fs[j].value == Undefined || fs[j].value.Str? || fs[j].value.Num? {
      GetAt(fs, j);
      var key := fs[j].key;
      assert key == P || key == T || key == E || key == WS || key == N || key == LOC || key == S || key == TOK || key == TOPIC;
    }
  }

  lemma BuiltNames(i: Input)
    ensures forall j :: 0 <= j < |Build(i)| ==> Build(i)[j].key in NAMES
  {
    assert P in NAMES && T in NAMES && E in NAMES && WS in NAMES && N in NAMES && LOC in NAMES;
    assert S in NAMES && TOK in NAMES && TOPIC in NAMES;
  }

  // The object read back: the checksum first, then the fields in key order, values untouched.
  lemma ReadBackFields(fs: Fields, c: Field)
    requires Plain(fs) && c.key == C && c.value.Str?
    requires forall j :: 0 <= j < |fs| ==> KeyLess(C, fs[j].key)
    ensures Norm(Obj(fs + [c])) == Obj([c] + SortFields(fs))
  {
    var all := fs + [c];
    SmallestFirst(fs, c);
    ObjectPrints(all, Obj(all));
    var sorted := SortFields(all);
    forall f | f in sorted ensures f.value.Str? || f.value.Num? {
      assert f in all;
    }
    NormOfPlain(Obj(all), sorted);
  }

  // Its checksum is the one it carries.
  lemma ChecksumReadsBack(k: Codec, fs: Fields, c: Field)
    requires c.key == C && forall j :: 0 <= j < |fs| ==> KeyLess(C, fs[j].key)
    ensures ChecksumOf(k, [c] + SortFields(fs)) == ChecksumOf(k, fs)
  {
    var sorted := SortFields(fs);
    NotC(fs);
    forall j | 0 <= j < |sorted| ensures sorted[j].key != C && sorted[j].value != Undefined {
      assert sorted[j] in sorted && sorted[j] in fs;
    }
    WithoutCKeeps(sorted);
    assert ([c] + sorted)[1..] == sorted;
    assert WithoutC([c] + sorted) == sorted;
    SortWithoutC(fs);
    SortFieldsOrders(fs);
    OrderedIsFixed(sorted);
    SameSortedFieldsPrintAlike(sorted, WithoutC(fs));
  }

  lemma NotC(fs: Fields)
    requires forall j :: 0 <= j < |fs| ==> KeyLess(C, fs[j].key)
    ensures forall j :: 0 <= j < |fs| ==> fs[j].key != C
  {
    IrreflexiveKey(C);
  }

  // The checksum comes first and hides no field.
  lemma ReadsWithChecksum(fs: Fields, c: Field, key: Text)
    requires DistinctKeys(fs) && c.key == C
    ensures Get([c] + SortFields(fs), key) == if key == C then c.value else Get(fs, key)
  {
    SortReads(fs, key);
    assert ([c] + SortFields(fs))[1..] == SortFields(fs);
  }

  lemma SameShape(a: Fields, b: Fields)
    requires forall key :: key != C ==> Get(a, key) == Get(b, key)
    ensures ShapeError(a) == ShapeError(b)
  {
    assert P != C && T != C && E != C && WS != C && N != C && LOC != C && S != C && TOK != C && TOPIC != C;
  }

  // The text inside the blob comes back out of it.
  lemma BlobOpens(k: Codec, t: Text)
    requires Lawful(k) && Utf8.WellFormed(t) && t != []
    ensures var blob := PREFIX + k.toBase64(Utf8.Encode(t));
      k.trim(blob) == blob && PREFIX <= blob && blob[|PREFIX|..] == k.toBase64(Utf8.Encode(t)) &&
      IsBase64(blob[|PREFIX|..]) && k.decodeUtf8(k.fromBase64(blob[|PREFIX|..])) == t
  {
    Utf8.DecodeInvertsEncode(t);
    var body := k.toBase64(Utf8.Encode(t));
    assert Utf8.Encode(t) != [];
    assert IsBase64(body);
    assert IsBase64(PREFIX + body);
  }

  // What decode returns for the blob of these fields.
  ghost predicate ComesBack(k: Codec, fs: Fields, back: Result<Fields, InviteError>) {
    back.Ok? && ShapeError(back.value).None? && ChecksumError(k, back.value).None? &&
    (forall key :: key != C ==> Get(back.value, key) == Get(fs, key)) &&
    ChecksumOf(k, fs).Ok? && Get(back.value, C) == Str(ChecksumOf(k, fs).value)
  }

  // decode undoes encode: every field comes back as it was put in, and the checksum and the shape hold.
  lemma InviteRoundTrip(k: Codec, i: Input)
    requires Lawful(k) && Encode(k, i).Ok?
    ensures ComesBack(k, Build(i), Decode(k, Encode(k, i).value))
  {
    BuiltKeys(i);
    BuiltNames(i);
    SealedComesBack(k, Build(i));
  }

  lemma SealedComesBack(k: Codec, fs: Fields)
    requires Lawful(k) && Sealed(k, fs).Ok? && DistinctKeys(fs)
    requires forall j :: 0 <= j < |fs| ==> KeyLess(C, fs[j].key) && fs[j].key in NAMES
    ensures ComesBack(k, fs, Decode(k, Sealed(k, fs).value))
  {
    var c := Field(C, Str(ChecksumOf(k, fs).value));
    var back := [c] + SortFields(fs);
    ShapedIsPlain(fs);
    Opened(k, fs, c);
    Accepted(k, fs, c, back);
    DecodeAccepts(k, Sealed(k, fs).value, back);
  }

  ghost predicate ReadsAs(back: Fields, fs: Fields, c: Field) {
    (forall key :: key != C ==> Get(back, key) == Get(fs, key)) && Get(back, C) == c.value
  }

  lemma BackReadsAs(fs: Fields, c: Field)
    requires DistinctKeys(fs) && c.key == C
    ensures ReadsAs([c] + SortFields(fs), fs, c)
  {
    var back := [c] + SortFields(fs);
    forall key ensures Get(back, key) == if key == C then c.value else Get(fs, key) { ReadsWithChecksum(fs, c, key); }
  }

  lemma ChecksumHolds(k: Codec, fs: Fields, c: Field, back: Fields)
    requires Lawful(k) && Get(back, C) == c.value && ChecksumOf(k, back) == ChecksumOf(k, fs)
    requires ChecksumOf(k, fs).Ok? && c == Field(C, Str(ChecksumOf(k, fs).value))
    ensures ChecksumError(k, back).None?
  {
    var bytes := Utf8.Encode(Canon(Obj(WithoutC(fs))).value);
    assert IsHex(k.digest(bytes), 8);
  }

  // Both checks pass on what is read back.
  lemma Accepted(k: Codec, fs: Fields, c: Field, back: Fields)
    requires Lawful(k) && DistinctKeys(fs) && ShapeError(fs).None? && back == [c] + SortFields(fs)
    requires forall j :: 0 <= j < |fs| ==> KeyLess(C, fs[j].key)
    requires ChecksumOf(k, fs).Ok? && c == Field(C, Str(ChecksumOf(k, fs).value))
    ensures ComesBack(k, fs, Ok(back))
  {
    BackReadsAs(fs, c);
    SameShape(back, fs);
    ChecksumReadsBack(k, fs, c);
    ChecksumHolds(k, fs, c, back);
  }

  lemma DecodeAccepts(k: Codec, blob: Text, back: Fields)
    requires k.trim(blob) == blob && PREFIX <= blob && IsBase64(blob[|PREFIX|..])
    requires JsonParse.Parse(k.decodeUtf8(k.fromBase64(blob[|PREFIX|..]))) == Some(Obj(back))
    requires ShapeError(back).None? && ChecksumError(k, back).None?
    ensures Decode(k, blob) == Ok(back)
  {
  }

  lemma Opened(k: Codec, fs: Fields, c: Field)
    requires Lawful(k) && Plain(fs) && c.key == C && c.value.Str? && Canon(Obj(fs + [c])).Ok?
    requires forall j :: 0 <= j < |fs| ==> KeyLess(C, fs[j].key)
    ensures var blob := PREFIX + k.toBase64(Utf8.Encode(Canon(Obj(fs + [c])).value));
      k.trim(blob) == blob && PREFIX <= blob && IsBase64(blob[|PREFIX|..]) &&
      JsonParse.Parse(k.decodeUtf8(k.fromBase64(blob[|PREFIX|..]))) == Some(Obj([c] + SortFields(fs)))
  {
    var v := Obj(fs + [c]);
    CanonWellFormed(v);
    ObjectPrints(fs + [c], v);
    assert Canon(v).value != [];
    BlobOpens(k, Canon(v).value);
    JsonParse.ParseInvertsCanon(v);
    ReadBackFields(fs, c);
  }

  // ------------------------------------------------------- what is and is not an invite ---

  lemma KeyNames()
    ensures P == [0x70] && T == [0x74] && E == [0x65] && N == [0x6e] && S == [0x73] && C == [0x63]
    ensures Spells("loc", LOC) && Spells("tok", TOK) && Spells("topic", TOPIC) && Spells("ws", WS)
  {
  }

  predicate Named(v: Json, name: string) { v.Str? && Spells(name, v.s) }

  predicate Filled(v: Json) { v.Str? && |v.s| > 0 }

  predicate Hex(v: Json, n: nat) {
    v.Str? && |v.s| == n && forall i :: 0 <= i < n ==> 0x30 <= v.s[i] <= 0x39 || 0x61 <= v.s[i] <= 0x66
  }

  // An invite that points at the repository carries no secret. One that carries the secret inline has what joining by
  // its transport takes, and nothing of the other transport.
  predicate IsInvite(fs: Fields) {
    var t, loc, s, tok, topic := Get(fs, T), Get(fs, LOC), Get(fs, S), Get(fs, TOK), Get(fs, TOPIC);
    && Get(fs, P) == Num(1) && Filled(Get(fs, E)) && Hex(Get(fs, WS), 32) && Get(fs, N).Str? && |Get(fs, N).s| <= 64
    && (|| (Named(loc, "repo") && (Named(t, "relay") || Named(t, "ntfy")) && s == tok == topic == Undefined)
        || (Named(loc, "inline") && Named(t, "relay") && Filled(s) && Filled(tok) && topic == Undefined)
        || (Named(loc, "inline") && Named(t, "ntfy") && Filled(s) && tok == Undefined && Hex(topic, 32)))
  }

  lemma NameIs(v: Json, name: string, t: Text)
    requires Spells(name, t)
    ensures Named(v, name) <==> v == Str(t)
  {
    if Named(v, name) { assert v.s == t; }
  }

  lemma ShapedExactlyWhen(fs: Fields)
    ensures ShapeError(fs).None? <==> IsInvite(fs)
  {
    NameIs(Get(fs, T), "relay", RELAY);
    NameIs(Get(fs, T), "ntfy", NTFY);
    NameIs(Get(fs, LOC), "repo", REPO);
    NameIs(Get(fs, LOC), "inline", INLINE);
  }

  lemma DecodeMeans(k: Codec, blob: Text)
    requires Decode(k, blob).Ok?
    ensures ShapeError(Decode(k, blob).value).None? && ChecksumError(k, Decode(k, blob).value).None?
    ensures PREFIX <= k.trim(blob)
  {
  }

  lemma CarriesItsChecksum(k: Codec, fs: Fields)
    ensures ChecksumError(k, fs).None? <==>
      Hex(Get(fs, C), 8) && Canon(Obj(WithoutC(fs))).Ok? &&
      Get(fs, C) == Str(k.digest(Utf8.Encode(Canon(Obj(WithoutC(fs))).value)))
  {
  }

  predicate IsWhole(k: Codec, fs: Fields) {
    IsInvite(fs) && Hex(Get(fs, C), 8) && Canon(Obj(WithoutC(fs))).Ok? &&
    Get(fs, C) == Str(k.digest(Utf8.Encode(Canon(Obj(WithoutC(fs))).value)))
  }

  lemma WholeExactlyWhen(k: Codec, fs: Fields)
    ensures IsWhole(k, fs) <==> ShapeError(fs).None? && ChecksumError(k, fs).None?
  {
    ShapedExactlyWhen(fs);
    CarriesItsChecksum(k, fs);
  }

  // What decode accepts begins with the prefix, is an invite, and carries its own checksum.
  lemma AcceptedIsAnInvite(k: Codec, blob: Text)
    requires Decode(k, blob).Ok?
    ensures IsWhole(k, Decode(k, blob).value)
    ensures |k.trim(blob)| >= 5 && Spells("hsi1_", k.trim(blob)[..5])
  {
    DecodeMeans(k, blob);
    WholeExactlyWhen(k, Decode(k, blob).value);
    assert k.trim(blob)[..5] == PREFIX;
  }

  // An invite altered under its old checksum passes exactly when it still prints and either says the same in every
  // field or two texts with one digest were found.
  lemma AlteredInvitesAreRefused(k: Codec, a: Fields, b: Fields)
    requires ChecksumError(k, a).None? && Get(b, C) == Get(a, C)
    ensures ChecksumError(k, b).None? <==>
      Canon(Obj(WithoutC(b))).Ok? &&
      (Norm(Obj(WithoutC(a))) == Norm(Obj(WithoutC(b))) ||
       k.digest(Utf8.Encode(Canon(Obj(WithoutC(a))).value)) == k.digest(Utf8.Encode(Canon(Obj(WithoutC(b))).value)))
  {
    var x, y := Obj(WithoutC(a)), Obj(WithoutC(b));
    if Norm(x) == Norm(y) { JsonSame.NormTellsText(x, y); }
  }

  lemma {:induction false} GetPast(a: Fields, b: Fields, key: Text)
    requires forall j :: 0 <= j < |a| ==> a[j].key != key
    ensures Get(a + b, key) == Get(b, key)
  {
    if a == [] {
      assert a + b == b;
    } else {
      assert (a + b)[0] == a[0] && (a + b)[1..] == a[1..] + b;
      GetPast(a[1..], b, key);
    }
  }

  lemma {:induction false} GetWithin(a: Fields, b: Fields, i: nat)
    requires i < |a| && forall j :: 0 <= j < i ==> a[j].key != a[i].key
    ensures Get(a + b, a[i].key) == a[i].value
  {
    assert (a + b)[i] == a[i] && forall j :: 0 <= j < i ==> (a + b)[j] == a[j];
    GetAt(a + b, i);
  }

  lemma OptionalReads(key: Text, v: Json, rest: Fields, other: Text)
    ensures Get(Optional(key, v) + rest, key) == if v == Undefined then Get(rest, key) else v
    ensures other != key ==> Get(Optional(key, v) + rest, other) == Get(rest, other)
  {
    if v == Undefined {
      assert Optional(key, v) + rest == rest;
    } else {
      GetWithin(Optional(key, v), rest, 0);
      if other != key { GetPast(Optional(key, v), rest, other); }
    }
  }

  lemma TailReads(s: Json, tok: Json, topic: Json, tail: Fields)
    requires tail == Optional(S, s) + (Optional(TOK, tok) + Optional(TOPIC, topic))
    ensures Get(tail, S) == s && Get(tail, TOK) == tok && Get(tail, TOPIC) == topic
  {
    var last, more := Optional(TOPIC, topic), Optional(TOK, tok) + Optional(TOPIC, topic);
    assert last + [] == last;
    OptionalReads(TOPIC, topic, [], TOPIC);
    OptionalReads(TOPIC, topic, [], S);
    OptionalReads(TOPIC, topic, [], TOK);
    OptionalReads(TOK, tok, last, S);
    OptionalReads(TOK, tok, last, TOPIC);
    OptionalReads(S, s, more, TOK);
    OptionalReads(S, s, more, TOPIC);
  }

  lemma SixRead(head: Fields, tail: Fields)
    requires |head| == 6 && head[0].key == P && head[1].key == T && head[2].key == E
    requires head[3].key == WS && head[4].key == N && head[5].key == LOC
    ensures Get(head + tail, P) == head[0].value && Get(head + tail, T) == head[1].value
    ensures Get(head + tail, E) == head[2].value && Get(head + tail, WS) == head[3].value
    ensures Get(head + tail, N) == head[4].value && Get(head + tail, LOC) == head[5].value
    ensures Get(head + tail, S) == Get(tail, S) && Get(head + tail, TOK) == Get(tail, TOK)
    ensures Get(head + tail, TOPIC) == Get(tail, TOPIC)
  {
    assert |P| == |T| == |E| == |N| == 1 && |WS| == 2 && |LOC| == 3;
    forall i | 0 <= i < 6 ensures Get(head + tail, head[i].key) == head[i].value { GetWithin(head, tail, i); }
    GetPast(head, tail, S);
    GetPast(head, tail, TOK);
    GetPast(head, tail, TOPIC);
  }

  // What encode puts into an invite: the short names before the long ones, the repository and an empty name when none
  // is given, and the secret and the token only where they belong.
  lemma BuiltFrom(i: Input)
    ensures var fs := Build(i); var inline := Named(Get(fs, LOC), "inline");
      && Get(fs, P) == Num(1) && Get(fs, WS) == i.ws && Get(fs, TOPIC) == i.topic
      && (Filled(i.t) ==> Get(fs, T) == i.t) && (i.t == Undefined ==> Get(fs, T) == i.transport)
      && (Filled(i.e) ==> Get(fs, E) == i.e) && (i.e == Undefined ==> Get(fs, E) == i.endpoint)
      && (Filled(i.loc) ==> Get(fs, LOC) == i.loc) && (i.loc == Undefined ==> Named(Get(fs, LOC), "repo"))
      && (i.n != Undefined ==> Get(fs, N) == i.n)
      && (i.n == Undefined && Filled(i.name) ==> Get(fs, N) == i.name)
      && (i.n == i.name == Undefined ==> Get(fs, N) == Str([]))
      && (i.s != Undefined ==> Get(fs, S) == i.s)
      && (i.s == Undefined ==> Get(fs, S) == if inline then i.secret else Undefined)
      && (i.tok != Undefined ==> Get(fs, TOK) == i.tok)
      && (i.tok == Undefined ==>
            Get(fs, TOK) == if inline && Named(Get(fs, T), "relay") then i.enrollmentToken else Undefined)
  {
    var t, loc := Or(i.t, i.transport), Or(i.loc, Str(REPO));
    NameIs(loc, "inline", INLINE);
    NameIs(loc, "repo", REPO);
    NameIs(t, "relay", RELAY);
    var n := if i.n == Undefined then Or(i.name, Str([])) else i.n;
    var s := if i.s != Undefined then i.s else if loc == Str(INLINE) then i.secret else Undefined;
    var tok := if i.tok != Undefined then i.tok
               else if loc == Str(INLINE) && t == Str(RELAY) then i.enrollmentToken else Undefined;
    var head := [Field(P, Num(1)), Field(T, t), Field(E, Or(i.e, i.endpoint)), Field(WS, i.ws), Field(N, n), Field(LOC, loc)];
    var tail := Optional(S, s) + (Optional(TOK, tok) + Optional(TOPIC, i.topic));
    SixRead(head, tail);
    TailReads(s, tok, i.topic, tail);
    assert Build(i) == head + tail;
  }
}
