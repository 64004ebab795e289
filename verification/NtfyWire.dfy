/** The encrypted ntfy form, lib/envelope.js: four signed fields in the clear, four inside the ciphertext. */
module NtfyWire {
  import opened Basics
  import opened CanonicalJson
  import opened Envelope
  import opened JsonOrder
  import opened Utf8
  import JsonParse

  datatype WireError =
    | Unprintable(why: CanonicalJson.Error) | BadIv | WireMissing | EncUnsupported | CtMissing | CannotOpen
    | PlaintextJson | PlaintextShape | AlgUnsupported

  predicate Falsy(v: Json) {
    v == Undefined || v == Null || v == Bool(false) || v == Num(0) || v == NegativeZero || v == Str([])
  }

  // A missing algorithm is HS256.
  predicate AlgKnown(fs: Fields) { Falsy(Get(fs, ALG)) || Get(fs, ALG) == Str(HS256) }

  function Encrypt(p: Platform, fs: Fields, k: Key, iv: seq<Byte>): Result<Fields, WireError> {
    match Bytes(fs, NTFY_HIDDEN_FIELDS)
    case Err(e) => Err(Unprintable(e))
    case Ok(plaintext) =>
      match Bytes(fs, NTFY_CLEAR_FIELDS)
      case Err(e) => Err(Unprintable(e))
      case Ok(aad) =>
        if |iv| != 12 then Err(BadIv) else Ok(Wire(fs, p.seal(k, iv, aad, plaintext)))
  }

  function Wire(fs: Fields, ct: Text): Fields {
    [Field(V, Get(fs, V)), Field(WS, Get(fs, WS)), Field(TS, Get(fs, TS)), Field(SENDER_SEQ, Get(fs, SENDER_SEQ)),
     Field(ALG, if Falsy(Get(fs, ALG)) then Str(HS256) else Get(fs, ALG)), Field(ENC, Str(A256GCM)),
     Field(SIG, Get(fs, SIG)), Field(CT, Str(ct))]
  }

  function Reassemble(wire: Fields, hidden: Fields): Fields {
    [Field(V, Get(wire, V)), Field(WS, Get(wire, WS)), Field(FROM, Get(hidden, FROM)), Field(TYPE, Get(hidden, TYPE)),
     Field(BODY, Get(hidden, BODY)), Field(TS, Get(wire, TS)), Field(NONCE, Get(hidden, NONCE)),
     Field(SENDER_SEQ, Get(wire, SENDER_SEQ)), Field(SIG, Get(wire, SIG))]
  }

  function Decrypt(p: Platform, wire: Json, k: Key): Result<Fields, WireError> {
    if !wire.Obj? then Err(WireMissing)
    else
      var fs := wire.fields;
      if Get(fs, ENC) != Str(A256GCM) then Err(EncUnsupported)
      else if !Get(fs, CT).Str? then Err(CtMissing)
      else
        match Bytes(fs, NTFY_CLEAR_FIELDS)
        case Err(e) => Err(Unprintable(e))
        case Ok(aad) =>
          match p.open(k, aad, Get(fs, CT).s)
          case None => Err(CannotOpen)
          case Some(plaintext) =>
            match JsonParse.Parse(p.decode(plaintext))
            case None => Err(PlaintextJson)
            case Some(hidden) =>
              if !hidden.Obj? then Err(PlaintextShape)
              else if !AlgKnown(fs) then Err(AlgUnsupported)
              else Ok(Reassemble(fs, hidden.fields))
  }

  // An ideal cipher: what was sealed opens, and only under the associated data it was sealed with; and
  // UTF-8 decoding undoes encoding.
  ghost predicate Ideal(p: Platform, k: Key) {
    (forall iv, aad, text :: p.open(k, aad, p.seal(k, iv, aad, text)) == Some(text)) &&
    (forall iv, aad, text, other :: p.open(k, other, p.seal(k, iv, aad, text)).Some? ==> other == aad) &&
    (forall t :: WellFormed(t) ==> p.decode(Encode(t)) == t)
  }

  // -------------------------------------------------------- reading displays ---

  lemma {:induction false} GetAt(fs: Fields, i: nat)
    requires i < |fs| && forall j :: 0 <= j < i ==> fs[j].key != fs[i].key
    ensures Get(fs, fs[i].key) == fs[i].value
  {
    if i > 0 { GetAt(fs[1..], i - 1); }
  }

  lemma WireReads(fs: Fields, ct: Text)
    ensures forall key :: key in NTFY_CLEAR_FIELDS || key == SIG ==> Get(Wire(fs, ct), key) == Get(fs, key)
    ensures Get(Wire(fs, ct), ENC) == Str(A256GCM) && Get(Wire(fs, ct), CT) == Str(ct)
    ensures AlgKnown(Wire(fs, ct)) <==> AlgKnown(fs)
  {
    var w := Wire(fs, ct);
    forall i | 0 <= i < 8 ensures Get(w, w[i].key) == w[i].value { GetAt(w, i); }
    assert w[0].key == V && w[1].key == WS && w[2].key == TS && w[3].key == SENDER_SEQ;
    assert w[4].key == ALG && w[5].key == ENC && w[6].key == SIG && w[7].key == CT;
  }

  lemma ReassembledReads(wire: Fields, hidden: Fields)
    ensures forall key :: key in NTFY_CLEAR_FIELDS || key == SIG ==>
      Get(Reassemble(wire, hidden), key) == Get(wire, key)
    ensures forall key :: key in NTFY_HIDDEN_FIELDS ==> Get(Reassemble(wire, hidden), key) == Get(hidden, key)
  {
    var r := Reassemble(wire, hidden);
    forall i | 0 <= i < 9 ensures Get(r, r[i].key) == r[i].value { GetAt(r, i); }
    assert r[0].key == V && r[1].key == WS && r[2].key == FROM && r[3].key == TYPE && r[4].key == BODY;
    assert r[5].key == TS && r[6].key == NONCE && r[7].key == SENDER_SEQ && r[8].key == SIG;
  }

  lemma {:induction false} GetOfNormalPick(fs: Fields, names: seq<Text>, key: Text)
    requires Ascending(names) && key in names
    ensures Get(NormalPick(fs, names), key) == Norm(Get(fs, key))
  {
    AscendingIsDistinct(names);
    var rest := NormalPick(fs, names[1..]);
    if key == names[0] {
      if Get(fs, key) == Undefined { AbsentKey(rest, fs, names[1..], key); }
    } else {
      GetOfNormalPick(fs, names[1..], key);
      if Get(fs, names[0]) != Undefined { assert NormalPick(fs, names)[1..] == rest; }
    }
  }

  lemma AbsentKey(rest: Fields, fs: Fields, names: seq<Text>, key: Text)
    requires key !in names && rest == NormalPick(fs, names)
    ensures Get(rest, key) == Undefined
  {
    NormalPickKeys(fs, names, key);
    NoSuchKey(rest, key);
  }

  lemma {:induction false} NoSuchKey(fs: Fields, key: Text)
    requires forall i :: 0 <= i < |fs| ==> fs[i].key != key
    ensures Get(fs, key) == Undefined
  {
    if fs != [] { NoSuchKey(fs[1..], key); }
  }

  // ------------------------------------------------------ when fields print ---

  // Every named field that is present prints.
  ghost predicate Printable(fs: Fields, names: seq<Text>) {
    forall i :: 0 <= i < |names| ==> Get(fs, names[i]) == Undefined || Canon(Get(fs, names[i])).Ok?
  }

  lemma {:induction false} FieldsPrint(fs: Fields, names: seq<Text>, w: Json)
    requires Ascending(names) && forall f :: f in Pick(fs, names) ==> f.value < w
    ensures CanonFields(w, Pick(fs, names)).Ok? <==> Printable(fs, names)
  {
    if names != [] {
      var n, rest := names[0], names[1..];
      assert forall i :: 0 <= i < |rest| ==> rest[i] == names[i + 1];
      assert forall f :: f in Pick(fs, rest) ==> f in Pick(fs, names);
      FieldsPrint(fs, rest, w);
      assert Printable(fs, names) <==> (Get(fs, n) == Undefined || Canon(Get(fs, n)).Ok?) && Printable(fs, rest);
      AsciiWellFormed(n);
      if Get(fs, n) != Undefined {
        var picked := Pick(fs, names);
        assert picked[0] == Field(n, Get(fs, n)) && picked[1..] == Pick(fs, rest);
        if |picked| == 1 { assert Pick(fs, rest) == []; }
      }
    }
  }

  lemma BytesPrint(fs: Fields, names: seq<Text>)
    requires Ascending(names)
    ensures Bytes(fs, names).Ok? <==> Printable(fs, names)
  {
    var picked := Pick(fs, names);
    PickIsSorted(fs, names);
    ObjectPrints(picked, Obj(picked));
    FieldsPrint(fs, names, Obj(picked));
    ObjectIsOk(picked, Obj(picked));
  }

  lemma ObjectIsOk(picked: Fields, v: Json)
    requires v == Obj(picked) && SortFields(picked) == picked
    requires forall i :: 0 <= i < |picked| ==> GoodKey(picked[i].key)
    requires forall f :: f in picked ==> f.value < v
    ensures Canon(v).Ok? <==> CanonFields(v, picked).Ok?
  {
    ObjectPrints(picked, v);
  }

  lemma EightArePrintable(fs: Fields)
    ensures Printable(fs, SIGNED_FIELDS) <==> Printable(fs, NTFY_CLEAR_FIELDS) && Printable(fs, NTFY_HIDDEN_FIELDS)
  {
    var s, c, h := SIGNED_FIELDS, NTFY_CLEAR_FIELDS, NTFY_HIDDEN_FIELDS;
    assert c[0] == s[3] && c[1] == s[4] && c[2] == s[6] && c[3] == s[7];
    assert h[0] == s[0] && h[1] == s[1] && h[2] == s[2] && h[3] == s[5];
  }

  // An envelope has a wire form exactly when it has a signature input (and the nonce is 12 bytes).
  lemma EncryptsWhenSignable(p: Platform, fs: Fields, k: Key, iv: seq<Byte>)
    ensures Encrypt(p, fs, k, iv).Ok? <==> CanonicalBytes(fs).Ok? && |iv| == 12
  {
    SignedFieldsAscend();
    BytesPrint(fs, SIGNED_FIELDS);
    BytesPrint(fs, NTFY_CLEAR_FIELDS);
    BytesPrint(fs, NTFY_HIDDEN_FIELDS);
    EightArePrintable(fs);
  }

  // --------------------------------------------------------------- the round trip ---

  // What the receiver reads inside the ciphertext.
  lemma HiddenFieldsReadBack(p: Platform, fs: Fields, k: Key)
    requires Ideal(p, k) && Bytes(fs, NTFY_HIDDEN_FIELDS).Ok?
    ensures JsonParse.Parse(p.decode(Bytes(fs, NTFY_HIDDEN_FIELDS).value)) ==
            Some(Obj(NormalPick(fs, NTFY_HIDDEN_FIELDS)))
  {
    SignedFieldsAscend();
    ReadBack(p, fs, k, NTFY_HIDDEN_FIELDS);
  }

  lemma ReadBack(p: Platform, fs: Fields, k: Key, names: seq<Text>)
    requires Ideal(p, k) && Ascending(names) && Bytes(fs, names).Ok?
    ensures JsonParse.Parse(p.decode(Bytes(fs, names).value)) == Some(Obj(NormalPick(fs, names)))
  {
    var v := Obj(Pick(fs, names));
    CanonWellFormed(v);
    JsonParse.ParseInvertsCanon(v);
    NormOfPicked(fs, names);
  }

  ghost predicate Opened(p: Platform, fs: Fields, k: Key, aad: seq<Byte>, text: seq<Byte>, hidden: Fields) {
    Get(fs, CT).Str? && Bytes(fs, NTFY_CLEAR_FIELDS) == Ok(aad) && p.open(k, aad, Get(fs, CT).s) == Some(text) &&
    JsonParse.Parse(p.decode(text)) == Some(Obj(hidden))
  }

  lemma DecryptMeans(p: Platform, fs: Fields, k: Key) returns (aad: seq<Byte>, text: seq<Byte>, hidden: Fields)
    requires Decrypt(p, Obj(fs), k).Ok?
    ensures Opened(p, fs, k, aad, text, hidden) && Decrypt(p, Obj(fs), k).value == Reassemble(fs, hidden)
  {
    aad := Bytes(fs, NTFY_CLEAR_FIELDS).value;
    text := p.open(k, aad, Get(fs, CT).s).value;
    hidden := JsonParse.Parse(p.decode(text)).value.fields;
  }

  // Whatever wire object carries the ciphertext of an envelope, what decryption returns has that envelope's
  // eight signed fields: the clear ones are bound to the ciphertext, the hidden ones are inside it.
  lemma ClearFieldsAreAuthenticated(p: Platform, fs: Fields, k: Key, iv: seq<Byte>, other: Fields)
    requires Ideal(p, k) && Encrypt(p, fs, k, iv).Ok?
    requires Get(other, CT) == Get(Encrypt(p, fs, k, iv).value, CT)
    requires Decrypt(p, Obj(other), k).Ok?
    ensures SameFields(fs, Decrypt(p, Obj(other), k).value, SIGNED_FIELDS)
    ensures Get(Decrypt(p, Obj(other), k).value, SIG) == Get(other, SIG)
  {
    WireKeepsBytes(p, fs, k, iv);
    var aad, text, hidden := DecryptMeans(p, other, k);
    SealedFieldsAgree(p, fs, k, iv, other, aad, text, hidden);
    ReassembledReads(other, hidden);
  }

  lemma SealedFieldsAgree(p: Platform, fs: Fields, k: Key, iv: seq<Byte>, other: Fields, aad: seq<Byte>,
                          text: seq<Byte>, hidden: Fields)
    requires Ideal(p, k) && Bytes(fs, NTFY_HIDDEN_FIELDS).Ok? && Bytes(fs, NTFY_CLEAR_FIELDS).Ok?
    requires Opened(p, other, k, aad, text, hidden)
    requires Get(other, CT) ==
             Str(p.seal(k, iv, Bytes(fs, NTFY_CLEAR_FIELDS).value, Bytes(fs, NTFY_HIDDEN_FIELDS).value))
    ensures SameFields(fs, Reassemble(other, hidden), SIGNED_FIELDS)
  {
    HiddenFieldsReadBack(p, fs, k);
    assert aad == Bytes(fs, NTFY_CLEAR_FIELDS).value;
    assert hidden == NormalPick(fs, NTFY_HIDDEN_FIELDS);
    SignedFieldsAscend();
    BytesStandForFields(fs, other, NTFY_CLEAR_FIELDS);
    ReassembledAgrees(fs, other);
  }

  lemma NormIsIdempotentOn(fs: Fields, names: seq<Text>, key: Text)
    requires Ascending(names) && Bytes(fs, names).Ok? && key in names
    ensures Norm(Norm(Get(fs, key))) == Norm(Get(fs, key))
  {
    BytesPrint(fs, names);
    var i :| 0 <= i < |names| && names[i] == key;
    var v := Get(fs, key);
    if v != Undefined {
      CanonOfNorm(v);
      JsonParse.ParseInvertsCanon(v);
      JsonParse.ParseInvertsCanon(Norm(v));
    }
  }

  lemma ReassembledAgrees(fs: Fields, wire: Fields)
    requires SameFields(fs, wire, NTFY_CLEAR_FIELDS) && Bytes(fs, NTFY_HIDDEN_FIELDS).Ok?
    ensures SameFields(fs, Reassemble(wire, NormalPick(fs, NTFY_HIDDEN_FIELDS)), SIGNED_FIELDS)
  {
    var hidden := NormalPick(fs, NTFY_HIDDEN_FIELDS);
    var s, c, h, r := SIGNED_FIELDS, NTFY_CLEAR_FIELDS, NTFY_HIDDEN_FIELDS, Reassemble(wire, hidden);
    SignedFieldsAscend();
    ReassembledReads(wire, hidden);
    forall key | key in h ensures Norm(Get(r, key)) == Norm(Get(fs, key)) {
      GetOfNormalPick(fs, h, key);
      NormIsIdempotentOn(fs, h, key);
    }
    forall i | 0 <= i < |c| ensures c[i] in c && Norm(Get(r, c[i])) == Norm(Get(fs, c[i])) {
    }
    assert c[0] == s[3] && c[1] == s[4] && c[2] == s[6] && c[3] == s[7];
    assert h[0] == s[0] && h[1] == s[1] && h[2] == s[2] && h[3] == s[5];
    forall i | 0 <= i < |s| ensures Norm(Get(fs, s[i])) == Norm(Get(r, s[i])) {
      assert s[i] in c || s[i] in h;
    }
  }

  // Absent, one of JavaScript's false values, or the one algorithm there is.
  predicate NamesNoneOrHs256(alg: Json) {
    match alg
    case Undefined => true
    case Null => true
    case Bool(b) => !b
    case Num(n) => n == 0
    case NegativeZero => true
    case Str(s) => s == [] || Spells("HS256", s)
    case _ => false
  }

  lemma KnownExactlyWhen(fs: Fields)
    ensures AlgKnown(fs) <==> NamesNoneOrHs256(Get(fs, ALG))
  {
    var alg := Get(fs, ALG);
    if alg.Str? && Spells("HS256", alg.s) { assert alg.s == HS256; }
  }

  // Only an object that says it is encrypted this way, with a ciphertext and with a known algorithm, decrypts at all.
  lemma DecryptsOnlyTheWireForm(p: Platform, wire: Json, k: Key)
    requires Decrypt(p, wire, k).Ok?
    ensures wire.Obj? && Get(wire.fields, CT).Str? && NamesNoneOrHs256(Get(wire.fields, ALG))
    ensures Get(wire.fields, ENC).Str? && Spells("A256GCM", Get(wire.fields, ENC).s)
    ensures Canon(Obj(Pick(wire.fields, NTFY_CLEAR_FIELDS))).Ok?
    ensures p.open(k, Encode(Canon(Obj(Pick(wire.fields, NTFY_CLEAR_FIELDS))).value), Get(wire.fields, CT).s).Some?
  {
    KnownExactlyWhen(wire.fields);
  }

  // The encrypted form comes back as the same eight fields and the same signature verdict, exactly when
  // the algorithm it names is known.
  lemma NtfyRoundTrip(p: Platform, fs: Fields, k: Key, iv: seq<Byte>, kSig: Key)
    requires Ideal(p, k) && Encrypt(p, fs, k, iv).Ok?
    ensures var back := Decrypt(p, Obj(Encrypt(p, fs, k, iv).value), k);
      (back.Ok? <==> NamesNoneOrHs256(Get(fs, ALG))) && (back.Err? ==> back == Err(AlgUnsupported)) &&
      (back.Ok? ==> SameFields(fs, back.value, SIGNED_FIELDS) && Get(back.value, SIG) == Get(fs, SIG) &&
                    (Verify(p, back.value, kSig) <==> Verify(p, fs, kSig)))
  {
    var wire := Encrypt(p, fs, k, iv).value;
    WireKeepsBytes(p, fs, k, iv);
    HiddenFieldsReadBack(p, fs, k);
    KnownExactlyWhen(fs);
    var back := Decrypt(p, Obj(wire), k);
    if back.Ok? {
      ClearFieldsAreAuthenticated(p, fs, k, iv, wire);
      SameVerdict(p, fs, wire, kSig);
    }
  }

  lemma WireKeepsBytes(p: Platform, fs: Fields, k: Key, iv: seq<Byte>)
    requires Encrypt(p, fs, k, iv).Ok?
    ensures var wire := Encrypt(p, fs, k, iv).value;
      Bytes(wire, NTFY_CLEAR_FIELDS) == Bytes(fs, NTFY_CLEAR_FIELDS) && Get(wire, SIG) == Get(fs, SIG) &&
      Get(wire, ENC) == Str(A256GCM) && (AlgKnown(wire) <==> AlgKnown(fs)) &&
      Get(wire, CT) == Str(p.seal(k, iv, Bytes(fs, NTFY_CLEAR_FIELDS).value, Bytes(fs, NTFY_HIDDEN_FIELDS).value))
  {
    var ct := p.seal(k, iv, Bytes(fs, NTFY_CLEAR_FIELDS).value, Bytes(fs, NTFY_HIDDEN_FIELDS).value);
    WireReads(fs, ct);
    PickDependsOnNames(Wire(fs, ct), fs, NTFY_CLEAR_FIELDS);
  }

  lemma SameVerdict(p: Platform, fs: Fields, wire: Fields, kSig: Key)
    requires Bytes(fs, NTFY_HIDDEN_FIELDS).Ok? && Bytes(fs, NTFY_CLEAR_FIELDS).Ok?
    requires Bytes(wire, NTFY_CLEAR_FIELDS) == Bytes(fs, NTFY_CLEAR_FIELDS) && Get(wire, SIG) == Get(fs, SIG)
    ensures var r := Reassemble(wire, NormalPick(fs, NTFY_HIDDEN_FIELDS));
      Verify(p, r, kSig) <==> Verify(p, fs, kSig)
  {
    var hidden := NormalPick(fs, NTFY_HIDDEN_FIELDS);
    var r := Reassemble(wire, hidden);
    SignedFieldsAscend();
    BytesStandForFields(fs, wire, NTFY_CLEAR_FIELDS);
    ReassembledAgrees(fs, wire);
    ReassembledReads(wire, hidden);
    ReassembledPrints(fs, wire);
    CanonicalBytesStandForTheSignedFields(fs, r);
  }

  lemma ReassembledPrints(fs: Fields, wire: Fields)
    requires Bytes(fs, NTFY_HIDDEN_FIELDS).Ok? && Bytes(fs, NTFY_CLEAR_FIELDS).Ok?
    requires Bytes(wire, NTFY_CLEAR_FIELDS).Ok?
    ensures CanonicalBytes(fs).Ok? && CanonicalBytes(Reassemble(wire, NormalPick(fs, NTFY_HIDDEN_FIELDS))).Ok?
  {
    var c, h := NTFY_CLEAR_FIELDS, NTFY_HIDDEN_FIELDS;
    var hidden := NormalPick(fs, h);
    var r := Reassemble(wire, hidden);
    SignedFieldsAscend();
    ReassembledReads(wire, hidden);
    BytesPrint(fs, c);
    BytesPrint(fs, h);
    BytesPrint(wire, c);
    forall i | 0 <= i < |c| ensures Get(r, c[i]) == Undefined || Canon(Get(r, c[i])).Ok? { assert c[i] in c; }
    forall i | 0 <= i < |h| ensures Get(r, h[i]) == Undefined || Canon(Get(r, h[i])).Ok? {
      assert h[i] in h;
      GetOfNormalPick(fs, h, h[i]);
      if Get(fs, h[i]) != Undefined { CanonOfNorm(Get(fs, h[i])); }
    }
    EightArePrintable(fs);
    EightArePrintable(r);
    BytesPrint(fs, SIGNED_FIELDS);
    BytesPrint(r, SIGNED_FIELDS);
  }
}
