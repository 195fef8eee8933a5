/**
 Signed page cursors (src/storage/disclosure-cursor.ts:47-109): `v1.<payload>.<mac>` with
 a canonical JSON payload. The MAC is a parameter.
 */
module DisclosureCursor {
  import opened Wrappers
  import opened Sequences
  import opened Utf8
  import opened CanonicalJson
  import Base64Url
  import Decimal

  type Bytes = seq<Byte>
  type Mac = Bytes -> Bytes

  const DOT: Unit := 46

  datatype Payload = Payload(peerFp: Text, fromSeq: PlainInt, ts: PlainInt)

  function PayloadFields(p: Payload): seq<Field> {
    [Field(Ascii("peerFp"), Str(p.peerFp)), Field(Ascii("fromSeq"), Num(p.fromSeq)), Field(Ascii("ts"), Num(p.ts))]
  }

  function Version(): (v: Text)
    ensures |v| == 2 && v[0] == 118 && v[1] == 49
  {
    Ascii("v1")
  }

  lemma PayloadCanonicalizable(p: Payload)
    ensures Canonicalizable(Obj(PayloadFields(p)))
    ensures Stringify(Obj(PayloadFields(p))).Some?
  {
    var f := PayloadFields(p);
    assert |f[0].key| == 6 && |f[1].key| == 7 && |f[2].key| == 2;
    assert forall i | 0 <= i < |f| :: Canonicalizable(f[i].value);
    DecodeOfStringify(Obj(f));
  }

  function PayloadText(p: Payload): Text {
    PayloadCanonicalizable(p);
    Stringify(Obj(PayloadFields(p))).value
  }

  /** The part the MAC covers. */
  function HeaderAndBody(p: Payload): Text {
    Version() + [DOT] + Base64Url.B64Encode(Encode(PayloadText(p)))
  }

  function SignCursor(mac: Mac, p: Payload): Text {
    HeaderAndBody(p) + ([DOT] + Base64Url.B64Encode(mac(Encode(HeaderAndBody(p)))))
  }

  /** The payload a verified body carries; None when a field is missing or of the wrong type. */
  function ReadPayload(m: Option<Meaning>): Option<Payload> {
    if m.None? || !m.value.MObj? then None
    else
      var o := m.value.members;
      if Ascii("peerFp") !in o || !o[Ascii("peerFp")].MStr? then None
      else if Ascii("fromSeq") !in o || !o[Ascii("fromSeq")].MNum? then None
      else if Ascii("ts") !in o || !o[Ascii("ts")].MNum? then None
      else if !Decimal.IsPlain(o[Ascii("fromSeq")].n) || !Decimal.IsPlain(o[Ascii("ts")].n) then None
      else Some(Payload(o[Ascii("peerFp")].s, o[Ascii("fromSeq")].n, o[Ascii("ts")].n))
  }

  /** Checks in the code's order; any failure, thrown or returned, is None. */
  function VerifyCursor(mac: Mac, cursor: Text): Option<Payload> {
    var parts := Split(cursor, DOT);
    if |parts| != 3 || parts[0] != Version() then None
    else
      var sig := Base64Url.B64Decode(parts[2]);
      if sig.None? || sig.value != mac(Encode(parts[0] + [DOT] + parts[1])) then None
      else
        var body := Base64Url.B64Decode(parts[1]);
        if body.None? then None else ReadPayload(CanonicalJson.Decode(Utf8.Decode(body.value)))
  }

  lemma PayloadFieldsOk(p: Payload)
    ensures FieldsCanonicalizable(PayloadFields(p))
  {
    PayloadCanonicalizable(p);
    assert Canonicalizable(Obj(PayloadFields(p)));
  }

  lemma PayloadMember(p: Payload, i: nat)
    requires i < 3 && FieldsCanonicalizable(PayloadFields(p))
    ensures var f := PayloadFields(p);
      f[i].key in FieldMeanings(f) && FieldMeanings(f)[f[i].key] == MeaningOf(f[i].value)
  {
    FieldInMeaning(PayloadFields(p), i);
  }

  /** The three members a payload object has. */
  lemma PayloadMembers(p: Payload)
    ensures FieldsCanonicalizable(PayloadFields(p))
    ensures var o := FieldMeanings(PayloadFields(p));
      && Ascii("peerFp") in o && o[Ascii("peerFp")] == MStr(p.peerFp)
      && Ascii("fromSeq") in o && o[Ascii("fromSeq")] == MNum(p.fromSeq)
      && Ascii("ts") in o && o[Ascii("ts")] == MNum(p.ts)
  {
    PayloadFieldsOk(p);
    PayloadMember(p, 0);
    PayloadMember(p, 1);
    PayloadMember(p, 2);
  }

  lemma PayloadReadsBack(p: Payload)
    ensures ReadPayload(CanonicalJson.Decode(PayloadText(p))) == Some(p)
  {
    var f := PayloadFields(p);
    PayloadCanonicalizable(p);
    PayloadMembers(p);
    DecodeOfStringify(Obj(f));
    MembersReadBack(FieldMeanings(f), p);
  }

  lemma MembersReadBack(o: map<Text, Meaning>, p: Payload)
    requires Ascii("peerFp") in o && o[Ascii("peerFp")] == MStr(p.peerFp)
    requires Ascii("fromSeq") in o && o[Ascii("fromSeq")] == MNum(p.fromSeq)
    requires Ascii("ts") in o && o[Ascii("ts")] == MNum(p.ts)
    ensures ReadPayload(Some(MObj(o))) == Some(p)
  {
  }

  lemma PayloadBytesReadBack(p: Payload)
    ensures Utf8.Decode(Encode(PayloadText(p))) == PayloadText(p)
  {
    PayloadCanonicalizable(p);
    StringifyWellFormed(Obj(PayloadFields(p)));
    RoundTrip(PayloadText(p));
  }

  lemma NoDotInBase64(b: Bytes)
    ensures DOT !in Base64Url.B64Encode(b)
  {
    Base64Url.EncodeAlphabet(b);
  }

  lemma JoinOfThree(a: Text, b: Text, c: Text)
    ensures Join([a, b, c], DOT) == a + [DOT] + b + ([DOT] + c)
  {
    assert [a, b, c][1..] == [b, c] && [b, c][1..] == [c];
    assert Join([c], DOT) == c && Join([b, c], DOT) == b + [DOT] + c;
    var bc := b + [DOT] + c;
    assert Join([a, b, c], DOT) == a + [DOT] + bc;
    assert a + [DOT] + bc == a + [DOT] + b + ([DOT] + c);
  }

  lemma SplitOfThree(a: Text, b: Text, c: Text)
    requires DOT !in a && DOT !in b && DOT !in c
    ensures Split(a + [DOT] + b + ([DOT] + c), DOT) == [a, b, c]
  {
    var parts := [a, b, c];
    JoinOfThree(a, b, c);
    SplitOfJoin(parts, DOT);
  }

  lemma CursorParts(mac: Mac, p: Payload)
    ensures Split(SignCursor(mac, p), DOT)
            == [Version(), Base64Url.B64Encode(Encode(PayloadText(p))), Base64Url.B64Encode(mac(Encode(HeaderAndBody(p))))]
  {
    NoDotInBase64(Encode(PayloadText(p)));
    NoDotInBase64(mac(Encode(HeaderAndBody(p))));
    SplitOfThree(Version(), Base64Url.B64Encode(Encode(PayloadText(p))),
                 Base64Url.B64Encode(mac(Encode(HeaderAndBody(p)))));
  }

  lemma SignedNotEmpty(mac: Mac, p: Payload)
    ensures SignCursor(mac, p) != []
  {
    assert |SignCursor(mac, p)| >= |HeaderAndBody(p)| >= |Version()|;
  }

  /** A signed cursor verifies back to exactly its payload. */
  lemma CursorRoundTrip(mac: Mac, p: Payload)
    ensures VerifyCursor(mac, SignCursor(mac, p)) == Some(p)
  {
    CursorParts(mac, p);
    Base64Url.RoundTrip(mac(Encode(HeaderAndBody(p))));
    Base64Url.RoundTrip(Encode(PayloadText(p)));
    PayloadBytesReadBack(p);
    PayloadReadsBack(p);
  }

  ghost predicate MacInjective(mac: Mac) { forall x, y :: mac(x) == mac(y) ==> x == y }

  /**
   Under an injective MAC the signature part decides the payload: whatever else is
   changed, an accepted cursor that carries the MAC of a signed one has its payload.
   */
  lemma SignatureDecidesPayload(mac: Mac, p: Payload, cursor: Text)
    requires MacInjective(mac) && WellFormed(cursor)
    ensures VerifyCursor(mac, cursor).Some? && CarriesMacOf(mac, cursor, p) ==> VerifyCursor(mac, cursor) == Some(p)
  {
    if VerifyCursor(mac, cursor).Some? && CarriesMacOf(mac, cursor, p) { SamePayload(mac, p, cursor); }
  }

  /** The cursor's third part is the MAC that signing `p` produces. */
  predicate CarriesMacOf(mac: Mac, cursor: Text, p: Payload) {
    var parts := Split(cursor, DOT);
    |parts| == 3 && Base64Url.B64Decode(parts[2]) == Some(mac(Encode(HeaderAndBody(p))))
  }

  lemma SamePayload(mac: Mac, p: Payload, cursor: Text)
    requires MacInjective(mac) && WellFormed(cursor)
    requires VerifyCursor(mac, cursor).Some? && CarriesMacOf(mac, cursor, p)
    ensures VerifyCursor(mac, cursor) == Some(p)
  {
    var parts := Split(cursor, DOT);
    var signed := parts[0] + [DOT] + parts[1];
    SignedPartWellFormed(cursor);
    HeaderAndBodyWellFormed(p);
    EncodeInjective(signed, HeaderAndBody(p));
    NoDotInBase64(Encode(PayloadText(p)));
    FirstSeparatorUnique(parts[0], parts[1], Version(), Base64Url.B64Encode(Encode(PayloadText(p))), DOT);
    Base64Url.RoundTrip(Encode(PayloadText(p)));
    PayloadBytesReadBack(p);
    PayloadReadsBack(p);
  }

  lemma HeaderAndBodyWellFormed(p: Payload)
    ensures WellFormed(HeaderAndBody(p))
  {
    var body := Base64Url.B64Encode(Encode(PayloadText(p)));
    Base64Url.EncodeAlphabet(Encode(PayloadText(p)));
    NoSurrogatesWellFormed(body);
    NoSurrogatesWellFormed(Version() + [DOT]);
    WellFormedAppend(Version() + [DOT], body);
  }

  lemma SignedPartWellFormed(cursor: Text)
    requires WellFormed(cursor) && |Split(cursor, DOT)| == 3
    ensures var parts := Split(cursor, DOT); WellFormed(parts[0] + [DOT] + parts[1])
  {
    var parts := Split(cursor, DOT);
    JoinOfSplit(cursor, DOT);
    assert parts[1..] == [parts[1], parts[2]] && parts[1..][1..] == [parts[2]];
    assert Join(parts[1..][1..], DOT) == parts[2];
    assert Join(parts[1..], DOT) == parts[1] + [DOT] + parts[2];
    assert cursor == parts[0] + [DOT] + (parts[1] + [DOT] + parts[2]);
    assert cursor == (parts[0] + [DOT] + parts[1]) + [DOT] + parts[2];
    WellFormedPieces(parts[0] + [DOT] + parts[1], DOT, parts[2]);
  }

  // ---- What a cursor says ----

  /** An object of exactly three members. */
  predicate IsPayload(m: Option<Meaning>, p: Payload) {
    m == Some(MObj(map[Ascii("peerFp") := MStr(p.peerFp), Ascii("fromSeq") := MNum(p.fromSeq), Ascii("ts") := MNum(p.ts)]))
  }

  lemma PayloadMeaning(p: Payload)
    ensures FieldsCanonicalizable(PayloadFields(p))
    ensures IsPayload(Some(MObj(FieldMeanings(PayloadFields(p)))), p)
  {
    PayloadMembers(p);
    var o, x, y, z := FieldMeanings(PayloadFields(p)), Ascii("peerFp"), Ascii("fromSeq"), Ascii("ts");
    forall k | k in o ensures k == x || k == y || k == z { PayloadKey(p, k); }
    assert |x| == 6 && |y| == 7 && |z| == 2;
    assert o == map[x := MStr(p.peerFp), y := MNum(p.fromSeq), z := MNum(p.ts)];
  }

  lemma PayloadKey(p: Payload, k: Text)
    requires FieldsCanonicalizable(PayloadFields(p)) && k in FieldMeanings(PayloadFields(p))
    ensures k == Ascii("peerFp") || k == Ascii("fromSeq") || k == Ascii("ts")
  {
    var i := KeyFromMeaning(PayloadFields(p), k);
    assert PayloadFields(p)[i].key == k;
  }

  lemma PayloadTextSays(p: Payload)
    ensures IsPayload(CanonicalJson.Decode(Utf8.Decode(Encode(PayloadText(p)))), p)
  {
    hide IsPayload, PayloadFields, CanonicalJson.Decode, Utf8.Decode, Stringify;
    PayloadBytesReadBack(p);
    PayloadMeaning(p);
    var v := Obj(PayloadFields(p));
    PayloadCanonicalizable(p);
    DecodeOfStringify(v);
    assert MeaningOf(v) == MObj(FieldMeanings(PayloadFields(p)));
  }

  /** The base64url bytes of a part are the JSON of the payload. */
  predicate CarriesPayload(part: Text, p: Payload) {
    var body := Base64Url.B64Decode(part);
    body.Some? && IsPayload(CanonicalJson.Decode(Utf8.Decode(body.value)), p)
  }

  /** Between dots: the version, the payload, and the MAC of both. */
  lemma CursorSaysPayload(mac: Mac, p: Payload)
    ensures var parts := Split(SignCursor(mac, p), 46);
      && |parts| == 3 && parts[0] == Ascii("v1") && CarriesPayload(parts[1], p)
      && Base64Url.B64Decode(parts[2]) == Some(mac(Encode(parts[0] + [46] + parts[1])))
  {
    hide IsPayload, PayloadText, Encode, Split, Base64Url.B64Encode, Base64Url.B64Decode;
    CursorParts(mac, p);
    Base64Url.RoundTrip(mac(Encode(HeaderAndBody(p))));
    Base64Url.RoundTrip(Encode(PayloadText(p)));
    PayloadTextSays(p);
  }
}
