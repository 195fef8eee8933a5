/**
 The two halves of the lease envelope: the shim signs a request
 (src/harness-shim/lease-signer.ts) and the middleware rebuilds the signed bytes
 from the headers (src/routes/lease-middleware.ts).
 */
module LeaseEnvelope {
  import opened Wrappers
  import opened Utf8
  import opened Sequences
  import opened Base64Url
  import Decimal

  type Text = seq<Unit>
  type Bytes = seq<Byte>

  type PlainInt = Decimal.PlainInt

  const LF: Unit := 10
  const SPACE: Unit := 32

  datatype Headers = Headers(
    authorization: Option<Text>,
    sig: Option<Text>,
    ts: Option<Text>,
    nonce: Option<Text>)

  // ---- The client half ----

  /** One field and its line feed, then the rest. */
  function Line(field: Text, rest: Text): Text {
    field + [LF] + rest
  }

  function SignerText(verb: Text, url: Text, tsMs: PlainInt, nonceB64: Text, body: Text): Text {
    Line(verb, Line(url, Line(Decimal.Text(tsMs), Line(nonceB64, body))))
  }

  function SignedBytes(verb: Text, url: Text, tsMs: PlainInt, nonce: Bytes, body: Text): Bytes {
    Encode(SignerText(verb, url, tsMs, B64Encode(nonce), body))
  }

  /** `signLeaseHeaders`; `sign` is Ed25519 under the identity's private seed. */
  function SignLeaseHeaders(verb: Text, url: Text, body: Text, certB64: Text, tsMs: PlainInt, nonce: Bytes,
                            sign: Bytes -> Bytes): Headers {
    Headers(
      Some(Ascii("Signet ") + certB64),
      Some(B64Encode(sign(SignedBytes(verb, url, tsMs, nonce, body)))),
      Some(Decimal.Text(tsMs)),
      Some(B64Encode(nonce)))
  }

  // ---- The server half ----

  datatype ParsedAuthHeaders = ParsedAuthHeaders(certDer: Bytes, sig: Bytes, ts: int, nonce: Bytes)

  datatype AuthHeaderError =
    | MissingAuthorization
    | WrongScheme(scheme: Text)
    | MissingSignature
    | MissingTimestamp
    | MissingNonce
    | BadBase64(field: string)

  /** White space and line terminators of ECMA-262. */
  predicate IsJsSpace(u: Unit) {
    9 <= u <= 13 || u == 32 || u == 0xA0 || u == 0x1680 || 0x2000 <= u <= 0x200A ||
    u == 0x2028 || u == 0x2029 || u == 0x202F || u == 0x205F || u == 0x3000 || u == 0xFEFF
  }

  function TrimStart(s: Text): Text {
    if s != [] && IsJsSpace(s[0]) then TrimStart(s[1..]) else s
  }

  function TrimEnd(s: Text): Text {
    if s != [] && IsJsSpace(s[|s| - 1]) then TrimEnd(s[..|s| - 1]) else s
  }

  function Trim(s: Text): Text { TrimEnd(TrimStart(s)) }

  /** `Number.parseInt(s, 10)`; None is NaN. */
  function ParseInt(s: Text): Option<int> {
    var t := TrimStart(s);
    var negative := t != [] && t[0] == Decimal.MINUS;
    var d := if t != [] && (t[0] == Decimal.MINUS || t[0] == 43) then t[1..] else t;
    var k := Decimal.DigitRun(d);
    if k == 0 then None
    else
      var v := Decimal.DigitsValue(d[..k]);
      Some(if negative then -v else v)
  }

  /** A header that is absent or empty counts as missing. */
  predicate Present(h: Option<Text>) { h.Some? && h.value != [] }

  function ParseCert(h: Option<Text>): Result<Bytes, AuthHeaderError> {
    if !Present(h) then Err(MissingAuthorization)
    else
      var authz := h.value;
      var space := Find(authz, SPACE);
      if space == |authz| then Err(WrongScheme(authz))
      else if authz[..space] != Ascii("Signet") then Err(WrongScheme(authz[..space]))
      else
        match B64Decode(Trim(authz[space + 1..]))
        case None => Err(BadBase64("Authorization"))
        case Some(certDer) => Ok(certDer)
  }

  function ParseB64(h: Option<Text>, missing: AuthHeaderError, field: string): Result<Bytes, AuthHeaderError> {
    if !Present(h) then Err(missing)
    else
      match B64Decode(h.value)
      case None => Err(BadBase64(field))
      case Some(b) => Ok(b)
  }

  function ParseTs(h: Option<Text>): Result<int, AuthHeaderError> {
    if !Present(h) then Err(MissingTimestamp)
    else
      match ParseInt(h.value)
      case None => Err(MissingTimestamp)
      case Some(ts) => if ts <= 0 then Err(MissingTimestamp) else Ok(ts)
  }

  /** The first malformed header, in this order, decides the error. */
  function ParseAuthHeaders(h: Headers): Result<ParsedAuthHeaders, AuthHeaderError> {
    match ParseCert(h.authorization)
    case Err(e) => Err(e)
    case Ok(certDer) =>
      match ParseB64(h.sig, MissingSignature, "X-Signet-Sig")
      case Err(e) => Err(e)
      case Ok(sig) =>
        match ParseTs(h.ts)
        case Err(e) => Err(e)
        case Ok(ts) =>
          match ParseB64(h.nonce, MissingNonce, "X-Signet-Nonce")
          case Err(e) => Err(e)
          case Ok(nonce) => Ok(ParsedAuthHeaders(certDer, sig, ts, nonce))
  }

  function CanonicalRequestBytes(verb: Text, url: Text, ts: PlainInt, nonce: Bytes, body: Text): Bytes {
    var nonceB64 := B64Encode(nonce);
    Encode(Line(verb, Line(url, Line(Decimal.Text(ts), Line(nonceB64, body)))))
  }

  // ---- Parsing what the shim sends ----

  lemma ParseIntOfText(n: PlainInt)
    ensures ParseInt(Decimal.Text(n)) == Some(n)
  {
    var t := Decimal.Text(n);
    assert TrimStart(t) == t;
    var m: int := n;
    var size := if m < 0 then -m else m;
    var d := Decimal.Digits(size);
    Decimal.DigitRunOfDigits(size, []);
    assert d + [] == d;
    Decimal.DigitsRoundTrip(size);
    assert d[..|d|] == d;
    if n < 0 { assert t[1..] == d; }
  }

  lemma TrimOfB64(b: Bytes)
    ensures Trim(B64Encode(b)) == B64Encode(b)
  {
    EncodeAlphabet(b);
    var s := B64Encode(b);
    assert forall i | 0 <= i < |s| :: !IsJsSpace(s[i]);
    assert TrimStart(s) == s && TrimEnd(s) == s;
  }

  lemma ParseCertOfSigner(certDer: Bytes)
    ensures ParseCert(Some(Ascii("Signet ") + B64Encode(certDer))) == Ok(certDer)
  {
    var certB64 := B64Encode(certDer);
    var authz := Ascii("Signet ") + certB64;
    var scheme := Ascii("Signet");
    assert SPACE !in scheme;
    assert authz == scheme + [SPACE] + certB64;
    FindSplits(scheme, SPACE, certB64);
    assert authz[..6] == scheme && authz[7..] == certB64;
    TrimOfB64(certDer);
    Base64Url.RoundTrip(certDer);
  }

  lemma ParseB64OfSigner(b: Bytes, missing: AuthHeaderError, field: string)
    ensures ParseB64(Some(B64Encode(b)), missing, field) == if b == [] then Err(missing) else Ok(b)
  {
    Base64Url.RoundTrip(b);
    EncodeAlphabet(b);
    assert B64Encode([]) == [];
  }

  /**
   What the middleware parses from the shim's headers, for every timestamp and
   nonce: the shim's own values, unless the timestamp is not positive or the
   nonce is empty.
   */
  lemma ParseOfSignedHeaders(verb: Text, url: Text, body: Text, certDer: Bytes, tsMs: PlainInt, nonce: Bytes,
                             sign: Bytes -> Bytes)
    requires sign(SignedBytes(verb, url, tsMs, nonce, body)) != []
    ensures ParseAuthHeaders(SignLeaseHeaders(verb, url, body, B64Encode(certDer), tsMs, nonce, sign)) ==
      if tsMs <= 0 then Err(MissingTimestamp)
      else if nonce == [] then Err(MissingNonce)
      else Ok(ParsedAuthHeaders(certDer, sign(SignedBytes(verb, url, tsMs, nonce, body)), tsMs, nonce))
  {
    var sig := sign(SignedBytes(verb, url, tsMs, nonce, body));
    ParseCertOfSigner(certDer);
    ParseB64OfSigner(sig, MissingSignature, "X-Signet-Sig");
    ParseB64OfSigner(nonce, MissingNonce, "X-Signet-Nonce");
    ParseIntOfText(tsMs);
  }

  /** The middleware verifies the very signature over the very bytes the shim signed. */
  lemma VerifierSeesSignedBytes(verb: Text, url: Text, body: Text, certDer: Bytes, tsMs: PlainInt, nonce: Bytes,
                                sign: Bytes -> Bytes)
    requires sign(SignedBytes(verb, url, tsMs, nonce, body)) != []
    requires tsMs > 0 && nonce != []
    ensures var r := ParseAuthHeaders(SignLeaseHeaders(verb, url, body, B64Encode(certDer), tsMs, nonce, sign));
      && r.Ok?
      && r.value.ts == tsMs
      && r.value.sig == sign(CanonicalRequestBytes(verb, url, tsMs, r.value.nonce, body))
  {
    ParseOfSignedHeaders(verb, url, body, certDer, tsMs, nonce, sign);
  }

  // ---- The bytes pin every field ----

  lemma B64HasNoLf(b: Bytes)
    ensures LF !in B64Encode(b)
  {
    EncodeAlphabet(b);
  }

  /** Same text exactly when every field is the same, for LF-free methods and URLs. */
  lemma SignerTextInjective(m1: Text, u1: Text, t1: PlainInt, n1: Bytes, b1: Text,
                            m2: Text, u2: Text, t2: PlainInt, n2: Bytes, b2: Text)
    requires LF !in m1 && LF !in u1 && LF !in m2 && LF !in u2
    ensures SignerText(m1, u1, t1, B64Encode(n1), b1) == SignerText(m2, u2, t2, B64Encode(n2), b2)
      <==> m1 == m2 && u1 == u2 && t1 == t2 && n1 == n2 && b1 == b2
  {
    if SignerText(m1, u1, t1, B64Encode(n1), b1) == SignerText(m2, u2, t2, B64Encode(n2), b2) {
      var r1, r2 := Line(B64Encode(n1), b1), Line(B64Encode(n2), b2);
      var q1, q2 := Line(Decimal.Text(t1), r1), Line(Decimal.Text(t2), r2);
      FirstSeparatorUnique(m1, Line(u1, q1), m2, Line(u2, q2), LF);
      FirstSeparatorUnique(u1, q1, u2, q2, LF);
      FirstSeparatorUnique(Decimal.Text(t1), r1, Decimal.Text(t2), r2, LF);
      B64HasNoLf(n1);
      B64HasNoLf(n2);
      FirstSeparatorUnique(B64Encode(n1), b1, B64Encode(n2), b2, LF);
      Decimal.TextInjective(t1, t2);
      Base64Url.Injective(n1, n2);
    }
  }

  lemma LineWellFormed(field: Text, rest: Text)
    requires WellFormed(field) && WellFormed(rest)
    ensures WellFormed(Line(field, rest))
  {
    WellFormedAppend(field, [LF]);
    WellFormedAppend(field + [LF], rest);
  }

  lemma SignerTextWellFormed(verb: Text, url: Text, ts: PlainInt, nonce: Bytes, body: Text)
    requires WellFormed(verb) && WellFormed(url) && WellFormed(body)
    ensures WellFormed(SignerText(verb, url, ts, B64Encode(nonce), body))
  {
    EncodeAlphabet(nonce);
    NoSurrogatesWellFormed(Decimal.Text(ts));
    NoSurrogatesWellFormed(B64Encode(nonce));
    LineWellFormed(B64Encode(nonce), body);
    LineWellFormed(Decimal.Text(ts), Line(B64Encode(nonce), body));
    LineWellFormed(url, Line(Decimal.Text(ts), Line(B64Encode(nonce), body)));
    LineWellFormed(verb, Line(url, Line(Decimal.Text(ts), Line(B64Encode(nonce), body))));
  }

  /** The signed bytes pin the request: one signature covers one request. */
  lemma CanonicalBytesInjective(m1: Text, u1: Text, t1: PlainInt, n1: Bytes, b1: Text,
                                m2: Text, u2: Text, t2: PlainInt, n2: Bytes, b2: Text)
    requires LF !in m1 && LF !in u1 && LF !in m2 && LF !in u2
    requires WellFormed(m1) && WellFormed(u1) && WellFormed(b1)
    requires WellFormed(m2) && WellFormed(u2) && WellFormed(b2)
    ensures CanonicalRequestBytes(m1, u1, t1, n1, b1) == CanonicalRequestBytes(m2, u2, t2, n2, b2)
      <==> m1 == m2 && u1 == u2 && t1 == t2 && n1 == n2 && b1 == b2
  {
    SignerTextWellFormed(m1, u1, t1, n1, b1);
    SignerTextWellFormed(m2, u2, t2, n2, b2);
    EncodeInjective(SignerText(m1, u1, t1, B64Encode(n1), b1), SignerText(m2, u2, t2, B64Encode(n2), b2));
    SignerTextInjective(m1, u1, t1, n1, b1, m2, u2, t2, n2, b2);
  }

  /** No HTTP method holds a line feed; this only shows that the injectivity above needs its condition. */
  lemma LfInMethodIsAmbiguous(a: Text, b: Text, c: Text, ts: PlainInt, nonce: Bytes, body: Text)
    ensures CanonicalRequestBytes(a + [LF] + b, c, ts, nonce, body)
         == CanonicalRequestBytes(a, b + [LF] + c, ts, nonce, body)
  {
    var rest := Line(Decimal.Text(ts), Line(B64Encode(nonce), body));
    assert Line(a + [LF] + b, Line(c, rest)) == Line(a, Line(b + [LF] + c, rest));
  }

  // ---- Reading the signed text back ----

  /** Method, URL, decimal time and base64url nonce are the first four lines; the body is everything after them. */
  predicate SignedLines(text: Text, verb: Text, url: Text, ts: int, nonce: Bytes, body: Text) {
    var lines := Split(text, 10);
    && |lines| >= 5 && lines[0] == verb && lines[1] == url && Decimal.ReadsAsInt(lines[2], ts)
    && B64Decode(lines[3]) == Some(nonce) && Join(lines[4..], 10) == body
  }

  lemma SplitLine(field: Text, rest: Text)
    requires LF !in field
    ensures Split(Line(field, rest), LF) == [field] + Split(rest, LF)
  {
    FindSplits(field, LF, rest);
    assert Line(field, rest)[..|field|] == field && Line(field, rest)[|field| + 1..] == rest;
  }

  lemma FourLines(a: Text, b: Text, c: Text, d: Text, rest: seq<Text>)
    ensures var lines := [a] + ([b] + ([c] + ([d] + rest)));
      |lines| == 4 + |rest| && lines[0] == a && lines[1] == b && lines[2] == c && lines[3] == d && lines[4..] == rest
  {
  }

  /** The bytes the middleware verifies, read back line by line. */
  lemma CanonicalBytesSayTheRequest(verb: Text, url: Text, ts: PlainInt, nonce: Bytes, body: Text)
    requires LF !in verb && LF !in url && WellFormed(verb) && WellFormed(url) && WellFormed(body)
    ensures SignedLines(Decode(CanonicalRequestBytes(verb, url, ts, nonce, body)), verb, url, ts, nonce, body)
  {
    hide Decimal.ReadsAsInt, Decode, Encode, Split, Decimal.Text, B64Encode, B64Decode;
    var time, n := Decimal.Text(ts), B64Encode(nonce);
    SignerTextWellFormed(verb, url, ts, nonce, body);
    Utf8.RoundTrip(SignerText(verb, url, ts, n, body));
    B64HasNoLf(nonce);
    SplitLine(n, body);
    SplitLine(time, Line(n, body));
    SplitLine(url, Line(time, Line(n, body)));
    SplitLine(verb, Line(url, Line(time, Line(n, body))));
    FourLines(verb, url, time, n, Split(body, LF));
    Decimal.IntReadBack(ts);
    Base64Url.RoundTrip(nonce);
    JoinOfSplit(body, LF);
  }

  // ---- Which header decides an error ----

  predicate CertOk(h: Headers) { ParseCert(h.authorization).Ok? }

  predicate Decodes(h: Option<Text>) { Present(h) && B64Decode(h.value).Some? }

  /** Present, and it starts with a positive number. */
  predicate PositiveTime(h: Option<Text>) { Present(h) && ParseInt(h.value).Some? && ParseInt(h.value).value > 0 }

  /** The headers are checked as certificate, signature, time, nonce; the first bad one names the error. */
  lemma FirstBadHeaderDecides(h: Headers)
    ensures var r := ParseAuthHeaders(h);
      && (r.Ok? <==> CertOk(h) && Decodes(h.sig) && PositiveTime(h.ts) && Decodes(h.nonce))
      && (r == Err(MissingAuthorization) <==> !Present(h.authorization))
      && (r == Err(MissingSignature) <==> CertOk(h) && !Present(h.sig))
      && (r == Err(BadBase64("X-Signet-Sig")) <==> CertOk(h) && Present(h.sig) && !Decodes(h.sig))
      && (r == Err(MissingTimestamp) <==> CertOk(h) && Decodes(h.sig) && !PositiveTime(h.ts))
      && (r == Err(MissingNonce) <==> CertOk(h) && Decodes(h.sig) && PositiveTime(h.ts) && !Present(h.nonce))
      && (r == Err(BadBase64("X-Signet-Nonce"))
          <==> CertOk(h) && Decodes(h.sig) && PositiveTime(h.ts) && Present(h.nonce) && !Decodes(h.nonce))
  {
  }

  /** The code units of WhiteSpace and LineTerminator, sections 12.2 and 12.3 of ECMA-262. */
  function WhiteSpaceUnits(): set<int> {
    { 9, 10, 11, 12, 13, 32, 0xA0, 0x1680, 0x2000, 0x2001, 0x2002, 0x2003, 0x2004, 0x2005, 0x2006, 0x2007, 0x2008,
      0x2009, 0x200A, 0x2028, 0x2029, 0x202F, 0x205F, 0x3000, 0xFEFF }
  }

  lemma SpacesListed(u: Unit)
    ensures IsJsSpace(u) <==> u in WhiteSpaceUnits()
  {
  }

  /** Text that starts with anything but white space, a sign or a digit is no number. */
  lemma ParseIntRefuses(spaces: Text, u: Unit, rest: Text)
    requires forall i | 0 <= i < |spaces| :: spaces[i] in WhiteSpaceUnits()
    requires u !in WhiteSpaceUnits() && u != 43 && u != 45 && !(48 <= u <= 57)
    ensures ParseInt(spaces + ([u] + rest)) == None && ParseInt(spaces) == None
  {
    forall i | 0 <= i < |spaces| ensures IsJsSpace(spaces[i]) { SpacesListed(spaces[i]); }
    SpacesListed(u);
    TrimSpaces(spaces, [u] + rest);
    OnlySpaces(spaces);
  }

  lemma {:induction false} OnlySpaces(spaces: Text)
    requires forall i | 0 <= i < |spaces| :: IsJsSpace(spaces[i])
    ensures TrimStart(spaces) == []
  {
    if spaces != [] { OnlySpaces(spaces[1..]); }
  }

  /** Leading white space, at most one sign, digits, and then anything that does not go on with a digit. */
  lemma ParseIntReads(spaces: Text, sign: Text, digits: Text, junk: Text)
    requires forall i | 0 <= i < |spaces| :: spaces[i] in WhiteSpaceUnits()
    requires sign in {[], [43], [45]} && digits != [] && forall i | 0 <= i < |digits| :: 48 <= digits[i] <= 57
    requires junk == [] || !(48 <= junk[0] <= 57)
    ensures var value := Decimal.NumeralValue(digits);
      ParseInt(spaces + sign + digits + junk) == Some(if sign == [45] then -value else value)
  {
    forall i | 0 <= i < |spaces| ensures IsJsSpace(spaces[i]) { SpacesListed(spaces[i]); }
    ParseIntSkips(spaces, sign, digits, junk);
  }

  lemma ParseIntSkips(spaces: Text, sign: Text, digits: Text, junk: Text)
    requires forall i | 0 <= i < |spaces| :: IsJsSpace(spaces[i])
    requires sign in {[], [43], [45]} && digits != [] && forall i | 0 <= i < |digits| :: 48 <= digits[i] <= 57
    requires junk == [] || !(48 <= junk[0] <= 57)
    ensures var value := Decimal.NumeralValue(digits);
      ParseInt(spaces + sign + digits + junk) == Some(if sign == [45] then -value else value)
  {
    hide ParseInt, TrimStart, Decimal.DigitRun, Decimal.DigitsValue, Decimal.NumeralValue;
    var rest := digits + junk;
    var t := sign + rest;
    assert spaces + sign + digits + junk == spaces + t;
    assert t[0] == (if sign == [] then digits[0] else sign[0]);
    TrimSpaces(spaces, t);
    RunOf(digits, junk);
    SameValue(digits);
    assert rest[..|digits|] == digits && rest[0] == digits[0];
    ParseIntOfTrimmed(spaces + t, sign, rest, digits);
  }

  lemma ParseIntOfTrimmed(s: Text, sign: Text, rest: Text, digits: Text)
    requires TrimStart(s) == sign + rest && sign in {[], [43], [45]}
    requires digits <= rest && digits != [] && 48 <= digits[0] <= 57
    requires Decimal.DigitRun(rest) == |digits|
    requires forall i | 0 <= i < |digits| :: Decimal.IsDigit(digits[i])
    ensures ParseInt(s) == Some(if sign == [45] then -Decimal.DigitsValue(digits) else Decimal.DigitsValue(digits))
  {
    hide TrimStart, Decimal.DigitRun, Decimal.DigitsValue;
    var t := sign + rest;
    assert rest[..|digits|] == digits && t[|sign|..] == rest;
    if sign == [] { assert t == rest; } else { assert t[0] == sign[0] && t[1..] == rest; }
  }

  lemma {:induction false} TrimSpaces(spaces: Text, t: Text)
    requires (forall i | 0 <= i < |spaces| :: IsJsSpace(spaces[i])) && t != [] && !IsJsSpace(t[0])
    ensures TrimStart(spaces + t) == t
  {
    if spaces == [] {
      assert spaces + t == t;
    } else {
      assert (spaces + t)[1..] == spaces[1..] + t;
      TrimSpaces(spaces[1..], t);
    }
  }

  lemma {:induction false} RunOf(digits: Text, junk: Text)
    requires (forall i | 0 <= i < |digits| :: 48 <= digits[i] <= 57) && (junk == [] || !(48 <= junk[0] <= 57))
    ensures Decimal.DigitRun(digits + junk) == |digits|
  {
    if digits == [] {
      assert digits + junk == junk;
    } else {
      assert (digits + junk)[1..] == digits[1..] + junk;
      RunOf(digits[1..], junk);
    }
  }

  lemma {:induction false} SameValue(digits: Text)
    requires forall i | 0 <= i < |digits| :: 48 <= digits[i] <= 57
    ensures (forall i | 0 <= i < |digits| :: Decimal.IsDigit(digits[i]))
    ensures Decimal.DigitsValue(digits) == Decimal.NumeralValue(digits)
  {
    if digits != [] { SameValue(digits[..|digits| - 1]); }
  }
}
