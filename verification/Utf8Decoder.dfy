/**
 The UTF-8 decoder of the Encoding Standard (section 8.1.1) as
 `new TextDecoder().decode(chunk, { stream: true })` runs it on one chunk: ill-formed
 bytes become U+FFFD, a sequence cut off by the chunk's end is kept back, and a leading
 byte order mark is removed.
 */
module Utf8Decoder {
  import opened Utf8
  import opened Sequences

  type Bytes = seq<Byte>

  const REPLACEMENT: Unit := 0xFFFD
  const BOM_UNIT: Unit := 0xFEFF

  function Bom(): Bytes { [0xEF, 0xBB, 0xBF] }

  function ReplacementBytes(): Bytes { [0xEF, 0xBF, 0xBD] }

  predicate IsScalar(c: int) { 0 <= c < 0x110000 && !IsSurrogate(c) }

  /** A byte that announces continuation bytes. */
  predicate IsMulti(b: int) { 0xC2 <= b < 0xF5 }

  function Needed(b: int): nat { if b < 0xE0 then 1 else if b < 0xF0 then 2 else 3 }

  /** The range of the second byte excludes overlong forms, surrogates and values above U+10FFFF. */
  predicate SecondOk(lead: int, b: int) {
    && (if lead == 0xE0 then 0xA0 else if lead == 0xF0 then 0x90 else 0x80) <= b
    && b <= (if lead == 0xED then 0x9F else if lead == 0xF4 then 0x8F else 0xBF)
  }

  predicate IsContinuation(b: int) { 0x80 <= b < 0xC0 }

  /** How many of the announced continuation bytes are there. */
  function GoodTail(b: Bytes): (k: nat)
    requires b != [] && IsMulti(b[0])
    ensures k <= Needed(b[0]) && 1 + k <= |b|
  {
    var n := Needed(b[0]);
    if |b| < 2 || !SecondOk(b[0], b[1]) then 0
    else if n == 1 || |b| < 3 || !IsContinuation(b[2]) then 1
    else if n == 2 || |b| < 4 || !IsContinuation(b[3]) then 2
    else 3
  }

  datatype Item = Scalar(c: int, used: nat) | Bad(used: nat) | Incomplete

  /** The first item of a byte string: a scalar value, bytes to replace, or a sequence that stops too early. */
  function Head(b: Bytes): (item: Item)
    requires b != []
    ensures !item.Incomplete? ==> 1 <= item.used <= |b|
  {
    if b[0] < 0x80 then Scalar(b[0], 1)
    else if !IsMulti(b[0]) then Bad(1)
    else
      var k := GoodTail(b);
      if k == Needed(b[0]) then Scalar(DecodeScalar(b), 1 + k)
      else if 1 + k == |b| then Incomplete
      else Bad(1 + k)
  }

  lemma TwoByteScalar(b: Bytes)
    requires |b| >= 2 && 0xC2 <= b[0] < 0xE0 && SecondOk(b[0], b[1])
    ensures var c := DecodeScalar(b); IsScalar(c) && EncodeScalar(c) == b[..2]
  {
    var c := DecodeScalar(b);
    assert c / 0x40 == b[0] - 0xC0 && c % 0x40 == b[1] - 0x80;
  }

  lemma ThreeByteScalar(b: Bytes)
    requires |b| >= 3 && 0xE0 <= b[0] < 0xF0 && SecondOk(b[0], b[1]) && IsContinuation(b[2])
    ensures var c := DecodeScalar(b); IsScalar(c) && EncodeScalar(c) == b[..3]
  {
    var c := DecodeScalar(b);
    var lead: int, second: int := b[0], b[1];
    var q := (lead - 0xE0) * 0x40 + (second - 0x80);
    assert c / 0x40 == q && c % 0x40 == b[2] - 0x80;
    assert q / 0x40 == b[0] - 0xE0 && q % 0x40 == b[1] - 0x80;
  }

  lemma FourByteScalar(b: Bytes)
    requires |b| >= 4 && 0xF0 <= b[0] < 0xF5 && SecondOk(b[0], b[1]) && IsContinuation(b[2]) && IsContinuation(b[3])
    ensures var c := DecodeScalar(b); IsScalar(c) && EncodeScalar(c) == b[..4]
  {
    var c := DecodeScalar(b);
    var lead: int, second: int := b[0], b[1];
    var p := (lead - 0xF0) * 0x40 + (second - 0x80);
    var q := p * 0x40 + (b[2] - 0x80);
    assert c / 0x40 == q && c % 0x40 == b[3] - 0x80;
    assert q / 0x40 == p && q % 0x40 == b[2] - 0x80;
    assert p / 0x40 == b[0] - 0xF0 && p % 0x40 == b[1] - 0x80;
  }

  /** A decoded scalar value is one, and its encoding is the bytes it was read from. */
  lemma HeadIsEncoded(b: Bytes)
    requires b != [] && Head(b).Scalar?
    ensures IsScalar(Head(b).c) && EncodeScalar(Head(b).c) == b[..Head(b).used]
  {
    if b[0] < 0x80 {
    } else if Needed(b[0]) == 1 {
      TwoByteScalar(b);
    } else if Needed(b[0]) == 2 {
      ThreeByteScalar(b);
    } else {
      FourByteScalar(b);
    }
  }

  /** The encoder's output for a scalar value is read back as that value. */
  lemma EncodedIsHead(c: int, rest: Bytes)
    requires IsScalar(c)
    ensures Head(EncodeScalar(c) + rest) == Scalar(c, |EncodeScalar(c)|)
  {
    var e := EncodeScalar(c);
    var b := e + rest;
    DecodeScalarOfEncode(c, rest);
    assert forall i | 0 <= i < |e| :: b[i] == e[i];
    if c >= 0x80 { EncodedTail(c, rest); }
  }

  lemma EncodedTail(c: int, rest: Bytes)
    requires IsScalar(c) && c >= 0x80
    ensures var b := EncodeScalar(c) + rest; IsMulti(b[0]) && GoodTail(b) == Needed(b[0]) == |EncodeScalar(c)| - 1
  {
    var e := EncodeScalar(c);
    var b := e + rest;
    assert forall i | 0 <= i < |e| :: b[i] == e[i];
  }

  function Decoded(b: Bytes): seq<Unit>
    decreases |b|
  {
    if b == [] then []
    else
      match Head(b)
      case Scalar(c, n) => HeadIsEncoded(b); ScalarUnits(c) + Decoded(b[n..])
      case Bad(n) => [REPLACEMENT] + Decoded(b[n..])
      case Incomplete => []
  }

  /** What one call of a fresh decoder returns. */
  function DecodeChunk(b: Bytes): seq<Unit> {
    var t := Decoded(b);
    if t != [] && t[0] == BOM_UNIT then t[1..] else t
  }

  /** Well-formed UTF-8. */
  predicate ValidUtf8(b: Bytes)
    decreases |b|
  {
    b == [] || (Head(b).Scalar? && ValidUtf8(b[Head(b).used..]))
  }

  // ---- The decoder and the encoder ----

  lemma UnitsEncoded(c: int, t: seq<Unit>)
    requires IsScalar(c)
    ensures WellFormed(ScalarUnits(c))
    ensures Encode(ScalarUnits(c) + t) == EncodeScalar(c) + Encode(t)
  {
    var u := ScalarUnits(c);
    if c >= 0x10000 {
      assert IsLead(u[0]) && IsTrail(u[1]) && u[2..] == [];
      assert PairScalar(u[0], u[1]) == c;
      assert (u + t)[0] == u[0] && (u + t)[1] == u[1] && (u + t)[2..] == t;
    } else {
      assert u[1..] == [] && (u + t)[1..] == t;
    }
  }

  /** Whatever the bytes, the decoded text has no unpaired surrogate. */
  lemma {:induction false} DecodedWellFormed(b: Bytes)
    ensures WellFormed(Decoded(b))
    decreases |b|
  {
    if b != [] && !Head(b).Incomplete? {
      DecodedWellFormed(b[Head(b).used..]);
      match Head(b)
      case Scalar(c, n) =>
        HeadIsEncoded(b);
        UnitsEncoded(c, []);
        WellFormedAppend(ScalarUnits(c), Decoded(b[n..]));
      case Bad(n) =>
        assert ([REPLACEMENT] + Decoded(b[n..]))[1..] == Decoded(b[n..]);
    }
  }

  lemma ChunkTextWellFormed(b: Bytes)
    ensures WellFormed(DecodeChunk(b))
  {
    DecodedWellFormed(b);
  }

  lemma DecodedScalar(b: Bytes)
    requires b != [] && Head(b).Scalar?
    ensures IsScalar(Head(b).c) && Decoded(b) == ScalarUnits(Head(b).c) + Decoded(b[Head(b).used..])
  {
    HeadIsEncoded(b);
  }

  lemma EncodedStep(c: int, t: seq<Unit>, tail: seq<Unit>, front: Bytes)
    requires IsScalar(c) && t == ScalarUnits(c) + tail && EncodeScalar(c) == front
    ensures Encode(t) == front + Encode(tail)
  {
    UnitsEncoded(c, tail);
  }

  lemma ScalarSplit(b: Bytes)
    requires b != [] && Head(b).Scalar?
    ensures var n := Head(b).used; |b[..n]| == n >= 1 && b == b[..n] + b[n..]
  {
  }

  lemma {:induction false} ScalarText(b: Bytes)
    requires b != [] && Head(b).Scalar?
    ensures var n := Head(b).used; Encode(Decoded(b)) == b[..n] + Encode(Decoded(b[n..]))
  {
    HeadIsEncoded(b);
    DecodedScalar(b);
    EncodedStep(Head(b).c, Decoded(b), Decoded(b[Head(b).used..]), b[..Head(b).used]);
  }

  lemma ScalarStep(b: Bytes)
    requires b != [] && Head(b).Scalar?
    ensures var n := Head(b).used;
      Encode(Decoded(b)) == b[..n] + Encode(Decoded(b[n..])) && |b[..n]| == n >= 1 && b == b[..n] + b[n..]
  {
    ScalarText(b);
    ScalarSplit(b);
  }

  lemma {:induction false} ValidDecodes(b: Bytes)
    requires ValidUtf8(b)
    ensures Encode(Decoded(b)) == b
    decreases |b|
  {
    if b != [] {
      ScalarStep(b);
      ValidDecodes(b[Head(b).used..]);
    }
  }

  lemma FirstScalar(t: seq<Unit>)
    requires t != [] && WellFormed(t)
    ensures var n, c := if StartsWithPair(t) then 2 else 1, if StartsWithPair(t) then PairScalar(t[0], t[1]) else t[0];
      && IsScalar(c) && ScalarUnits(c) == t[..n] && Encode(t) == EncodeScalar(c) + Encode(t[n..]) && WellFormed(t[n..])
  {
    ScalarUnitsOfHead(t);
  }

  /** Encoded text is well-formed UTF-8 and decodes to itself. */
  lemma {:induction false} EncodedIsValid(t: seq<Unit>)
    requires WellFormed(t)
    ensures ValidUtf8(Encode(t)) && Decoded(Encode(t)) == t
    decreases |t|
  {
    if t != [] {
      var n := if StartsWithPair(t) then 2 else 1;
      var c := if StartsWithPair(t) then PairScalar(t[0], t[1]) else t[0];
      FirstScalar(t);
      EncodedIsValid(t[n..]);
      EncodedIsHead(c, Encode(t[n..]));
      assert Encode(t)[|EncodeScalar(c)|..] == Encode(t[n..]);
      assert t == t[..n] + t[n..];
    }
  }

  lemma ValidExactly(b: Bytes)
    ensures ValidUtf8(b) <==> Encode(Decoded(b)) == b
  {
    DecodedWellFormed(b);
    if ValidUtf8(b) { ValidDecodes(b); }
    EncodedIsValid(Decoded(b));
  }

  // ---- One chunk ----

  /** Well-formed and not headed by a byte order mark. */
  predicate Faithful(b: Bytes) { ValidUtf8(b) && !(Bom() <= b) }

  lemma BomIsUnit(b: Bytes)
    ensures Bom() <= b <==> Decoded(b) != [] && Decoded(b)[0] == BOM_UNIT
  {
    assert EncodeScalar(BOM_UNIT) == Bom();
    if Bom() <= b {
      assert b == EncodeScalar(BOM_UNIT) + b[3..];
      EncodedIsHead(BOM_UNIT, b[3..]);
    }
    if b != [] && Head(b).Scalar? {
      HeadIsEncoded(b);
      BomUnitScalar(Head(b).c);
    }
  }

  lemma BomUnitScalar(c: int)
    requires IsScalar(c)
    ensures ScalarUnits(c)[0] == BOM_UNIT <==> c == BOM_UNIT
  {
  }

  lemma DroppedBomShrinks(t: seq<Unit>)
    requires WellFormed(t) && t != [] && t[0] == BOM_UNIT
    ensures WellFormed(t[1..]) && Encode(t) == Bom() + Encode(t[1..])
  {
    assert EncodeScalar(BOM_UNIT) == Bom();
  }

  /** A chunk comes out as it went in exactly when it is well-formed UTF-8 without a leading byte order mark. */
  lemma FaithfulExactly(b: Bytes)
    ensures Encode(DecodeChunk(b)) == b <==> Faithful(b)
  {
    var t := Decoded(b);
    DecodedWellFormed(b);
    ValidExactly(b);
    if ValidUtf8(b) {
      BomIsUnit(b);
      if t != [] && t[0] == BOM_UNIT { DroppedBomShrinks(t); }
    } else if t != [] && t[0] == BOM_UNIT {
      DroppedBomShrinks(t);
      EncodedIsValid(t[1..]);
    }
  }

  /** A chunk cut between code points is faithful exactly when its text does not start with U+FEFF. */
  lemma FaithfulText(t: seq<Unit>)
    requires WellFormed(t)
    ensures Faithful(Encode(t)) <==> !(t != [] && t[0] == BOM_UNIT)
  {
    EncodedIsValid(t);
    BomIsUnit(Encode(t));
  }

  // ---- A sequence of chunks ----

  function DecodeAll(chunks: seq<Bytes>): (r: seq<seq<Unit>>)
    ensures |r| == |chunks|
    ensures forall i | 0 <= i < |r| :: r[i] == DecodeChunk(chunks[i])
  {
    if chunks == [] then [] else [DecodeChunk(chunks[0])] + DecodeAll(chunks[1..])
  }

  function TextOf(chunks: seq<Bytes>): seq<Unit> { Flatten(DecodeAll(chunks)) }

  lemma TextOfCons(chunks: seq<Bytes>)
    requires chunks != []
    ensures TextOf(chunks) == DecodeChunk(chunks[0]) + TextOf(chunks[1..])
    ensures Flatten(chunks) == chunks[0] + Flatten(chunks[1..])
  {
    assert DecodeAll(chunks)[1..] == DecodeAll(chunks[1..]);
  }

  lemma {:induction false} TextWellFormed(chunks: seq<Bytes>)
    ensures WellFormed(TextOf(chunks))
  {
    if chunks != [] {
      TextOfCons(chunks);
      TextWellFormed(chunks[1..]);
      ChunkTextWellFormed(chunks[0]);
      WellFormedAppend(DecodeChunk(chunks[0]), TextOf(chunks[1..]));
    }
  }

  lemma EncodedCons(chunks: seq<Bytes>)
    requires chunks != []
    ensures Encode(TextOf(chunks)) == Encode(DecodeChunk(chunks[0])) + Encode(TextOf(chunks[1..]))
  {
    TextOfCons(chunks);
    ChunkTextWellFormed(chunks[0]);
    EncodeAppend(DecodeChunk(chunks[0]), TextOf(chunks[1..]));
  }

  /** The chunk ends after the second byte of a U+FFFD and is well formed before that. */
  predicate EndsCut(b: Bytes) {
    |b| >= 2 && b[|b| - 2..] == [0xEF, 0xBF] && ValidUtf8(b[..|b| - 2])
  }

  /**
   Every chunk is well-formed UTF-8 on its own, except that a U+FFFD may be cut after its
   second byte; `owed` says that the chunks before have left such a cut open.
   */
  predicate Mended(chunks: seq<Bytes>, owed: bool) {
    if chunks == [] then !owed
    else if chunks[0] == [] then Mended(chunks[1..], owed)
    else
      var b := if owed then chunks[0][1..] else chunks[0];
      && (owed ==> chunks[0][0] == 0xBD)
      && ((ValidUtf8(b) && Mended(chunks[1..], false)) || (EndsCut(b) && Mended(chunks[1..], true)))
  }

  ghost predicate NoLeadingBom(chunks: seq<Bytes>) { forall i | 0 <= i < |chunks| :: !(Bom() <= chunks[i]) }

  ghost predicate Passes(chunks: seq<Bytes>) { NoLeadingBom(chunks) && Mended(chunks, false) }

  /** Chunks cut between code points, none of them headed by a byte order mark. */
  lemma {:induction false} FaithfulPasses(chunks: seq<Bytes>)
    requires forall i | 0 <= i < |chunks| :: Faithful(chunks[i])
    ensures Passes(chunks)
  {
    if chunks != [] { FaithfulPasses(chunks[1..]); }
  }

  // ---- What the decoder does to the weight of a chunk ----

  /**
   The bytes of U+FFFD weigh 1 in all and every other byte little. Replacing and losing
   bytes never makes a chunk lighter, so a stream that comes out unchanged has lost and
   replaced only what weighs the same.
   */
  function ByteWeight(b: int): int { if b == 0xEF then -1 else if b == 0xBF || b == 0xBD then 1 else -3 }

  function Weight(b: Bytes): int { if b == [] then 0 else ByteWeight(b[0]) + Weight(b[1..]) }

  lemma {:induction false} WeightAppend(a: Bytes, b: Bytes)
    ensures Weight(a + b) == Weight(a) + Weight(b)
  {
    if a == [] {
      assert a + b == b;
    } else {
      assert (a + b)[1..] == a[1..] + b;
      WeightAppend(a[1..], b);
    }
  }

  lemma ShortWeight(b: Bytes)
    requires 1 <= |b| <= 3
    ensures Weight(b) == ByteWeight(b[0]) + (if |b| > 1 then ByteWeight(b[1]) else 0) + (if |b| > 2 then ByteWeight(b[2]) else 0)
  {
    assert b[1..] == [] || (b[1..][0] == b[1] && b[1..][1..] == b[2..]);
    if |b| == 2 { assert b[2..] == []; }
    if |b| == 3 { assert b[2..][0] == b[2] && b[2..][1..] == []; }
  }

  /** Nothing is lost or replaced but single bytes 0xBF and 0xBD and a tail of two of the bytes of U+FFFD. */
  predicate Mild(b: Bytes)
    decreases |b|
  {
    b == [] ||
    match Head(b)
    case Scalar(_, n) => Mild(b[n..])
    case Bad(n) => n == 1 && (b[0] == 0xBF || b[0] == 0xBD) && Mild(b[n..])
    case Incomplete => b == [0xEF, 0xBF] || b == [0xEF, 0xBD]
  }

  lemma BadWeighs(b: Bytes)
    requires b != [] && Head(b).Bad?
    ensures var n := Head(b).used;
      Weight(b[..n]) <= 1 && (Weight(b[..n]) == 1 ==> n == 1 && (b[0] == 0xBF || b[0] == 0xBD))
  {
    ShortWeight(b[..Head(b).used]);
  }

  lemma IncompleteWeighs(b: Bytes)
    requires b != [] && Head(b).Incomplete?
    ensures Weight(b) <= 0 && (Weight(b) == 0 ==> b == [0xEF, 0xBF] || b == [0xEF, 0xBD])
  {
    ShortWeight(b);
    if Weight(b) == 0 { assert |b| == 2 && b == [b[0], b[1]]; }
  }

  lemma EncodedReplacement(tail: seq<Unit>)
    ensures Encode([REPLACEMENT] + tail) == ReplacementBytes() + Encode(tail)
  {
    assert ([REPLACEMENT] + tail)[1..] == tail;
    assert EncodeScalar(REPLACEMENT) == ReplacementBytes();
  }

  lemma {:induction false} BadStep(b: Bytes)
    requires b != [] && Head(b).Bad?
    ensures var n := Head(b).used;
      Encode(Decoded(b)) == ReplacementBytes() + Encode(Decoded(b[n..])) && b == b[..n] + b[n..]
  {
    var tail := Decoded(b[Head(b).used..]);
    assert Decoded(b) == [REPLACEMENT] + tail;
    EncodedReplacement(tail);
  }

  lemma ReplacementWeight()
    ensures Weight(ReplacementBytes()) == 1 && Weight(Bom()) == -3
  {
    ShortWeight(ReplacementBytes());
    ShortWeight(Bom());
  }

  lemma {:induction false} DecodedWeighs(b: Bytes)
    ensures Weight(Encode(Decoded(b))) >= Weight(b)
    ensures Weight(Encode(Decoded(b))) == Weight(b) ==> Mild(b)
    decreases |b|
  {
    if b != [] {
      if Head(b).Incomplete? {
        IncompleteWeighs(b);
      } else {
        var n := Head(b).used;
        DecodedWeighs(b[n..]);
        WeightAppend(b[..n], b[n..]);
        if Head(b).Scalar? {
          ScalarStep(b);
          WeightAppend(b[..n], Encode(Decoded(b[n..])));
        } else {
          BadStep(b);
          BadWeighs(b);
          ReplacementWeight();
          WeightAppend(ReplacementBytes(), Encode(Decoded(b[n..])));
        }
      }
    }
  }

  lemma ChunkWeighs(b: Bytes)
    ensures Weight(Encode(DecodeChunk(b))) >= Weight(b)
    ensures Weight(Encode(DecodeChunk(b))) == Weight(b) ==> Mild(b) && DecodeChunk(b) == Decoded(b)
  {
    var t := Decoded(b);
    DecodedWellFormed(b);
    DecodedWeighs(b);
    if t != [] && t[0] == BOM_UNIT {
      DroppedBomShrinks(t);
      WeightAppend(Bom(), Encode(t[1..]));
      ReplacementWeight();
    }
  }

  ghost predicate AllMild(chunks: seq<Bytes>) {
    forall i | 0 <= i < |chunks| :: Mild(chunks[i]) && DecodeChunk(chunks[i]) == Decoded(chunks[i])
  }

  lemma {:induction false} TextWeighs(chunks: seq<Bytes>)
    ensures Weight(Encode(TextOf(chunks))) >= Weight(Flatten(chunks))
    ensures Weight(Encode(TextOf(chunks))) == Weight(Flatten(chunks)) ==> AllMild(chunks)
  {
    if chunks != [] {
      TextOfCons(chunks);
      EncodedCons(chunks);
      ChunkWeighs(chunks[0]);
      TextWeighs(chunks[1..]);
      WeightAppend(chunks[0], Flatten(chunks[1..]));
      WeightAppend(Encode(DecodeChunk(chunks[0])), Encode(TextOf(chunks[1..])));
    }
  }

  // ---- Where lost bytes come back ----

  /** The output when no byte order mark is removed. */
  function RawOut(chunks: seq<Bytes>): Bytes {
    if chunks == [] then [] else Encode(Decoded(chunks[0])) + RawOut(chunks[1..])
  }

  lemma {:induction false} RawOutIsText(chunks: seq<Bytes>)
    ensures exists t :: WellFormed(t) && Encode(t) == RawOut(chunks)
  {
    if chunks == [] {
      assert WellFormed([]) && Encode([]) == RawOut(chunks);
    } else {
      RawOutIsText(chunks[1..]);
      var t :| WellFormed(t) && Encode(t) == RawOut(chunks[1..]);
      DecodedWellFormed(chunks[0]);
      WellFormedAppend(Decoded(chunks[0]), t);
      EncodeAppend(Decoded(chunks[0]), t);
    }
  }

  lemma {:induction false} RawOutIsOut(chunks: seq<Bytes>)
    requires forall i | 0 <= i < |chunks| :: DecodeChunk(chunks[i]) == Decoded(chunks[i])
    ensures RawOut(chunks) == Encode(TextOf(chunks))
  {
    if chunks != [] {
      EncodedCons(chunks);
      RawOutIsOut(chunks[1..]);
    }
  }

  /** Two bytes are lost at the end of the chunk and must be made up for by what follows. */
  predicate LosesTail(c: Bytes, out: Bytes, rest: Bytes) {
    && |c| >= 2 && ValidUtf8(c[..|c| - 2]) && out == c[|c| - 2..] + rest
    && (c[|c| - 2..] == [0xEF, 0xBF] || c[|c| - 2..] == [0xEF, 0xBD])
  }

  lemma CancelFront(front: Bytes, e: Bytes, out: Bytes, tail: Bytes, rest: Bytes)
    requires front + e + out == front + tail + rest
    ensures e + out == tail + rest
  {
    Regroup(front, e, out);
    Regroup(front, tail, rest);
    SamePrefix(front, e + out, tail + rest);
  }

  lemma PlainScalar(c: Bytes, out: Bytes, rest: Bytes)
    requires c != [] && Head(c).Scalar? && Encode(Decoded(c)) + out == c + rest
    ensures var tail := c[Head(c).used..]; Encode(Decoded(tail)) + out == tail + rest
  {
    var n := Head(c).used;
    var e := Encode(Decoded(c[n..]));
    ScalarStep(c);
    assert Encode(Decoded(c)) == c[..n] + e && c == c[..n] + c[n..];
    CancelFront(c[..n], e, out, c[n..], rest);
  }

  lemma LosesTailCons(c: Bytes, out: Bytes, rest: Bytes)
    requires c != [] && Head(c).Scalar? && LosesTail(c[Head(c).used..], out, rest)
    ensures LosesTail(c, out, rest)
  {
    var n := Head(c).used;
    var tail, front := c[n..], c[..|c| - 2];
    assert front == c[..n] + tail[..|tail| - 2] && c[|c| - 2..] == tail[|tail| - 2..];
    HeadIsEncoded(c);
    EncodedIsHead(Head(c).c, tail[..|tail| - 2]);
    assert front[n..] == tail[..|tail| - 2];
  }

  /** A chunk behind which nothing is owed is well formed, or well formed up to a lost tail. */
  lemma {:induction false} PlainChunk(c: Bytes, out: Bytes, rest: Bytes)
    requires Mild(c) && Encode(Decoded(c)) + out == c + rest
    ensures (ValidUtf8(c) && out == rest) || LosesTail(c, out, rest)
    decreases |c|
  {
    if c == [] {
      assert Encode(Decoded(c)) + out == out && c + rest == rest;
    } else if Head(c).Scalar? {
      var tail := c[Head(c).used..];
      PlainScalar(c, out, rest);
      PlainChunk(tail, out, rest);
      if LosesTail(tail, out, rest) { LosesTailCons(c, out, rest); }
    } else if Head(c).Bad? {
      PlainBad(c, out, rest);
    } else {
      assert Encode(Decoded(c)) + out == out;
      assert c[..0] == [] && c[0..] == c;
    }
  }

  lemma PlainBad(c: Bytes, out: Bytes, rest: Bytes)
    requires c != [] && Head(c).Bad? && Mild(c)
    ensures Encode(Decoded(c)) + out != c + rest
  {
    BadStep(c);
    assert (Encode(Decoded(c)) + out)[0] == 0xEF && (c + rest)[0] == c[0];
  }

  lemma FirstEncoded(t: seq<Unit>) returns (c: int, tail: seq<Unit>)
    requires t != [] && WellFormed(t)
    ensures IsScalar(c) && Encode(t) == EncodeScalar(c) + Encode(tail)
  {
    FirstScalar(t);
    if StartsWithPair(t) { c, tail := PairScalar(t[0], t[1]), t[2..]; } else { c, tail := t[0], t[1..]; }
  }

  /** Encoded text that begins with 0xEF and one more byte goes on with a continuation byte. */
  lemma LeadNeedsThird(t: seq<Unit>, x: Byte, rest: Bytes)
    requires WellFormed(t) && Encode(t) == [0xEF, x] + rest
    ensures rest != [] && IsContinuation(rest[0])
  {
    var c, tail := FirstEncoded(t);
    var e := EncodeScalar(c);
    assert Encode(t)[0] == e[0] == 0xEF;
    assert |e| == 3 && IsContinuation(e[2]);
    assert Encode(t)[2] == e[2] && ([0xEF, x] + rest)[2] == rest[0];
  }

  lemma ThirdByte(x: Byte, y: Byte, u: Bytes, v: Bytes)
    requires ReplacementBytes() + u == [0xEF, x, y] + v
    ensures x == 0xBF && y == 0xBD && u == v
  {
    var lhs, rhs := ReplacementBytes() + u, [0xEF, x, y] + v;
    assert lhs[1] == 0xBF && lhs[2] == 0xBD && rhs[1] == x && rhs[2] == y;
    assert u == lhs[3..] && v == rhs[3..];
  }

  /** Behind a lost tail the next byte is replaced by U+FFFD, which must be what the tail began. */
  lemma OwedByte(x: Byte, c: Bytes, out: Bytes, rest: Bytes)
    requires c != [] && Mild(c) && IsContinuation(c[0])
    requires Encode(Decoded(c)) + out == [0xEF, x] + (c + rest)
    ensures x == 0xBF && c[0] == 0xBD && Mild(c[1..]) && Encode(Decoded(c[1..])) + out == c[1..] + rest
  {
    var e := Encode(Decoded(c[1..]));
    BadStep(c);
    Regroup(ReplacementBytes(), e, out);
    FrontBytes(x, c, rest);
    ThirdByte(x, c[0], e + out, c[1..] + rest);
  }

  lemma FrontBytes(x: Byte, c: Bytes, rest: Bytes)
    requires c != []
    ensures [0xEF, x] + (c + rest) == [0xEF, x, c[0]] + (c[1..] + rest)
  {
  }

  ghost predicate MildOnes(chunks: seq<Bytes>) { forall i | 0 <= i < |chunks| :: Mild(chunks[i]) }

  lemma RawOutCons(c: Bytes, rest: seq<Bytes>)
    ensures RawOut([c] + rest) == Encode(Decoded(c)) + RawOut(rest) && Flatten([c] + rest) == c + Flatten(rest)
  {
    assert ([c] + rest)[1..] == rest;
  }

  predicate IsTail(d: Bytes) { d == [] || d == [0xEF, 0xBF] || d == [0xEF, 0xBD] }

  /** If the output makes up for lost bytes `d`, the chunks are as required, and so were the bytes. */
  lemma {:induction false} EqualIsMended(d: Bytes, chunks: seq<Bytes>)
    requires IsTail(d) && MildOnes(chunks) && RawOut(chunks) == d + Flatten(chunks)
    ensures d != [0xEF, 0xBD] && Mended(chunks, d != [])
    decreases |Flatten(chunks)| + |chunks|, 1
  {
    if chunks != [] {
      var c, rest := chunks[0], chunks[1..];
      assert chunks == [c] + rest;
      RawOutCons(c, rest);
      if c == [] {
        assert Encode(Decoded([])) + RawOut(rest) == RawOut(rest) && [] + Flatten(rest) == Flatten(rest);
        EqualIsMended(d, rest);
      } else if d == [] {
        EqualPlain(c, rest);
      } else {
        EqualOwed(d[1], c, rest);
      }
    }
  }

  lemma {:induction false} EqualPlain(c: Bytes, rest: seq<Bytes>)
    requires c != [] && Mild(c) && MildOnes(rest)
    requires Encode(Decoded(c)) + RawOut(rest) == c + Flatten(rest)
    ensures Mended([c] + rest, false)
    decreases |Flatten(rest)| + |c| + |rest| + 1, 0
  {
    PlainChunk(c, RawOut(rest), Flatten(rest));
    assert ([c] + rest)[1..] == rest;
    if ValidUtf8(c) && RawOut(rest) == Flatten(rest) {
      assert RawOut(rest) == [] + Flatten(rest);
      EqualIsMended([], rest);
    } else {
      EqualIsMended(c[|c| - 2..], rest);
    }
  }

  lemma {:induction false} EqualOwed(x: Byte, c: Bytes, rest: seq<Bytes>)
    requires c != [] && Mild(c) && MildOnes(rest) && (x == 0xBF || x == 0xBD)
    requires Encode(Decoded(c)) + RawOut(rest) == [0xEF, x] + (c + Flatten(rest))
    ensures x == 0xBF && Mended([c] + rest, true)
    decreases |Flatten(rest)| + |c| + |rest| + 1, 0
  {
    RawOutCons(c, rest);
    RawOutIsText([c] + rest);
    var t :| WellFormed(t) && Encode(t) == RawOut([c] + rest);
    LeadNeedsThird(t, x, c + Flatten(rest));
    OwedByte(x, c, RawOut(rest), Flatten(rest));
    assert ([c] + rest)[1..] == rest;
    var b := c[1..];
    if b == [] {
      assert RawOut(rest) == [] + Flatten(rest) by { assert Encode(Decoded(b)) + RawOut(rest) == RawOut(rest); }
      EqualIsMended([], rest);
    } else {
      EqualPlain(b, rest);
      assert ([b] + rest)[1..] == rest;
    }
  }

  // ---- The exact condition ----

  lemma OwedDecoded(b: Bytes)
    requires b != [] && b[0] == 0xBD
    ensures Encode(Decoded(b)) == ReplacementBytes() + Encode(Decoded(b[1..]))
  {
    BadStep(b);
  }

  /** A tail that is lost changes nothing of what stands before it. */
  lemma {:induction false} CutDecoded(b: Bytes)
    requires EndsCut(b)
    ensures Encode(Decoded(b)) == b[..|b| - 2]
    decreases |b|
  {
    var v := b[..|b| - 2];
    assert b == v + [0xEF, 0xBF];
    if v == [] {
      assert b == [0xEF, 0xBF];
    } else {
      var n := Head(v).used;
      HeadIsEncoded(v);
      assert b == EncodeScalar(Head(v).c) + (v[n..] + [0xEF, 0xBF]);
      EncodedIsHead(Head(v).c, v[n..] + [0xEF, 0xBF]);
      assert b[n..] == v[n..] + [0xEF, 0xBF] && b[n..][..|b[n..]| - 2] == v[n..];
      CutDecoded(b[n..]);
      ScalarStep(b);
      assert v == b[..n] + v[n..];
    }
  }

  lemma {:induction false} MendedPasses(chunks: seq<Bytes>, owed: bool)
    requires Mended(chunks, owed)
    ensures RawOut(chunks) == Owed(owed) + Flatten(chunks)
    decreases |chunks|
  {
    if chunks != [] {
      var c, rest := chunks[0], chunks[1..];
      if c == [] {
        MendedPasses(rest, owed);
        assert Encode(Decoded([])) + RawOut(rest) == RawOut(rest) && [] + Flatten(rest) == Flatten(rest);
      } else if ValidUtf8(if owed then c[1..] else c) && Mended(rest, false) {
        MendedPasses(rest, false);
        WholeStep(c, owed, RawOut(rest), Flatten(rest));
      } else {
        MendedPasses(rest, true);
        CutStep(c, owed, RawOut(rest), Flatten(rest));
      }
    }
  }

  function Owed(owed: bool): Bytes { if owed then [0xEF, 0xBF] else [] }

  lemma WholeStep(c: Bytes, owed: bool, out: Bytes, rest: Bytes)
    requires c != [] && (owed ==> c[0] == 0xBD) && ValidUtf8(if owed then c[1..] else c) && out == Owed(false) + rest
    ensures Encode(Decoded(c)) + out == Owed(owed) + (c + rest)
  {
    var b := if owed then c[1..] else c;
    ValidDecodes(b);
    assert Encode(Decoded(b)) + [] == b;
    MendedStep(c, b, owed, [], out, rest);
  }

  lemma CutStep(c: Bytes, owed: bool, out: Bytes, rest: Bytes)
    requires c != [] && (owed ==> c[0] == 0xBD) && EndsCut(if owed then c[1..] else c) && out == Owed(true) + rest
    ensures Encode(Decoded(c)) + out == Owed(owed) + (c + rest)
  {
    var b := if owed then c[1..] else c;
    CutDecoded(b);
    assert Encode(Decoded(b)) + [0xEF, 0xBF] == b;
    MendedStep(c, b, owed, [0xEF, 0xBF], out, rest);
  }

  lemma MendedStep(c: Bytes, b: Bytes, owed: bool, tail: Bytes, out: Bytes, rest: Bytes)
    requires c != [] && b == (if owed then c[1..] else c) && (owed ==> c[0] == 0xBD)
    requires Encode(Decoded(b)) + tail == b && out == tail + rest
    ensures Encode(Decoded(c)) + out == Owed(owed) + (c + rest)
  {
    var e := Encode(Decoded(b));
    Regroup(e, tail, rest);
    assert e + out == b + rest;
    if owed {
      OwedDecoded(c);
      assert c == [0xBD] + b;
      Repaid(e, out, b, rest);
    }
  }

  lemma Repaid(e: Bytes, out: Bytes, b: Bytes, rest: Bytes)
    requires e + out == b + rest
    ensures ReplacementBytes() + e + out == [0xEF, 0xBF] + ([0xBD] + b + rest)
  {
    Regroup(ReplacementBytes(), e, out);
    Regroup([0xBD], b, rest);
    Regroup([0xEF, 0xBF], [0xBD], b + rest);
    assert [0xEF, 0xBF] + [0xBD] == ReplacementBytes();
  }

  lemma BomStripped(b: Bytes)
    ensures DecodeChunk(b) == Decoded(b) <==> !(Bom() <= b)
  {
    BomIsUnit(b);
    var t := Decoded(b);
    if t != [] && t[0] == BOM_UNIT { assert |DecodeChunk(b)| < |t|; }
  }

  lemma NothingStripped(chunks: seq<Bytes>)
    ensures NoLeadingBom(chunks) <==> forall i | 0 <= i < |chunks| :: DecodeChunk(chunks[i]) == Decoded(chunks[i])
  {
    forall i | 0 <= i < |chunks| ensures DecodeChunk(chunks[i]) == Decoded(chunks[i]) <==> !(Bom() <= chunks[i]) {
      BomStripped(chunks[i]);
    }
  }

  /**
   A byte stream, whatever it holds, comes out byte for byte exactly when no chunk starts
   with a byte order mark and every chunk is well-formed UTF-8 on its own, a U+FFFD cut
   after its second byte excepted.
   */
  lemma StreamPassesExactly(chunks: seq<Bytes>)
    ensures Encode(TextOf(chunks)) == Flatten(chunks) <==> Passes(chunks)
  {
    NothingStripped(chunks);
    if Encode(TextOf(chunks)) == Flatten(chunks) {
      TextWeighs(chunks);
      RawOutIsOut(chunks);
      assert RawOut(chunks) == [] + Flatten(chunks);
      EqualIsMended([], chunks);
    }
    if Passes(chunks) {
      RawOutIsOut(chunks);
      MendedPasses(chunks, false);
      assert Owed(false) + Flatten(chunks) == Flatten(chunks);
    }
  }

  /** A U+FFFD cut after two bytes is lost with the first chunk and put back by the second. */
  lemma CutReplacementPasses()
    ensures Passes([[0xEF, 0xBF], [0xBD]]) && !Faithful([0xEF, 0xBF]) && !Faithful([0xBD])
  {
    hide Passes, EndsCut, Faithful, Bom, Head;
    FrontHalf();
    BackHalf();
    CutPair([0xEF, 0xBF], [0xBD]);
  }

  lemma FrontHalf()
    ensures var a: Bytes := [0xEF, 0xBF]; EndsCut(a) && !(Bom() <= a) && !Faithful(a)
  {
    var a: Bytes := [0xEF, 0xBF];
    assert a[..0] == [] && a[0..] == [0xEF, 0xBF];
    assert Head(a) == Incomplete;
  }

  lemma BackHalf()
    ensures !Faithful([0xBD])
  {
    assert Head([0xBD]) == Bad(1);
  }

  lemma CutPair(a: Bytes, b: Bytes)
    requires a != [] && EndsCut(a) && !(Bom() <= a) && b == [0xBD]
    ensures Passes([a, b])
  {
    assert b[1..] == [] && [b][1..] == [] && [a, b][1..] == [b];
    assert Mended([b], true);
  }
}
