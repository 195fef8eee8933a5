/**
 How many bytes one U+FFFD stands for in the decoder's output (section 4.1 of the Encoding
 Standard), as the receipt stream's chunks go through it (src/routes/receipt-stream.ts:163-190).
 */
module Utf8Replacement {
  import opened Utf8
  import opened Utf8Decoder

  /** A cut-off encoding of some scalar value. */
  ghost predicate StartsScalar(p: Bytes) { exists c: int :: IsScalar(c) && p < EncodeScalar(c) }

  ghost predicate HoldsScalar(b: Bytes) { exists c: int :: IsScalar(c) && EncodeScalar(c) <= b }

  lemma SecondOfScalar(c: int)
    requires IsScalar(c) && c >= 0x80
    ensures var e := EncodeScalar(c);
      && IsMulti(e[0]) && |e| == 1 + Needed(e[0]) && SecondOk(e[0], e[1])
      && (forall i | 2 <= i < |e| :: IsContinuation(e[i]))
  {
    EncodedTail(c, []);
    assert EncodeScalar(c) + [] == EncodeScalar(c);
  }

  /** The smallest second byte a lead byte allows. */
  function LeastSecond(lead: Byte): Byte {
    if lead == 0xE0 then 0xA0 else if lead == 0xF0 then 0x90 else 0x80
  }

  /** The announced length, filled up with the smallest bytes allowed. */
  function Completed(b: Bytes, k: nat): (e: Bytes)
    requires b != [] && IsMulti(b[0]) && k == GoodTail(b)
    ensures |e| == 1 + Needed(b[0]) && e[0] == b[0] && SecondOk(e[0], e[1])
    ensures forall i | 2 <= i < |e| :: IsContinuation(e[i])
    ensures e[..1 + k] == b[..1 + k]
  {
    var n := Needed(b[0]);
    [b[0]] + [if k >= 1 then b[1] else LeastSecond(b[0])]
    + (if n >= 2 then [if k >= 2 then b[2] else 0x80] else []) + (if n >= 3 then [if k >= 3 then b[3] else 0x80] else [])
  }

  lemma GoodPartStarts(b: Bytes)
    requires b != [] && IsMulti(b[0]) && GoodTail(b) < Needed(b[0])
    ensures StartsScalar(b[..1 + GoodTail(b)])
  {
    var k := GoodTail(b);
    var e := Completed(b, k);
    if Needed(b[0]) == 1 { TwoByteScalar(e); } else if Needed(b[0]) == 2 { ThreeByteScalar(e); } else { FourByteScalar(e); }
    assert e[..|e|] == e;
    assert b[..1 + k] < EncodeScalar(DecodeScalar(e));
  }

  /** Bytes that a scalar's encoding starts with are a good part. */
  lemma PartIsGood(b: Bytes, m: nat, c: int)
    requires 2 <= m <= |b| && IsScalar(c) && b[..m] < EncodeScalar(c)
    ensures IsMulti(b[0]) && GoodTail(b) >= m - 1
  {
    var e := EncodeScalar(c);
    assert c >= 0x80 && b[0] == e[0] && b[1] == e[1];
    SecondOfScalar(c);
    if m == 3 { assert b[2] == e[2]; }
  }

  lemma LongerPartFails(b: Bytes)
    requires b != [] && IsMulti(b[0]) && GoodTail(b) < Needed(b[0]) && 2 + GoodTail(b) <= |b|
    ensures !StartsScalar(b[..2 + GoodTail(b)])
  {
    if c: int :| IsScalar(c) && b[..2 + GoodTail(b)] < EncodeScalar(c) { PartIsGood(b, 2 + GoodTail(b), c); }
  }

  lemma LeadIsMulti(b: Bytes, c: int)
    requires b != [] && IsScalar(c) && b[..1] < EncodeScalar(c)
    ensures IsMulti(b[0])
  {
    assert EncodeScalar(c)[0] == b[0];
    SecondOfScalar(c);
  }

  lemma StrayStartsNothing(b: Bytes)
    requires b != [] && !IsMulti(b[0])
    ensures !StartsScalar(b[..1])
  {
    if c: int :| IsScalar(c) && b[..1] < EncodeScalar(c) { LeadIsMulti(b, c); }
  }

  lemma HeldIsScalar(b: Bytes)
    requires b != []
    ensures Head(b).Scalar? <==> HoldsScalar(b)
  {
    if Head(b).Scalar? {
      HeadIsEncoded(b);
      assert EncodeScalar(Head(b).c) <= b;
    }
    if c: int :| IsScalar(c) && EncodeScalar(c) <= b {
      assert b == EncodeScalar(c) + b[|EncodeScalar(c)|..];
      EncodedIsHead(c, b[|EncodeScalar(c)|..]);
    }
  }

  lemma {:induction false} PrefixStarts(p: Bytes, q: Bytes)
    requires StartsScalar(q) && p <= q
    ensures StartsScalar(p)
  {
    var c: int :| IsScalar(c) && q < EncodeScalar(c);
    assert p < EncodeScalar(c);
  }

  /**
   Where no scalar value stands, the longest run of bytes that one could have started with,
   or else a single byte, becomes one U+FFFD; a run the chunk's end cuts off gives nothing.
   */
  lemma OneReplacementPerRun(b: Bytes, n: nat)
    requires 1 <= n <= |b| && !HoldsScalar(b)
    requires (n == 1 || StartsScalar(b[..n])) && (n < |b| ==> !StartsScalar(b[..n + 1]))
    ensures Decoded(b) == if n == |b| && StartsScalar(b) then [] else [0xFFFD] + Decoded(b[n..])
  {
    HeldIsScalar(b);
    assert b[..|b|] == b;
    if !IsMulti(b[0]) {
      StrayStartsNothing(b);
      if n > 1 { PrefixStarts(b[..1], b[..n]); }
      assert Head(b) == Bad(1);
    } else {
      RunIsGoodPart(b, n);
      assert Head(b) == if n == |b| then Incomplete else Bad(n);
      GoodPartStarts(b);
    }
  }

  lemma ShorterRunsStart(b: Bytes, m: nat)
    requires m <= |b| && StartsScalar(b[..m])
    ensures forall i | 0 <= i <= m :: StartsScalar(b[..i])
  {
    forall i | 0 <= i <= m ensures StartsScalar(b[..i]) { PrefixStarts(b[..i], b[..m]); }
  }

  lemma RunIsGoodPart(b: Bytes, n: nat)
    requires 1 <= n <= |b| && !Head(b).Scalar? && IsMulti(b[0])
    requires (n == 1 || StartsScalar(b[..n])) && (n < |b| ==> !StartsScalar(b[..n + 1]))
    ensures n == 1 + GoodTail(b)
  {
    hide StartsScalar;
    if n > 1 { ShorterRunsStart(b, n); }
    GoodPartStarts(b);
    ShorterRunsStart(b, 1 + GoodTail(b));
    if 2 + GoodTail(b) <= |b| { LongerPartFails(b); }
  }
}
