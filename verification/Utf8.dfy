/**
 UTF-8 encoding of UTF-16 text, as `TextEncoder` does it: a surrogate pair
 becomes four bytes, an unpaired surrogate becomes U+FFFD. On well-formed text
 the encoding can be undone, so no two well-formed texts share their bytes.
 */
module Utf8 {
  type Byte = b: int | 0 <= b < 0x100
  type Unit = u: int | 0 <= u < 0x10000

  predicate IsLead(u: int) { 0xD800 <= u < 0xDC00 }
  predicate IsTrail(u: int) { 0xDC00 <= u < 0xE000 }
  predicate IsSurrogate(u: int) { 0xD800 <= u < 0xE000 }

  predicate StartsWithPair(s: seq<Unit>) {
    |s| >= 2 && IsLead(s[0]) && IsTrail(s[1])
  }

  /** No surrogate stands alone. */
  predicate WellFormed(s: seq<Unit>) {
    if s == [] then true
    else if StartsWithPair(s) then WellFormed(s[2..])
    else !IsSurrogate(s[0]) && WellFormed(s[1..])
  }

  function PairScalar(hi: int, lo: int): (c: int)
    requires IsLead(hi) && IsTrail(lo)
    ensures 0x10000 <= c < 0x110000
  {
    0x10000 + (hi - 0xD800) * 0x400 + (lo - 0xDC00)
  }

  function EncodeScalar(c: int): (b: seq<Byte>)
    requires 0 <= c < 0x110000
    ensures 1 <= |b| <= 4
  {
    if c < 0x80 then [c]
    else if c < 0x800 then [0xC0 + c / 0x40, 0x80 + c % 0x40]
    else if c < 0x10000 then [0xE0 + c / 0x40 / 0x40, 0x80 + c / 0x40 % 0x40, 0x80 + c % 0x40]
    else [0xF0 + c / 0x40 / 0x40 / 0x40, 0x80 + c / 0x40 / 0x40 % 0x40, 0x80 + c / 0x40 % 0x40, 0x80 + c % 0x40]
  }

  function Encode(s: seq<Unit>): (b: seq<Byte>) {
    if s == [] then []
    else if StartsWithPair(s) then EncodeScalar(PairScalar(s[0], s[1])) + Encode(s[2..])
    else EncodeScalar(if IsSurrogate(s[0]) then 0xFFFD else s[0]) + Encode(s[1..])
  }

  function ScalarUnits(c: int): (u: seq<Unit>)
    requires 0 <= c < 0x110000
  {
    if c < 0x10000 then [c]
    else [0xD800 + (c - 0x10000) / 0x400, 0xDC00 + (c - 0x10000) % 0x400]
  }

  /** How many bytes the leading byte announces. */
  function SequenceLength(b: int): nat {
    if b < 0x80 then 1 else if b < 0xE0 then 2 else if b < 0xF0 then 3 else 4
  }

  function DecodeScalar(b: seq<int>): int
    requires b != [] && |b| >= SequenceLength(b[0])
  {
    match SequenceLength(b[0])
    case 1 => b[0]
    case 2 => (b[0] - 0xC0) * 0x40 + (b[1] - 0x80)
    case 3 => ((b[0] - 0xE0) * 0x40 + (b[1] - 0x80)) * 0x40 + (b[2] - 0x80)
    case _ => (((b[0] - 0xF0) * 0x40 + (b[1] - 0x80)) * 0x40 + (b[2] - 0x80)) * 0x40 + (b[3] - 0x80)
  }

  /** The decoder on encoder output; bytes no encoder writes are dropped. */
  function Decode(b: seq<Byte>): (s: seq<Unit>) {
    if b == [] then []
    else
      var n := SequenceLength(b[0]);
      if |b| < n then []
      else
        var c := DecodeScalar(b);
        (if 0 <= c < 0x110000 then ScalarUnits(c) else []) + Decode(b[n..])
  }

  lemma DecodeScalarOfEncode(c: int, rest: seq<Byte>)
    requires 0 <= c < 0x110000
    ensures SequenceLength(EncodeScalar(c)[0]) == |EncodeScalar(c)|
    ensures DecodeScalar(EncodeScalar(c) + rest) == c
  {
    var e := EncodeScalar(c) + rest;
    var q := c / 0x40;
    assert forall i | 0 <= i < |EncodeScalar(c)| :: e[i] == EncodeScalar(c)[i];
  }

  lemma DecodeOneScalar(c: int, rest: seq<Byte>)
    requires 0 <= c < 0x110000
    ensures Decode(EncodeScalar(c) + rest) == ScalarUnits(c) + Decode(rest)
  {
    var e := EncodeScalar(c);
    DecodeScalarOfEncode(c, rest);
    assert (e + rest)[0] == e[0] && (e + rest)[|e|..] == rest;
  }

  lemma ScalarUnitsOfHead(s: seq<Unit>)
    requires s != [] && WellFormed(s)
    ensures if StartsWithPair(s) then ScalarUnits(PairScalar(s[0], s[1])) == s[..2] else ScalarUnits(s[0]) == s[..1]
  {
  }

  lemma {:induction false} RoundTrip(s: seq<Unit>)
    requires WellFormed(s)
    ensures Decode(Encode(s)) == s
    decreases |s|
  {
    if s != [] {
      var n := if StartsWithPair(s) then 2 else 1;
      var c := if StartsWithPair(s) then PairScalar(s[0], s[1]) else s[0];
      RoundTrip(s[n..]);
      assert Encode(s) == EncodeScalar(c) + Encode(s[n..]);
      DecodeOneScalar(c, Encode(s[n..]));
      ScalarUnitsOfHead(s);
      assert s == s[..n] + s[n..];
    }
  }

  lemma EncodeInjective(s: seq<Unit>, t: seq<Unit>)
    requires WellFormed(s) && WellFormed(t)
    ensures Encode(s) == Encode(t) ==> s == t
  {
    RoundTrip(s);
    RoundTrip(t);
  }

  /** Text without surrogates is well formed; ASCII text is its own encoding. */
  lemma NoSurrogatesWellFormed(s: seq<Unit>)
    requires forall i | 0 <= i < |s| :: !IsSurrogate(s[i])
    ensures WellFormed(s)
  {
  }

  lemma WellFormedAppend(s: seq<Unit>, t: seq<Unit>)
    requires WellFormed(s) && WellFormed(t)
    ensures WellFormed(s + t)
    decreases |s|
  {
    if s == [] {
      assert s + t == t;
    } else {
      var n := if StartsWithPair(s) then 2 else 1;
      assert (s + t)[n..] == s[n..] + t;
      WellFormedAppend(s[n..], t);
    }
  }

  lemma {:induction false} EncodeAppend(s: seq<Unit>, t: seq<Unit>)
    requires WellFormed(s)
    ensures Encode(s + t) == Encode(s) + Encode(t)
    decreases |s|
  {
    if s == [] {
      assert s + t == t;
    } else {
      var n := if StartsWithPair(s) then 2 else 1;
      assert (s + t)[n..] == s[n..] + t;
      EncodeAppend(s[n..], t);
    }
  }

  /** Cutting at a unit that is no surrogate leaves both pieces well formed. */
  lemma {:induction false} WellFormedPieces(a: seq<Unit>, u: Unit, b: seq<Unit>)
    requires !IsSurrogate(u) && WellFormed(a + [u] + b)
    ensures WellFormed(a) && WellFormed(b)
    decreases |a|
  {
    var s := a + [u] + b;
    if a == [] {
      assert s[1..] == b;
    } else if StartsWithPair(s) {
      assert |a| >= 2 by { assert s[1] == if |a| == 1 then u else a[1]; }
      assert s[2..] == a[2..] + [u] + b;
      WellFormedPieces(a[2..], u, b);
    } else {
      assert s[1..] == a[1..] + [u] + b;
      WellFormedPieces(a[1..], u, b);
    }
  }

  /** An ASCII literal as code units. */
  function Ascii(s: string): (u: seq<Unit>)
    requires forall i | 0 <= i < |s| :: s[i] as int < 0x80
    ensures |u| == |s|
    ensures forall i | 0 <= i < |s| :: u[i] == s[i] as int
  {
    seq(|s|, i requires 0 <= i < |s| => s[i] as int)
  }

  /** The text with every unpaired surrogate replaced by U+FFFD. */
  function Scrubbed(s: seq<Unit>): (t: seq<Unit>)
    ensures |t| == |s|
  {
    if s == [] then []
    else if StartsWithPair(s) then s[..2] + Scrubbed(s[2..])
    else [if 0xD800 <= s[0] < 0xE000 then 0xFFFD else s[0]] + Scrubbed(s[1..])
  }

  lemma {:induction false} ScrubbedIsWellFormed(s: seq<Unit>)
    ensures WellFormed(Scrubbed(s)) && Encode(Scrubbed(s)) == Encode(s)
    decreases |s|
  {
    if s != [] {
      var n := if StartsWithPair(s) then 2 else 1;
      ScrubbedIsWellFormed(s[n..]);
      assert Scrubbed(s)[n..] == Scrubbed(s[n..]);
      assert StartsWithPair(Scrubbed(s)) <==> StartsWithPair(s);
    }
  }

  /** What comes back from the bytes of any text at all: everything but its unpaired surrogates. */
  lemma DecodeOfAnyText(s: seq<Unit>)
    ensures Decode(Encode(s)) == Scrubbed(s)
  {
    ScrubbedIsWellFormed(s);
    RoundTrip(Scrubbed(s));
  }
}
