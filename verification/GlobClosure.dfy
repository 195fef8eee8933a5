/**
 glob-closure/v1 parameters (src/memoize/glob-closure.ts): the byte forms of the
 patterns, sorted, deduplicated, each framed by its length as a little-endian u64.
 */
module GlobClosure {
  import opened Wrappers
  import opened Order
  import opened Sequences
  import opened Utf8
  import opened Words

  type Bytes = seq<Byte>

  predicate BytesLess(a: Bytes, b: Bytes) { LexLess(a, b) }

  predicate BytesLeq(a: Bytes, b: Bytes) { LexLeq(a, b) }

  /** Unsigned byte order, one index at a time. */
  method CompareBytes(a: Bytes, b: Bytes) returns (r: int)
    ensures r < 0 <==> LexLess(a, b)
    ensures r == 0 <==> a == b
  {
    var len := if |a| < |b| then |a| else |b|;
    var i := 0;
    while i < len
      invariant 0 <= i <= len
      invariant a[..i] == b[..i]
    {
      if a[i] != b[i] {
        DecidedAt(a, b, i);
        return a[i] as int - b[i] as int;
      }
      i := i + 1;
    }
    DecidedAt(a, b, len);
    return |a| - |b|;
  }

  method BytesEqual(a: Bytes, b: Bytes) returns (same: bool)
    ensures same <==> a == b
  {
    if |a| != |b| { return false; }
    for i := 0 to |a|
      invariant a[..i] == b[..i]
    {
      if a[i] != b[i] { return false; }
    }
    return true;
  }

  // ---- What the encoding is ----

  function LittleEndian(n: nat, width: nat): (b: Bytes)
    ensures |b| == width
  {
    if width == 0 then [] else [n % 256] + LittleEndian(n / 256, width - 1)
  }

  /** `setBigUint64(0, BigInt(n), true)`. */
  function U64Le(n: nat): (b: Bytes)
    ensures |b| == 8
  {
    LittleEndian(n, 8)
  }

  function Frames(d: seq<Bytes>): seq<Bytes> {
    if d == [] then [] else [U64Le(|d[0]|), d[0]] + Frames(d[1..])
  }

  function Params(d: seq<Bytes>): Bytes {
    U64Le(|d|) + Flatten(Frames(d))
  }

  /** Runs of equal neighbours collapse to one. */
  function Dedupe(s: seq<Bytes>): seq<Bytes> {
    if s == [] then []
    else
      var r := Dedupe(s[..|s| - 1]);
      if r != [] && r[|r| - 1] == s[|s| - 1] then r else r + [s[|s| - 1]]
  }

  function Forms(patterns: seq<seq<Unit>>): (f: seq<Bytes>)
    ensures |f| == |patterns|
    ensures forall i | 0 <= i < |f| :: f[i] == Encode(patterns[i])
  {
    seq(|patterns|, i requires 0 <= i < |patterns| => Encode(patterns[i]))
  }

  function Listing(patterns: seq<seq<Unit>>): seq<Bytes> {
    Dedupe(SortBy(Forms(patterns), BytesLeq))
  }

  // ---- The encoder ----

  method DedupeSorted(byteForms: seq<Bytes>) returns (deduped: seq<Bytes>)
    ensures deduped == Dedupe(byteForms)
  {
    deduped := [];
    for i := 0 to |byteForms|
      invariant deduped == Dedupe(byteForms[..i])
    {
      assert byteForms[..i + 1][..i] == byteForms[..i];
      var same := false;
      if |deduped| > 0 {
        same := BytesEqual(deduped[|deduped| - 1], byteForms[i]);
      }
      if !same {
        deduped := deduped + [byteForms[i]];
      }
    }
    assert byteForms[..|byteForms|] == byteForms;
  }

  /** A frame moves from what is left to what is written. */
  lemma MovePair(parts: seq<Bytes>, b: Bytes, rest: seq<Bytes>)
    ensures Flatten(parts + [U64Le(|b|), b]) + Flatten(Frames(rest)) == Flatten(parts) + Flatten(Frames([b] + rest))
  {
    var pair := [U64Le(|b|), b];
    FlattenAppend(parts, pair);
    FlattenAppend(pair, Frames(rest));
    assert ([b] + rest)[1..] == rest;
  }

  method BuildParts(deduped: seq<Bytes>) returns (parts: seq<Bytes>)
    ensures Flatten(parts) == Params(deduped)
  {
    parts := [U64Le(|deduped|)];
    assert deduped[0..] == deduped;
    for i := 0 to |deduped|
      invariant Flatten(parts) + Flatten(Frames(deduped[i..])) == Params(deduped)
    {
      var pair := [U64Le(|deduped[i]|), deduped[i]];
      assert deduped[i..] == [deduped[i]] + deduped[i + 1..];
      MovePair(parts, deduped[i], deduped[i + 1..]);
      parts := parts + pair;
    }
    assert Flatten(Frames([])) == [];
  }

  method ConcatParts(parts: seq<Bytes>) returns (out: array<Byte>)
    ensures fresh(out)
    ensures out[..] == Flatten(parts)
  {
    var total := 0;
    for i := 0 to |parts|
      invariant total == |Flatten(parts[..i])|
    {
      FlattenSnoc(parts[..i], parts[i]);
      assert parts[..i + 1] == parts[..i] + [parts[i]];
      total := total + |parts[i]|;
    }
    assert parts[..|parts|] == parts;
    out := new Byte[total];
    var off := 0;
    for i := 0 to |parts|
      invariant off == |Flatten(parts[..i])| <= total
      invariant out[..off] == Flatten(parts[..i])
    {
      var p := parts[i];
      PrefixFits(parts, i);
      forall k | 0 <= k < |p| {
        out[off + k] := p[k];
      }
      assert out[..off + |p|] == Flatten(parts[..i]) + p;
      off := off + |p|;
    }
  }

  lemma PrefixFits(parts: seq<Bytes>, i: nat)
    requires i < |parts|
    ensures Flatten(parts[..i + 1]) == Flatten(parts[..i]) + parts[i]
    ensures |Flatten(parts[..i + 1])| <= |Flatten(parts)|
  {
    FlattenSnoc(parts[..i], parts[i]);
    assert parts[..i + 1] == parts[..i] + [parts[i]];
    FlattenAppend(parts[..i + 1], parts[i + 1..]);
    assert parts == parts[..i + 1] + parts[i + 1..];
  }

  method EncodeGlobClosureParams(patterns: seq<seq<Unit>>) returns (out: array<Byte>)
    ensures fresh(out)
    ensures out[..] == Params(Listing(patterns))
  {
    var byteForms := SortBy(Forms(patterns), BytesLeq);
    var deduped := DedupeSorted(byteForms);
    var parts := BuildParts(deduped);
    out := ConcatParts(parts);
  }

  // ---- The listing is the set, in order ----

  lemma DedupeOfSorted(s: seq<Bytes>)
    requires SortedBy(s, BytesLeq)
    ensures StrictlySortedBy(Dedupe(s), BytesLess)
    ensures forall x :: x in Dedupe(s) <==> x in s
    ensures s != [] ==> Dedupe(s) != [] && Dedupe(s)[|Dedupe(s)| - 1] == s[|s| - 1]
  {
    if s != [] {
      var t, x := s[..|s| - 1], s[|s| - 1];
      assert s == t + [x];
      DedupeOfSorted(t);
      var r := Dedupe(t);
      if r == [] || r[|r| - 1] != x {
        forall i | 0 <= i < |r| ensures BytesLess(r[i], x) {
          assert BytesLeq(t[|t| - 1], x);
          if i < |r| - 1 {
            assert BytesLess(r[i], r[|r| - 1]);
            LexTransitive(r[i], r[|r| - 1], x);
          }
        }
      }
    }
  }

  lemma ListingIsTheSet(patterns: seq<seq<Unit>>)
    ensures StrictlySortedBy(Listing(patterns), BytesLess)
    ensures forall x :: x in Listing(patterns) <==> x in Forms(patterns)
  {
    LexLeqIsTotalOrder();
    assert forall a: Bytes, b: Bytes :: BytesLeq(a, b) <==> LexLeq(a, b);
    SortByIsSorted(Forms(patterns), BytesLeq);
    SortByMembers(Forms(patterns), BytesLeq);
    DedupeOfSorted(SortBy(Forms(patterns), BytesLeq));
  }

  lemma DedupeLength(s: seq<Bytes>)
    ensures |Dedupe(s)| <= |s|
  {
  }

  // ---- The bytes are unambiguous ----

  lemma LittleEndianInjective(m: nat, n: nat, width: nat)
    requires LittleEndian(m, width) == LittleEndian(n, width)
    requires m < Power256(width) && n < Power256(width)
    ensures m == n
  {
    if width > 0 {
      assert LittleEndian(m, width)[0] == m % 256 && LittleEndian(n, width)[0] == n % 256;
      assert LittleEndian(m, width)[1..] == LittleEndian(m / 256, width - 1);
      assert LittleEndian(n, width)[1..] == LittleEndian(n / 256, width - 1);
      LittleEndianInjective(m / 256, n / 256, width - 1);
      assert m == m / 256 * 256 + m % 256;
    }
  }

  lemma U64LeInjective(m: nat, n: nat)
    requires U64Le(m) == U64Le(n) && m < U64_RANGE && n < U64_RANGE
    ensures m == n
  {
    assert Power256(4) == 0x1_0000_0000;
    assert Power256(8) == 256 * (256 * (256 * (256 * Power256(4))));
    LittleEndianInjective(m, n, 8);
  }

  predicate Framable(d: seq<Bytes>) {
    |d| < U64_RANGE && forall i | 0 <= i < |d| :: |d[i]| < U64_RANGE
  }

  lemma {:induction false} FramesInjective(d: seq<Bytes>, e: seq<Bytes>)
    requires |d| == |e|
    requires forall i | 0 <= i < |d| :: |d[i]| < U64_RANGE
    requires forall i | 0 <= i < |e| :: |e[i]| < U64_RANGE
    requires Flatten(Frames(d)) == Flatten(Frames(e))
    ensures d == e
  {
    if d != [] {
      FramesHead(d);
      FramesHead(e);
      var s, t := Flatten(Frames(d)), Flatten(Frames(e));
      assert s[..8] == U64Le(|d[0]|) && t[..8] == U64Le(|e[0]|);
      U64LeInjective(|d[0]|, |e[0]|);
      assert s[8..8 + |d[0]|] == d[0] && t[8..8 + |e[0]|] == e[0];
      assert s[8 + |d[0]|..] == Flatten(Frames(d[1..])) && t[8 + |e[0]|..] == Flatten(Frames(e[1..]));
      FramesInjective(d[1..], e[1..]);
      assert d == [d[0]] + d[1..] && e == [e[0]] + e[1..];
    }
  }

  lemma FramesHead(d: seq<Bytes>)
    requires d != []
    ensures Flatten(Frames(d)) == U64Le(|d[0]|) + d[0] + Flatten(Frames(d[1..]))
  {
    var head := U64Le(|d[0]|);
    FlattenAppend([head, d[0]], Frames(d[1..]));
    FlattenPair(head, d[0]);
  }

  lemma ParamsInjective(d: seq<Bytes>, e: seq<Bytes>)
    requires Framable(d) && Framable(e) && Params(d) == Params(e)
    ensures d == e
  {
    assert Params(d)[..8] == U64Le(|d|) && Params(e)[..8] == U64Le(|e|);
    U64LeInjective(|d|, |e|);
    assert Params(d)[8..] == Flatten(Frames(d)) && Params(e)[8..] == Flatten(Frames(e));
    FramesInjective(d, e);
  }

  ghost predicate SameSet<T(!new)>(p: seq<T>, q: seq<T>) {
    forall x :: x in p <==> x in q
  }

  /** Equal parameters exactly when the lists denote the same set of byte patterns. */
  lemma ParamsDecideSet(p: seq<seq<Unit>>, q: seq<seq<Unit>>)
    requires Framable(Forms(p)) && Framable(Forms(q))
    ensures Params(Listing(p)) == Params(Listing(q)) <==> SameSet(Forms(p), Forms(q))
  {
    ListingIsTheSet(p);
    ListingIsTheSet(q);
    if Params(Listing(p)) == Params(Listing(q)) {
      ListingFramable(p);
      ListingFramable(q);
      ParamsInjective(Listing(p), Listing(q));
    }
    if SameSet(Forms(p), Forms(q)) {
      forall a: Bytes, b: Bytes ensures !(BytesLess(a, b) && BytesLess(b, a)) {
        LexAsymmetric(a, b);
      }
      StrictlySortedUnique(Listing(p), Listing(q), BytesLess);
    }
  }

  lemma ListingFramable(p: seq<seq<Unit>>)
    requires Framable(Forms(p))
    ensures Framable(Listing(p))
  {
    DedupeLength(SortBy(Forms(p), BytesLeq));
    ListingIsTheSet(p);
    forall i | 0 <= i < |Listing(p)| ensures |Listing(p)[i]| < U64_RANGE {
      assert Listing(p)[i] in Forms(p);
    }
  }

  /** For well-formed pattern text, the same set of byte forms is the same set of patterns. */
  lemma ParamsDecidePatterns(p: seq<seq<Unit>>, q: seq<seq<Unit>>)
    requires Framable(Forms(p)) && Framable(Forms(q))
    requires forall i | 0 <= i < |p| :: WellFormed(p[i])
    requires forall i | 0 <= i < |q| :: WellFormed(q[i])
    ensures Params(Listing(p)) == Params(Listing(q)) <==> SameSet(p, q)
  {
    ParamsDecideSet(p, q);
    if SameSet(Forms(p), Forms(q)) {
      PatternsIncluded(p, q);
      PatternsIncluded(q, p);
    }
    if SameSet(p, q) {
      FormsIncluded(p, q);
      FormsIncluded(q, p);
    }
  }

  lemma PatternsIncluded(p: seq<seq<Unit>>, q: seq<seq<Unit>>)
    requires forall i | 0 <= i < |p| :: WellFormed(p[i])
    requires forall i | 0 <= i < |q| :: WellFormed(q[i])
    requires forall x :: x in Forms(p) ==> x in Forms(q)
    ensures forall x :: x in p ==> x in q
  {
    forall x | x in p ensures x in q {
      var i :| 0 <= i < |p| && p[i] == x;
      assert Forms(p)[i] in Forms(p);
      var j :| 0 <= j < |q| && Forms(q)[j] == Encode(x);
      EncodeInjective(x, q[j]);
    }
  }

  lemma FormsIncluded(p: seq<seq<Unit>>, q: seq<seq<Unit>>)
    requires forall x :: x in p ==> x in q
    ensures forall x :: x in Forms(p) ==> x in Forms(q)
  {
    forall x | x in Forms(p) ensures x in Forms(q) {
      var i :| 0 <= i < |p| && Forms(p)[i] == x;
      assert p[i] in q;
      var j :| 0 <= j < |q| && q[j] == p[i];
      assert Forms(q)[j] == x;
    }
  }

  // ---- Reading the parameters back ----

  /** The number whose least significant byte comes first. */
  function LittleEndianValue(b: Bytes): nat {
    if b == [] then 0
    else
      var low: int := b[0];
      low + 256 * LittleEndianValue(b[1..])
  }

  /** `count` frames and nothing after them: eight bytes of length, then as many bytes. */
  function ReadFrames(b: Bytes, count: nat): Option<seq<Bytes>>
    decreases count
  {
    if count == 0 then (if b == [] then Some([]) else None)
    else if |b| < 8 || |b| < 8 + LittleEndianValue(b[..8]) then None
    else
      var end := 8 + LittleEndianValue(b[..8]);
      match ReadFrames(b[end..], count - 1)
      case None => None
      case Some(rest) => Some([b[8..end]] + rest)
  }

  function ReadParams(b: Bytes): Option<seq<Bytes>> {
    if |b| < 8 then None else ReadFrames(b[8..], LittleEndianValue(b[..8]))
  }

  lemma {:induction false} LittleEndianReadBack(n: nat, width: nat)
    requires n < Power256(width)
    ensures LittleEndianValue(LittleEndian(n, width)) == n
    decreases width
  {
    if width > 0 {
      assert LittleEndian(n, width)[1..] == LittleEndian(n / 256, width - 1);
      LittleEndianReadBack(n / 256, width - 1);
      assert n == n / 256 * 256 + n % 256;
    }
  }

  lemma U64ReadBack(n: nat)
    requires n < U64_RANGE
    ensures LittleEndianValue(U64Le(n)) == n
  {
    assert Power256(4) == 0x1_0000_0000;
    assert Power256(8) == 256 * (256 * (256 * (256 * Power256(4))));
    LittleEndianReadBack(n, 8);
  }

  lemma {:induction false} FramesReadBack(d: seq<Bytes>)
    requires forall i | 0 <= i < |d| :: |d[i]| < U64_RANGE
    ensures ReadFrames(Flatten(Frames(d)), |d|) == Some(d)
    decreases |d|
  {
    if d != [] {
      FramesHead(d);
      FramesReadBack(d[1..]);
      U64ReadBack(|d[0]|);
      var b, n, rest := Flatten(Frames(d)), |d[0]|, Flatten(Frames(d[1..]));
      OneFrame(U64Le(n), d[0], rest);
      assert d == [d[0]] + d[1..];
    }
  }

  lemma OneFrame(head: Bytes, body: Bytes, rest: Bytes)
    requires |head| == 8
    ensures var b := head + body + rest;
      b[..8] == head && b[8..8 + |body|] == body && b[8 + |body|..] == rest
  {
  }

  /** The bytes read back to the listing: the count, then each pattern's length and bytes. */
  lemma ParamsReadBack(d: seq<Bytes>)
    requires Framable(d)
    ensures ReadParams(Params(d)) == Some(d)
  {
    U64ReadBack(|d|);
    FramesReadBack(d);
    assert Params(d)[..8] == U64Le(|d|) && Params(d)[8..] == Flatten(Frames(d));
  }
}
