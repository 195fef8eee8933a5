/**
 Key order of the CA bundle's signing bytes (src/storage/bundle-canonical.ts):
 shorter UTF-8 first, then byte by byte. That is the bytewise order of the
 deterministic CBOR encodings, section 4.2.1 of RFC 8949.
 */
module BundleCanonical {
  import opened Wrappers
  import opened Order
  import opened Utf8
  import opened Words
  import opened Base64Url

  type Bytes = seq<Byte>

  /** The order of the comparator. */
  predicate CanonicalLess(a: Bytes, b: Bytes) {
    |a| < |b| || (|a| == |b| && LexLess(a, b))
  }

  method CompareKeys(ab: Bytes, bb: Bytes) returns (r: int)
    ensures r < 0 <==> CanonicalLess(ab, bb)
    ensures r == 0 <==> ab == bb
  {
    if |ab| != |bb| { return |ab| - |bb|; }
    for i := 0 to |ab|
      invariant ab[..i] == bb[..i]
    {
      if ab[i] != bb[i] {
        DecidedAt(ab, bb, i);
        return ab[i] as int - bb[i] as int;
      }
    }
    DecidedAt(ab, bb, |ab|);
    return 0;
  }

  // ---- Deterministic CBOR text strings ----

  function BigEndian(n: nat, width: nat): (b: Bytes)
    ensures |b| == width
  {
    if width == 0 then [] else BigEndian(n / 256, width - 1) + [n % 256]
  }

  /** Head of a text string of n bytes: major type 3, shortest length form. */
  function TextHead(n: nat): (h: Bytes)
    requires n < U64_RANGE
    ensures h != []
  {
    if n < 24 then [0x60 + n]
    else if n < 0x100 then [0x78] + BigEndian(n, 1)
    else if n < 0x1_0000 then [0x79] + BigEndian(n, 2)
    else if n < 0x1_0000_0000 then [0x7A] + BigEndian(n, 4)
    else [0x7B] + BigEndian(n, 8)
  }

  function CborText(b: Bytes): Bytes
    requires |b| < U64_RANGE
  {
    TextHead(|b|) + b
  }

  lemma {:induction false} BigEndianOrder(m: nat, n: nat, width: nat, x: seq<int>, y: seq<int>)
    requires m < n < Power256(width)
    ensures LexLess(BigEndian(m, width) + x, BigEndian(n, width) + y)
  {
    var mx, ny := [m % 256] + x, [n % 256] + y;
    assert BigEndian(m, width) + x == BigEndian(m / 256, width - 1) + mx;
    assert BigEndian(n, width) + y == BigEndian(n / 256, width - 1) + ny;
    if m / 256 < n / 256 {
      BigEndianOrder(m / 256, n / 256, width - 1, mx, ny);
    } else {
      assert m == m / 256 * 256 + m % 256 && n == n / 256 * 256 + n % 256;
      LexCommonPrefix(BigEndian(m / 256, width - 1), mx, ny);
    }
  }

  lemma SameInitialByte(c: int, a: seq<int>, b: seq<int>)
    requires LexLess(a, b)
    ensures LexLess([c] + a, [c] + b)
  {
    LexCommonPrefix([c], a, b);
  }

  lemma Powers()
    ensures Power256(1) == 0x100 && Power256(2) == 0x1_0000
    ensures Power256(4) == 0x1_0000_0000 && Power256(8) == U64_RANGE
  {
    assert Power256(3) == 0x100_0000;
    assert Power256(5) == 0x100_0000_0000;
    assert Power256(6) == 0x1_0000_0000_0000;
    assert Power256(7) == 0x100_0000_0000_0000;
  }

  /** Width in bytes of a length's argument in a text head; 0 when it fits the initial byte. */
  function HeadWidth(n: nat): nat {
    if n < 24 then 0 else if n < 0x100 then 1 else if n < 0x1_0000 then 2 else if n < 0x1_0000_0000 then 4 else 8
  }

  function InitialByte(n: nat): (c: int)
    requires n < U64_RANGE
    ensures c == TextHead(n)[0]
  {
    if n < 24 then 0x60 + n else if n < 0x100 then 0x78 else if n < 0x1_0000 then 0x79
    else if n < 0x1_0000_0000 then 0x7A else 0x7B
  }

  lemma HeadShape(n: nat)
    requires n < U64_RANGE
    ensures TextHead(n) == [InitialByte(n)] + BigEndian(n, HeadWidth(n))
    ensures HeadWidth(n) > 0 ==> n < Power256(HeadWidth(n))
  {
    Powers();
    if n < 24 { assert BigEndian(n, 0) == []; }
  }

  lemma InitialByteOrder(m: nat, n: nat)
    requires m < n < U64_RANGE
    ensures InitialByte(m) < InitialByte(n) || (InitialByte(m) == InitialByte(n) && HeadWidth(m) == HeadWidth(n) > 0)
  {
  }

  /** A shorter string's head sorts first whatever follows, across all five head sizes. */
  lemma ShorterHeadFirst(m: nat, n: nat, x: Bytes, y: Bytes)
    requires m < n < U64_RANGE
    ensures LexLess(TextHead(m) + x, TextHead(n) + y)
  {
    HeadShape(m);
    HeadShape(n);
    InitialByteOrder(m, n);
    var tm, tn := BigEndian(m, HeadWidth(m)) + x, BigEndian(n, HeadWidth(n)) + y;
    assert TextHead(m) + x == [InitialByte(m)] + tm;
    assert TextHead(n) + y == [InitialByte(n)] + tn;
    if InitialByte(m) == InitialByte(n) {
      BigEndianOrder(m, n, HeadWidth(n), x, y);
      SameInitialByte(InitialByte(n), tm, tn);
    }
  }

  /** Length-first-then-bytewise is the bytewise order of the CBOR encodings. */
  lemma ComparatorIsCborOrder(a: Bytes, b: Bytes)
    requires |a| < U64_RANGE && |b| < U64_RANGE
    ensures CanonicalLess(a, b) <==> LexLess(CborText(a), CborText(b))
  {
    if |a| < |b| {
      ShorterHeadFirst(|a|, |b|, a, b);
    } else if |b| < |a| {
      ShorterHeadFirst(|b|, |a|, b, a);
      LexAsymmetric(CborText(a), CborText(b));
    } else {
      LexCommonPrefix(TextHead(|a|), a, b);
    }
  }

  // ---- The sorted key list ----

  /** One entry of `bundle.keys`: key id and the public key's base64 text. */
  datatype KeyEntry = KeyEntry(kid: seq<Unit>, b64: seq<Unit>)

  datatype CborEntry = CborEntry(kid: seq<Unit>, value: Bytes)

  predicate EntryLeq(a: CborEntry, b: CborEntry) {
    !CanonicalLess(Encode(b.kid), Encode(a.kid))
  }

  predicate EntryLess(a: CborEntry, b: CborEntry) {
    CanonicalLess(Encode(a.kid), Encode(b.kid))
  }

  function SortStringKeysCanonical(entries: seq<CborEntry>): seq<CborEntry> {
    SortBy(entries, EntryLeq)
  }

  /** Base64-decode every value; None where `atob` throws. */
  function DecodeEntries(keys: seq<KeyEntry>): (r: Option<seq<CborEntry>>)
    ensures r.Some? ==> |r.value| == |keys|
    ensures r.Some? ==> forall i | 0 <= i < |keys| ::
      r.value[i].kid == keys[i].kid && B64Decode(keys[i].b64) == Some(r.value[i].value)
  {
    if keys == [] then Some([])
    else
      match (B64Decode(keys[0].b64), DecodeEntries(keys[1..]))
      case (Some(v), Some(rest)) => Some([CborEntry(keys[0].kid, v)] + rest)
      case _ => None
  }

  /** The `keys` map as `bundleCanonical` hands it to the CBOR encoder. */
  function CanonicalKeys(keys: seq<KeyEntry>): Option<seq<CborEntry>> {
    match DecodeEntries(keys)
    case None => None
    case Some(entries) => Some(SortStringKeysCanonical(entries))
  }

  lemma CanonicalLessIsStrictTotal(a: Bytes, b: Bytes, c: Bytes)
    ensures CanonicalLess(a, b) || a == b || CanonicalLess(b, a)
    ensures !(CanonicalLess(a, b) && CanonicalLess(b, a))
    ensures CanonicalLess(a, b) && CanonicalLess(b, c) ==> CanonicalLess(a, c)
  {
    LexTrichotomy(a, b);
    LexAsymmetric(a, b);
    if LexLess(a, b) && LexLess(b, c) {
      LexTransitive(a, b, c);
    }
  }

  lemma EntryOrder()
    ensures TotalPreorder(EntryLeq)
    ensures forall x, y :: !(EntryLess(x, y) && EntryLess(y, x))
  {
    forall x: CborEntry, y: CborEntry
      ensures EntryLeq(x, y) || EntryLeq(y, x)
      ensures !(EntryLess(x, y) && EntryLess(y, x))
    {
      CanonicalLessIsStrictTotal(Encode(x.kid), Encode(y.kid), []);
    }
    forall x: CborEntry, y: CborEntry, z: CborEntry | EntryLeq(x, y) && EntryLeq(y, z)
      ensures EntryLeq(x, z)
    {
      var a, b, c := Encode(x.kid), Encode(y.kid), Encode(z.kid);
      CanonicalLessIsStrictTotal(c, a, b);
      CanonicalLessIsStrictTotal(a, b, c);
      CanonicalLessIsStrictTotal(b, c, a);
    }
  }

  /** A JavaScript object: distinct keys, each well-formed text. */
  ghost predicate KeyObject(entries: seq<CborEntry>) {
    && (forall i | 0 <= i < |entries| :: WellFormed(entries[i].kid))
    && (forall i, j | 0 <= i < j < |entries| :: entries[i].kid != entries[j].kid)
  }

  lemma SortedStrictly(entries: seq<CborEntry>)
    requires KeyObject(entries)
    ensures StrictlySortedBy(SortStringKeysCanonical(entries), EntryLess)
  {
    var r := SortStringKeysCanonical(entries);
    EntryOrder();
    SortByIsSorted(entries, EntryLeq);
    SortByMembers(entries, EntryLeq);
    SortByKeepsNoDuplicates(entries, EntryLeq);
    forall i, j | 0 <= i < j < |r| ensures EntryLess(r[i], r[j]) {
      assert EntryLeq(r[i], r[j]) && r[i] != r[j];
      assert r[i] in entries && r[j] in entries;
      EncodeInjective(r[i].kid, r[j].kid);
      CanonicalLessIsStrictTotal(Encode(r[i].kid), Encode(r[j].kid), []);
    }
  }

  /** The signing list is a function of the key-to-value map, not of insertion order. */
  lemma SortedKeysDependOnMapOnly(a: seq<CborEntry>, b: seq<CborEntry>)
    requires KeyObject(a) && KeyObject(b)
    ensures SortStringKeysCanonical(a) == SortStringKeysCanonical(b) <==> (forall x :: x in a <==> x in b)
  {
    SortedStrictly(a);
    SortedStrictly(b);
    SortByMembers(a, EntryLeq);
    SortByMembers(b, EntryLeq);
    EntryOrder();
    if forall x :: x in a <==> x in b {
      StrictlySortedUnique(SortStringKeysCanonical(a), SortStringKeysCanonical(b), EntryLess);
    }
  }

  /** Adjacent keys of the list increase in the bytewise order of their encodings. */
  lemma SortedInCborOrder(entries: seq<CborEntry>, i: nat, j: nat)
    requires KeyObject(entries) && i < j < |entries|
    requires forall e :: e in entries ==> |Encode(e.kid)| < U64_RANGE
    ensures var r := SortStringKeysCanonical(entries);
      && |Encode(r[i].kid)| < U64_RANGE && |Encode(r[j].kid)| < U64_RANGE
      && LexLess(CborText(Encode(r[i].kid)), CborText(Encode(r[j].kid)))
  {
    var r := SortStringKeysCanonical(entries);
    SortedStrictly(entries);
    SortByMembers(entries, EntryLeq);
    assert r[i] in entries && r[j] in entries && EntryLess(r[i], r[j]);
    ComparatorIsCborOrder(Encode(r[i].kid), Encode(r[j].kid));
  }

  ghost predicate KeysObject(keys: seq<KeyEntry>) {
    && (forall i | 0 <= i < |keys| :: WellFormed(keys[i].kid))
    && (forall i, j | 0 <= i < j < |keys| :: keys[i].kid != keys[j].kid)
  }

  /** Reordering `bundle.keys` changes neither the list nor whether decoding throws. */
  lemma CanonicalKeysIgnoreInsertionOrder(a: seq<KeyEntry>, b: seq<KeyEntry>)
    requires KeysObject(a) && KeysObject(b)
    requires forall x :: x in a <==> x in b
    ensures CanonicalKeys(a) == CanonicalKeys(b)
  {
    DecodeTogether(a, b);
    if DecodeEntries(a).Some? {
      DecodedIncluded(a, b);
      DecodedIncluded(b, a);
      SortedKeysDependOnMapOnly(DecodeEntries(a).value, DecodeEntries(b).value);
    }
  }

  lemma DecodeTogether(a: seq<KeyEntry>, b: seq<KeyEntry>)
    requires forall x :: x in a <==> x in b
    ensures DecodeEntries(a).Some? <==> DecodeEntries(b).Some?
  {
    DecodeAllOrNone(a);
    DecodeAllOrNone(b);
  }

  lemma DecodeAllOrNone(a: seq<KeyEntry>)
    ensures DecodeEntries(a).Some? <==> forall x :: x in a ==> B64Decode(x.b64).Some?
  {
    if a != [] {
      DecodeAllOrNone(a[1..]);
      assert forall x :: x in a <==> x == a[0] || x in a[1..];
    }
  }

  lemma DecodedIncluded(a: seq<KeyEntry>, b: seq<KeyEntry>)
    requires DecodeEntries(a).Some? && DecodeEntries(b).Some?
    requires forall x :: x in a ==> x in b
    ensures forall e :: e in DecodeEntries(a).value ==> e in DecodeEntries(b).value
  {
    var ea, eb := DecodeEntries(a).value, DecodeEntries(b).value;
    forall e | e in ea ensures e in eb {
      var i :| 0 <= i < |ea| && ea[i] == e;
      assert a[i] in b;
      var j :| 0 <= j < |b| && b[j] == a[i];
      assert eb[j] == e;
    }
  }

  // ---- Reading a text string back ----

  /** The number whose most significant byte comes first. */
  function BigEndianValue(b: Bytes): nat {
    if b == [] then 0
    else
      var low: int := b[|b| - 1];
      256 * BigEndianValue(b[..|b| - 1]) + low
  }

  /** Bytes of argument after the initial byte; None for the reserved and indefinite forms. */
  function ArgumentWidth(initial: int): Option<nat> {
    var info := initial % 32;
    if info < 24 then Some(0)
    else if info == 24 then Some(1) else if info == 25 then Some(2)
    else if info == 26 then Some(4) else if info == 27 then Some(8) else None
  }

  /** One text string of section 3.1 of RFC 8949, major type 3, and what follows it. */
  function ReadText(b: Bytes): Option<(Bytes, Bytes)> {
    if b == [] || b[0] / 32 != 3 || ArgumentWidth(b[0]).None? then None
    else
      var w := ArgumentWidth(b[0]).value;
      if |b| < 1 + w then None
      else
        var n := if w == 0 then b[0] % 32 else BigEndianValue(b[1..1 + w]);
        if |b| < 1 + w + n then None else Some((b[1 + w..1 + w + n], b[1 + w + n..]))
  }

  lemma {:induction false} BigEndianReadBack(n: nat, width: nat)
    requires n < Power256(width)
    ensures BigEndianValue(BigEndian(n, width)) == n
    decreases width
  {
    if width > 0 {
      assert BigEndian(n, width)[..width - 1] == BigEndian(n / 256, width - 1);
      BigEndianReadBack(n / 256, width - 1);
      assert n == n / 256 * 256 + n % 256;
    }
  }

  lemma ThreeParts(c: Byte, argument: Bytes, body: Bytes, rest: Bytes)
    ensures var b, w := [c] + argument + body + rest, |argument|;
      b[0] == c && b[1..1 + w] == argument && b[1 + w..1 + w + |body|] == body && b[1 + w + |body|..] == rest
  {
  }

  /** The encoding is a CBOR text string of exactly those bytes, with the length in its shortest form. */
  lemma CborTextReadsBack(b: Bytes, rest: Bytes)
    requires |b| < U64_RANGE
    ensures ReadText(CborText(b) + rest) == Some((b, rest))
    ensures |CborText(b)| == |b| + (if |b| < 24 then 1 else if |b| < 0x100 then 2 else if |b| < 0x1_0000 then 3
                                    else if |b| < 0x1_0000_0000 then 5 else 9)
  {
    var n := |b|;
    HeadShape(n);
    var w := HeadWidth(n);
    var argument := BigEndian(n, w);
    if w > 0 { BigEndianReadBack(n, w); }
    assert ArgumentWidth(InitialByte(n)) == Some(w) && InitialByte(n) / 32 == 3 && (w == 0 ==> InitialByte(n) % 32 == n);
    ThreeParts(InitialByte(n), argument, b, rest);
    assert CborText(b) + rest == [InitialByte(n)] + argument + b + rest;
  }
}
