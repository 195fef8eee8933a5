/**
 The order of object keys in canonical text (src/storage/canonical.ts:84-85): the sort
 compares UTF-16 units, which is not always the order of code points.
 */
module CodePointOrder {
  import opened Order
  import opened Utf8
  import opened CanonicalJson

  function CodePoints(s: Text): seq<int>
    decreases |s|
  {
    if s == [] then []
    else if StartsWithPair(s) then [PairScalar(s[0], s[1])] + CodePoints(s[2..])
    else [s[0]] + CodePoints(s[1..])
  }

  /** Length of the common prefix. */
  function FirstDifference(a: Text, b: Text): (i: nat)
    ensures i <= |a| && i <= |b| && a[..i] == b[..i]
    ensures i < |a| && i < |b| ==> a[i] != b[i]
  {
    if a == [] || b == [] || a[0] != b[0] then 0
    else
      var i := FirstDifference(a[1..], b[1..]);
      assert a[..1 + i] == [a[0]] + a[1..][..i] && b[..1 + i] == [b[0]] + b[1..][..i];
      1 + i
  }

  /** The texts first differ where one has a surrogate and the other a unit from U+E000 up. */
  predicate Clash(a: Text, b: Text) {
    var i := FirstDifference(a, b);
    i < |a| && i < |b| && ((IsSurrogate(a[i]) && b[i] >= 0xE000) || (IsSurrogate(b[i]) && a[i] >= 0xE000))
  }

  predicate SameOrder(a: Text, b: Text) { LexLess(a, b) == LexLess(CodePoints(a), CodePoints(b)) }

  lemma CommonUnit(a: Text, b: Text)
    requires a != [] && b != [] && a[0] == b[0]
    ensures Clash(a, b) == Clash(a[1..], b[1..]) && LexLess(a, b) == LexLess(a[1..], b[1..])
  {
  }

  lemma CommonHead(c: int, x: seq<int>, y: seq<int>)
    ensures LexLess([c] + x, [c] + y) == LexLess(x, y)
  {
    LexCommonPrefix([c], x, y);
  }

  lemma DifferentPairs(a: Text, b: Text)
    requires StartsWithPair(a) && StartsWithPair(b) && a[..2] != b[..2]
    ensures SameOrder(a, b) && !Clash(a, b)
  {
    assert a[0] != b[0] || a[1] != b[1];
    if a[0] == b[0] { CommonUnit(a, b); }
    assert PairScalar(a[0], a[1]) < PairScalar(b[0], b[1]) <==> a[0] < b[0] || (a[0] == b[0] && a[1] < b[1]);
  }

  lemma DifferentHeads(a: Text, b: Text)
    requires a != [] && b != [] && a[0] != b[0] && WellFormed(a) && WellFormed(b)
    requires !(StartsWithPair(a) && StartsWithPair(b))
    ensures SameOrder(a, b) <==> !Clash(a, b)
  {
  }

  /** Sorting by code unit and by code point disagree about two texts exactly when they clash. */
  lemma {:induction false} OrdersDisagreeExactly(a: Text, b: Text)
    requires WellFormed(a) && WellFormed(b)
    ensures SameOrder(a, b) <==> !Clash(a, b)
    decreases |a|
  {
    if a == [] || b == [] {
    } else if StartsWithPair(a) && StartsWithPair(b) {
      if a[..2] == b[..2] {
        assert a[0] == b[0] && a[1] == b[1];
        CommonUnit(a, b);
        CommonUnit(a[1..], b[1..]);
        assert a[1..][1..] == a[2..] && b[1..][1..] == b[2..];
        CommonHead(PairScalar(a[0], a[1]), CodePoints(a[2..]), CodePoints(b[2..]));
        OrdersDisagreeExactly(a[2..], b[2..]);
      } else {
        DifferentPairs(a, b);
      }
    } else if a[0] == b[0] {
      CommonUnit(a, b);
      CommonHead(a[0], CodePoints(a[1..]), CodePoints(b[1..]));
      OrdersDisagreeExactly(a[1..], b[1..]);
    } else {
      DifferentHeads(a, b);
    }
  }

  ghost predicate InCodePointOrder(keys: seq<Text>) {
    forall i, j | 0 <= i < j < |keys| :: LexLess(CodePoints(keys[i]), CodePoints(keys[j]))
  }

  ghost predicate NoClash(keys: seq<Text>) {
    forall i, j | 0 <= i < j < |keys| :: !Clash(keys[i], keys[j])
  }

  /** The members of a canonical object stand in code-point order exactly when no two of its keys clash. */
  lemma KeysInCodePointOrderExactly(fields: seq<Field>)
    requires DistinctKeys(fields) && forall i | 0 <= i < |Live(fields)| :: WellFormed(Keys(Live(fields))[i])
    ensures InCodePointOrder(Keys(Live(fields))) <==> NoClash(Keys(Live(fields)))
  {
    var keys := Keys(Live(fields));
    LiveKeysIncrease(fields);
    forall i, j | 0 <= i < j < |keys| ensures LexLess(CodePoints(keys[i]), CodePoints(keys[j])) <==> !Clash(keys[i], keys[j]) {
      assert KeyLess(keys[i], keys[j]);
      OrdersDisagreeExactly(keys[i], keys[j]);
    }
  }

  /** U+1F600 sorts before U+FF3A by code unit and after it by code point. */
  lemma AstralKeyComesFirst()
    ensures var astral, bmp: Text := [0xD83D, 0xDE00], [0xFF3A];
      && WellFormed(astral) && WellFormed(bmp) && CodePoints(astral) == [0x1F600] && CodePoints(bmp) == [0xFF3A]
      && LexLess(astral, bmp) && LexLess(CodePoints(bmp), CodePoints(astral)) && Clash(astral, bmp)
  {
    var astral, bmp: Text := [0xD83D, 0xDE00], [0xFF3A];
    assert astral[2..] == [] && bmp[1..] == [];
    assert CodePoints([]) == [] && WellFormed([]);
  }
}
