/**
 Canonical JSON (src/storage/canonical.ts). Values are JavaScript values whose
 objects list their fields in insertion order; what a value means is a tree in
 which an object is a finite map. The text and the meaning determine each other.
 */
module CanonicalJson {
  import opened Wrappers
  import opened Order
  import opened Sequences
  import opened Utf8
  import Decimal

  type Text = seq<Unit>

  type PlainInt = Decimal.PlainInt

  datatype Value =
    | Null
    | Bool(b: bool)
    | Num(n: PlainInt)
    | NonFinite
    | Str(s: Text)
    | Arr(items: seq<Value>)
    | Obj(fields: seq<Field>)
    | Undefined
    | Unsupported // functions, symbols, bigints

  datatype Field = Field(key: Text, value: Value)

  datatype Meaning =
    | MNull
    | MBool(b: bool)
    | MNum(n: int)
    | MStr(s: Text)
    | MArr(items: seq<Meaning>)
    | MObj(members: map<Text, Meaning>)

  const QUOTE: Unit := 34
  const BACKSLASH: Unit := 92
  const COMMA: Unit := 44
  const COLON: Unit := 58
  const OPEN_BRACKET: Unit := 91
  const CLOSE_BRACKET: Unit := 93
  const OPEN_BRACE: Unit := 123
  const CLOSE_BRACE: Unit := 125
  const NULL_TEXT: Text := [110, 117, 108, 108]
  const TRUE_TEXT: Text := [116, 114, 117, 101]
  const FALSE_TEXT: Text := [102, 97, 108, 115, 101]

  // ---- Nesting depth, the termination measure ----

  function Depth(v: Value): nat {
    match v
    case Arr(items) => 1 + ItemsDepth(items)
    case Obj(fields) => 1 + FieldsDepth(fields)
    case _ => 0
  }

  function ItemsDepth(items: seq<Value>): (d: nat)
    ensures forall i | 0 <= i < |items| :: Depth(items[i]) <= d
  {
    if items == [] then 0
    else
      var a, b := Depth(items[0]), ItemsDepth(items[1..]);
      if a < b then b else a
  }

  function FieldsDepth(fields: seq<Field>): (d: nat)
    ensures forall i | 0 <= i < |fields| :: Depth(fields[i].value) <= d
  {
    if fields == [] then 0
    else
      var a, b := Depth(fields[0].value), FieldsDepth(fields[1..]);
      if a < b then b else a
  }

  lemma FieldsDepthBound(fields: seq<Field>, d: nat)
    requires forall f :: f in fields ==> Depth(f.value) <= d
    ensures FieldsDepth(fields) <= d
  {
    if fields != [] {
      assert fields[0] in fields;
      assert forall f :: f in fields[1..] ==> f in fields;
      FieldsDepthBound(fields[1..], d);
    }
  }

  // ---- The encoder ----

  predicate KeyLeq(a: Field, b: Field) { LexLeq(a.key, b.key) }

  predicate IsDefined(f: Field) { f.value != Undefined }

  /** Fields in key order, undefined entries left out. */
  function Live(fields: seq<Field>): (r: seq<Field>)
    ensures forall f :: f in r <==> f in fields && f.value != Undefined
    ensures FieldsDepth(r) <= FieldsDepth(fields)
  {
    var r := Filter(SortBy(fields, KeyLeq), IsDefined);
    SortByMembers(fields, KeyLeq);
    FieldsDepthBound(r, FieldsDepth(fields));
    r
  }

  function HexDigit(v: int): Unit
    requires 0 <= v < 16
  {
    if v < 10 then 48 + v else 97 + (v - 10)
  }

  function UnicodeEscape(u: Unit): Text {
    [BACKSLASH, 117, HexDigit(u / 0x1000), HexDigit(u / 0x100 % 16), HexDigit(u / 0x10 % 16), HexDigit(u % 16)]
  }

  function QuoteUnit(u: Unit): (t: Text)
    ensures t != []
  {
    if u == 8 then [BACKSLASH, 98]
    else if u == 9 then [BACKSLASH, 116]
    else if u == 10 then [BACKSLASH, 110]
    else if u == 12 then [BACKSLASH, 102]
    else if u == 13 then [BACKSLASH, 114]
    else if u == QUOTE then [BACKSLASH, QUOTE]
    else if u == BACKSLASH then [BACKSLASH, BACKSLASH]
    else if u < 0x20 || IsSurrogate(u) then UnicodeEscape(u)
    else [u]
  }

  function QuoteBody(s: Text): Text {
    if s == [] then []
    else if StartsWithPair(s) then s[..2] + QuoteBody(s[2..])
    else QuoteUnit(s[0]) + QuoteBody(s[1..])
  }

  /** QuoteJSONString, section 25.5.2.3 of ECMA-262. */
  function Quote(s: Text): Text {
    [QUOTE] + QuoteBody(s) + [QUOTE]
  }

  /** `stringify`; None where it throws a TypeError. */
  function Stringify(v: Value): Option<Text>
    decreases Depth(v), 0
  {
    match v
    case Null => Some(NULL_TEXT)
    case Bool(b) => Some(if b then TRUE_TEXT else FALSE_TEXT)
    case Num(n) => Some(Decimal.Text(n))
    case Str(s) => Some(Quote(s))
    case Arr(items) =>
      (match Elements(items)
       case None => None
       case Some(ts) => Some([OPEN_BRACKET] + Join(ts, COMMA) + [CLOSE_BRACKET]))
    case Obj(fields) =>
      (match Members(Live(fields))
       case None => None
       case Some(ts) => Some([OPEN_BRACE] + Join(ts, COMMA) + [CLOSE_BRACE]))
    case NonFinite => None
    case Undefined => None
    case Unsupported => None
  }

  function Elements(items: seq<Value>): (r: Option<seq<Text>>)
    ensures r.Some? ==> |r.value| == |items|
    decreases ItemsDepth(items), 1, |items|
  {
    if items == [] then Some([])
    else
      match (Stringify(items[0]), Elements(items[1..]))
      case (Some(t), Some(ts)) => Some([t] + ts)
      case _ => None
  }

  function Members(fields: seq<Field>): (r: Option<seq<Text>>)
    ensures r.Some? ==> |r.value| == |fields|
    decreases FieldsDepth(fields), 1, |fields|
  {
    if fields == [] then Some([])
    else
      match (Stringify(fields[0].value), Members(fields[1..]))
      case (Some(t), Some(ts)) => Some([Quote(fields[0].key) + [COLON] + t] + ts)
      case _ => None
  }

  /** `canonical`: the UTF-8 bytes of the text. */
  function Canonical(v: Value): Option<seq<Byte>> {
    match Stringify(v)
    case None => None
    case Some(t) => Some(Encode(t))
  }

  // ---- Meaning ----

  ghost predicate DistinctKeys(fields: seq<Field>) {
    forall i, j | 0 <= i < j < |fields| :: fields[i].key != fields[j].key
  }

  /** A value the encoder accepts: object keys are distinct, as in JavaScript. */
  ghost predicate Canonicalizable(v: Value) {
    match v
    case Arr(items) => forall i | 0 <= i < |items| :: Canonicalizable(items[i])
    case Obj(fields) =>
      && DistinctKeys(fields)
      && forall i | 0 <= i < |fields| :: fields[i].value == Undefined || Canonicalizable(fields[i].value)
    case NonFinite => false
    case Undefined => false
    case Unsupported => false
    case _ => true
  }

  ghost function MeaningOf(v: Value): Meaning
    requires Canonicalizable(v)
    decreases Depth(v), 0
  {
    match v
    case Null => MNull
    case Bool(b) => MBool(b)
    case Num(n) => MNum(n)
    case Str(s) => MStr(s)
    case Arr(items) => MArr(ItemMeanings(items))
    case Obj(fields) => MObj(FieldMeanings(fields))
  }

  /** An object as a finite map; undefined fields are absent. */
  ghost function FieldMeanings(fields: seq<Field>): map<Text, Meaning>
    requires forall i | 0 <= i < |fields| :: fields[i].value == Undefined || Canonicalizable(fields[i].value)
    decreases FieldsDepth(fields), 1, |fields|
  {
    if fields == [] then map[]
    else if fields[0].value == Undefined then FieldMeanings(fields[1..])
    else FieldMeanings(fields[1..])[fields[0].key := MeaningOf(fields[0].value)]
  }

  ghost function ItemMeanings(items: seq<Value>): (r: seq<Meaning>)
    requires forall i | 0 <= i < |items| :: Canonicalizable(items[i])
    ensures |r| == |items|
    decreases ItemsDepth(items), 1, |items|
  {
    if items == [] then [] else [MeaningOf(items[0])] + ItemMeanings(items[1..])
  }

  // ---- Equal meaning gives equal text ----

  predicate KeyLess(a: Text, b: Text) { LexLess(a, b) }

  function Keys(fields: seq<Field>): (r: seq<Text>)
    ensures |r| == |fields|
    ensures forall i | 0 <= i < |r| :: r[i] == fields[i].key
  {
    if fields == [] then [] else [fields[0].key] + Keys(fields[1..])
  }

  lemma FilterKeepsDistinctKeys(fields: seq<Field>)
    requires DistinctKeys(fields)
    ensures DistinctKeys(Filter(fields, IsDefined))
  {
    if fields != [] {
      var rest := fields[1..];
      assert DistinctKeys(rest) by {
        forall i, j | 0 <= i < j < |rest| ensures rest[i].key != rest[j].key {
          assert fields[i + 1].key != fields[j + 1].key;
        }
      }
      FilterKeepsDistinctKeys(rest);
      var r := Filter(rest, IsDefined);
      forall j | 0 <= j < |r| ensures r[j].key != fields[0].key {
        assert r[j] in rest;
      }
    }
  }

  lemma SortKeepsDistinctKeys(fields: seq<Field>)
    requires DistinctKeys(fields)
    ensures DistinctKeys(SortBy(fields, KeyLeq))
  {
    SortByKeepsNoDuplicates(fields, KeyLeq);
    SortByMembers(fields, KeyLeq);
    var r := SortBy(fields, KeyLeq);
    forall i, j | 0 <= i < j < |r| ensures r[i].key != r[j].key {
      assert r[i] in fields && r[j] in fields;
    }
  }

  lemma KeyLeqIsTotalPreorder()
    ensures TotalPreorder(KeyLeq)
  {
    LexLeqIsTotalOrder();
    forall x: Field, y: Field ensures KeyLeq(x, y) || KeyLeq(y, x) {
      assert LexLeq(x.key, y.key) || LexLeq(y.key, x.key);
    }
    forall x: Field, y: Field, z: Field | KeyLeq(x, y) && KeyLeq(y, z) ensures KeyLeq(x, z) {
      assert LexLeq(x.key, y.key) && LexLeq(y.key, z.key);
    }
  }

  lemma FilterKeepsOrder(fields: seq<Field>)
    requires SortedBy(fields, KeyLeq)
    ensures SortedBy(Filter(fields, IsDefined), KeyLeq)
  {
    if fields != [] {
      var rest := fields[1..];
      assert SortedBy(rest, KeyLeq) by {
        forall i, j | 0 <= i < j < |rest| ensures KeyLeq(rest[i], rest[j]) {
          assert KeyLeq(fields[i + 1], fields[j + 1]);
        }
      }
      FilterKeepsOrder(rest);
      var r := Filter(rest, IsDefined);
      forall j | 0 <= j < |r| ensures KeyLeq(fields[0], r[j]) {
        assert r[j] in rest;
        var k :| 0 <= k < |rest| && rest[k] == r[j];
        assert KeyLeq(fields[0], fields[k + 1]);
      }
    }
  }

  /** Keys come out strictly increasing in UTF-16 code-unit order. */
  lemma LiveKeysIncrease(fields: seq<Field>)
    requires DistinctKeys(fields)
    ensures StrictlySortedBy(Keys(Live(fields)), KeyLess)
  {
    KeyLeqIsTotalPreorder();
    SortByIsSorted(fields, KeyLeq);
    SortKeepsDistinctKeys(fields);
    FilterKeepsDistinctKeys(SortBy(fields, KeyLeq));
    FilterKeepsOrder(SortBy(fields, KeyLeq));
    var r := Live(fields);
    forall i, j | 0 <= i < j < |r| ensures KeyLess(Keys(r)[i], Keys(r)[j]) {
      assert KeyLeq(r[i], r[j]) && r[i].key != r[j].key;
    }
  }

  ghost predicate AllCanonicalizable(fields: seq<Field>) {
    forall i | 0 <= i < |fields| :: Canonicalizable(fields[i].value)
  }

  ghost predicate FieldsCanonicalizable(fields: seq<Field>) {
    && DistinctKeys(fields)
    && forall i | 0 <= i < |fields| :: fields[i].value == Undefined || Canonicalizable(fields[i].value)
  }

  lemma TailCanonicalizable(fields: seq<Field>)
    requires fields != [] && FieldsCanonicalizable(fields)
    ensures FieldsCanonicalizable(fields[1..])
  {
    var rest := fields[1..];
    forall i, j | 0 <= i < j < |rest| ensures rest[i].key != rest[j].key {
      assert fields[i + 1].key != fields[j + 1].key;
    }
  }

  lemma FieldInMeaning(fields: seq<Field>, i: nat)
    requires FieldsCanonicalizable(fields)
    requires i < |fields| && fields[i].value != Undefined
    ensures fields[i].key in FieldMeanings(fields)
    ensures FieldMeanings(fields)[fields[i].key] == MeaningOf(fields[i].value)
  {
    if i > 0 {
      TailCanonicalizable(fields);
      FieldInMeaning(fields[1..], i - 1);
    }
  }

  lemma KeyFromMeaning(fields: seq<Field>, k: Text) returns (i: nat)
    requires FieldsCanonicalizable(fields)
    requires k in FieldMeanings(fields)
    ensures i < |fields| && fields[i].key == k && fields[i].value != Undefined
  {
    if fields[0].key == k && fields[0].value != Undefined {
      i := 0;
    } else {
      TailCanonicalizable(fields);
      var j := KeyFromMeaning(fields[1..], k);
      i := j + 1;
    }
  }

  /** The members of an object are exactly its live fields. */
  lemma LiveMembers(fields: seq<Field>)
    requires FieldsCanonicalizable(fields)
    ensures AllCanonicalizable(Live(fields))
    ensures forall k :: k in FieldMeanings(fields) <==> k in Keys(Live(fields))
    ensures forall i | 0 <= i < |Live(fields)| ::
      && Live(fields)[i].key in FieldMeanings(fields)
      && FieldMeanings(fields)[Live(fields)[i].key] == MeaningOf(Live(fields)[i].value)
  {
    var r, m := Live(fields), FieldMeanings(fields);
    forall i | 0 <= i < |r|
      ensures Canonicalizable(r[i].value) && r[i].key in m && m[r[i].key] == MeaningOf(r[i].value)
    {
      assert r[i] in r;
      var j :| 0 <= j < |fields| && fields[j] == r[i];
      FieldInMeaning(fields, j);
    }
    forall k ensures k in m <==> k in Keys(r) {
      if k in m {
        var j := KeyFromMeaning(fields, k);
        assert fields[j] in r;
        var i :| 0 <= i < |r| && r[i] == fields[j];
        assert Keys(r)[i] == k;
      }
    }
  }

  ghost predicate SameMembers(a: seq<Field>, b: seq<Field>)
    requires AllCanonicalizable(a) && AllCanonicalizable(b)
  {
    && |a| == |b|
    && forall i | 0 <= i < |a| :: a[i].key == b[i].key && MeaningOf(a[i].value) == MeaningOf(b[i].value)
  }

  lemma SameMapSameMembers(f: seq<Field>, g: seq<Field>)
    requires Canonicalizable(Obj(f)) && Canonicalizable(Obj(g))
    requires MeaningOf(Obj(f)) == MeaningOf(Obj(g))
    ensures AllCanonicalizable(Live(f)) && AllCanonicalizable(Live(g))
    ensures SameMembers(Live(f), Live(g))
  {
    LiveMembers(f);
    LiveMembers(g);
    LiveKeysIncrease(f);
    LiveKeysIncrease(g);
    forall a: Text, b: Text ensures !(KeyLess(a, b) && KeyLess(b, a)) {
      LexAsymmetric(a, b);
    }
    StrictlySortedUnique(Keys(Live(f)), Keys(Live(g)), KeyLess);
    var a, b := Live(f), Live(g);
    assert |a| == |Keys(a)| == |b|;
    forall i | 0 <= i < |a| ensures a[i].key == b[i].key && MeaningOf(a[i].value) == MeaningOf(b[i].value) {
      assert Keys(a)[i] == Keys(b)[i];
    }
  }

  lemma {:induction false} MeaningDeterminesText(v: Value, w: Value)
    requires Canonicalizable(v) && Canonicalizable(w) && MeaningOf(v) == MeaningOf(w)
    ensures Stringify(v) == Stringify(w)
    decreases Depth(v), 0
  {
    match v
    case Arr(items) =>
      assert MeaningOf(v).MArr? && w.Arr?;
      ItemsAgree(items, w.items);
    case Obj(fields) =>
      assert MeaningOf(v).MObj? && w.Obj?;
      SameMapSameMembers(fields, w.fields);
      MembersAgree(Live(fields), Live(w.fields));
    case _ =>
  }

  lemma {:induction false} ItemsAgree(a: seq<Value>, b: seq<Value>)
    requires forall i | 0 <= i < |a| :: Canonicalizable(a[i])
    requires forall i | 0 <= i < |b| :: Canonicalizable(b[i])
    requires ItemMeanings(a) == ItemMeanings(b)
    ensures Elements(a) == Elements(b)
    decreases ItemsDepth(a), 1, |a|
  {
    assert |a| == |ItemMeanings(a)| == |b|;
    if a != [] {
      assert ItemMeanings(a)[1..] == ItemMeanings(a[1..]);
      assert ItemMeanings(b)[1..] == ItemMeanings(b[1..]);
      assert ItemMeanings(a)[0] == ItemMeanings(b)[0];
      MeaningDeterminesText(a[0], b[0]);
      ItemsAgree(a[1..], b[1..]);
    }
  }

  lemma {:induction false} MembersAgree(a: seq<Field>, b: seq<Field>)
    requires AllCanonicalizable(a) && AllCanonicalizable(b) && SameMembers(a, b)
    ensures Members(a) == Members(b)
    decreases FieldsDepth(a), 1, |a|
  {
    if a != [] {
      MeaningDeterminesText(a[0].value, b[0].value);
      assert SameMembers(a[1..], b[1..]) by {
        forall i | 0 <= i < |a[1..]|
          ensures a[1..][i].key == b[1..][i].key && MeaningOf(a[1..][i].value) == MeaningOf(b[1..][i].value)
        {
          assert a[1..][i] == a[i + 1] && b[1..][i] == b[i + 1];
        }
      }
      MembersAgree(a[1..], b[1..]);
    }
  }

  // ---- A decoder of canonical text ----

  // It knows the grammar by character, and takes an object's members in strictly increasing key order only.

  predicate IsHex(u: Unit) { 48 <= u <= 57 || 97 <= u <= 102 }

  function HexValue(u: Unit): (v: int)
    requires IsHex(u)
    ensures 0 <= v < 16
  {
    if u <= 57 then u - 48 else u - 97 + 10
  }

  /** One escape sequence after its backslash: the unit and what follows. */
  function ParseEscape(t: Text): (r: Option<(Unit, Text)>)
    ensures r.Some? ==> |r.value.1| < |t|
  {
    if t == [] then None
    else if t[0] == 98 then Some((8, t[1..]))
    else if t[0] == 116 then Some((9, t[1..]))
    else if t[0] == 110 then Some((10, t[1..]))
    else if t[0] == 102 then Some((12, t[1..]))
    else if t[0] == 114 then Some((13, t[1..]))
    else if t[0] == 34 then Some((34, t[1..]))
    else if t[0] == 92 then Some((92, t[1..]))
    else if t[0] == 117 && |t| >= 5 && IsHex(t[1]) && IsHex(t[2]) && IsHex(t[3]) && IsHex(t[4]) then
      Some((HexValue(t[1]) * 0x1000 + HexValue(t[2]) * 0x100 + HexValue(t[3]) * 0x10 + HexValue(t[4]), t[5..]))
    else None
  }

  /** String content up to the closing quote. */
  function ParseChars(t: Text): (r: Option<(Text, Text)>)
    ensures r.Some? ==> |r.value.1| < |t|
    decreases |t|
  {
    if t == [] then None
    else if t[0] == 34 then Some(([], t[1..]))
    else if t[0] == 92 then
      match ParseEscape(t[1..])
      case None => None
      case Some((u, rest)) =>
        (match ParseChars(rest)
         case None => None
         case Some((s, rest')) => Some(([u] + s, rest')))
    else
      match ParseChars(t[1..])
      case None => None
      case Some((s, rest)) => Some(([t[0]] + s, rest))
  }

  function ParseNumber(t: Text): (r: Option<(int, Text)>)
    ensures r.Some? ==> |r.value.1| < |t|
  {
    if t != [] && t[0] == 45 then
      var k := Decimal.DigitRun(t[1..]);
      if k == 0 then None else Some((-Decimal.DigitsValue(t[1..][..k]), t[1..][k..]))
    else
      var k := Decimal.DigitRun(t);
      if k == 0 then None else Some((Decimal.DigitsValue(t[..k]), t[k..]))
  }

  function ParseWord(t: Text, word: Text, m: Meaning): (r: Option<(Meaning, Text)>)
    requires word != []
    ensures r.Some? ==> |r.value.1| < |t|
  {
    if word <= t then Some((m, t[|word|..])) else None
  }

  function ParseString(t: Text): (r: Option<(Meaning, Text)>)
    ensures r.Some? ==> |r.value.1| < |t|
  {
    match ParseChars(t)
    case None => None
    case Some((s, rest)) => Some((MStr(s), rest))
  }

  function ParseValue(t: Text): (r: Option<(Meaning, Text)>)
    ensures r.Some? ==> |r.value.1| < |t|
    decreases |t|, 1
  {
    if t == [] then None
    else if t[0] == 110 then ParseWord(t, Ascii("null"), MNull)
    else if t[0] == 116 then ParseWord(t, Ascii("true"), MBool(true))
    else if t[0] == 102 then ParseWord(t, Ascii("false"), MBool(false))
    else if t[0] == 34 then ParseString(t[1..])
    else if t[0] == 91 then ParseArray(t[1..])
    else if t[0] == 123 then ParseObject(t[1..])
    else
      match ParseNumber(t)
      case None => None
      case Some((n, rest)) => Some((MNum(n), rest))
  }

  function ParseArray(t: Text): (r: Option<(Meaning, Text)>)
    ensures r.Some? ==> |r.value.1| < |t|
    decreases |t|, 3
  {
    if t != [] && t[0] == 93 then Some((MArr([]), t[1..]))
    else
      match ParseElements(t)
      case None => None
      case Some((ms, rest)) => Some((MArr(ms), rest))
  }

  function ParseObject(t: Text): (r: Option<(Meaning, Text)>)
    ensures r.Some? ==> |r.value.1| < |t|
    decreases |t|, 3
  {
    if t != [] && t[0] == 125 then Some((MObj(map[]), t[1..]))
    else
      match ParseMembers(t)
      case None => None
      case Some((m, rest)) => Some((MObj(m), rest))
  }

  function ParseElements(t: Text): (r: Option<(seq<Meaning>, Text)>)
    ensures r.Some? ==> |r.value.1| < |t|
    decreases |t|, 2
  {
    match ParseValue(t)
    case None => None
    case Some((m, rest)) =>
      if rest == [] then None
      else if rest[0] == 93 then Some(([m], rest[1..]))
      else if rest[0] != 44 then None
      else
        match ParseElements(rest[1..])
        case None => None
        case Some((ms, rest')) => Some(([m] + ms, rest'))
  }

  function ParseMembers(t: Text): (r: Option<(map<Text, Meaning>, Text)>)
    ensures r.Some? ==> |r.value.1| < |t|
    decreases |t|, 2
  {
    if t == [] || t[0] != 34 then None
    else
      match ParseChars(t[1..])
      case None => None
      case Some((k, rest)) =>
        if rest == [] || rest[0] != 58 then None
        else
          match ParseValue(rest[1..])
          case None => None
          case Some((m, after)) =>
            if after == [] then None
            else if after[0] == 125 then Some((map[k := m], after[1..]))
            else if after[0] != 44 then None
            else
              match ParseMembers(after[1..])
              case None => None
              case Some((ms, after')) =>
                if exists next | next in ms :: !LexLess(k, next) then None else Some((map[k := m] + ms, after'))
  }

  function Decode(t: Text): Option<Meaning> {
    match ParseValue(t)
    case None => None
    case Some((m, rest)) => if rest == [] then Some(m) else None
  }

  // ---- The decoder undoes the encoder ----

  lemma ParseEscapeOfUnit(u: Unit, rest: Text)
    requires QuoteUnit(u)[0] == BACKSLASH
    ensures ParseEscape(QuoteUnit(u)[1..] + rest) == Some((u, rest))
  {
    var e := QuoteUnit(u)[1..];
    assert (e + rest)[|e|..] == rest;
    if QuoteUnit(u) == UnicodeEscape(u) {
      var q := u / 0x10;
      assert u / 0x100 == q / 0x10 && u / 0x1000 == q / 0x10 / 0x10;
      assert forall i | 0 <= i < |e| :: (e + rest)[i] == e[i];
    }
  }

  lemma ParseLiteralUnit(u: Unit, more: Text, s: Text, rest: Text)
    requires u != QUOTE && u != BACKSLASH
    requires ParseChars(more) == Some((s, rest))
    ensures ParseChars([u] + more) == Some(([u] + s, rest))
  {
    assert ([u] + more)[1..] == more;
  }

  lemma ParseQuotedUnit(u: Unit, more: Text, s: Text, rest: Text)
    requires ParseChars(more) == Some((s, rest))
    ensures ParseChars(QuoteUnit(u) + more) == Some(([u] + s, rest))
  {
    var q := QuoteUnit(u);
    if q[0] == BACKSLASH {
      assert (q + more)[1..] == q[1..] + more;
      ParseEscapeOfUnit(u, more);
    } else {
      ParseLiteralUnit(u, more, s, rest);
    }
  }

  lemma ParseQuotedPair(s: Text, tail: Text, rest: Text)
    requires StartsWithPair(s)
    requires ParseChars(QuoteBody(s[2..]) + tail) == Some((s[2..], rest))
    ensures ParseChars(QuoteBody(s) + tail) == Some((s, rest))
  {
    var more := QuoteBody(s[2..]) + tail;
    ParseLiteralUnit(s[1], more, s[2..], rest);
    ParseLiteralUnit(s[0], [s[1]] + more, [s[1]] + s[2..], rest);
    assert QuoteBody(s) + tail == [s[0]] + ([s[1]] + more);
    assert s == [s[0]] + ([s[1]] + s[2..]);
  }

  lemma UnfoldQuoteBody(s: Text)
    requires s != [] && !StartsWithPair(s)
    ensures QuoteBody(s) == QuoteUnit(s[0]) + QuoteBody(s[1..])
  {
  }

  lemma ParseQuotedHead(s: Text, tail: Text, rest: Text)
    requires s != [] && !StartsWithPair(s)
    requires ParseChars(QuoteBody(s[1..]) + tail) == Some((s[1..], rest))
    ensures ParseChars(QuoteBody(s) + tail) == Some((s, rest))
  {
    var body := QuoteBody(s[1..]);
    ParseQuotedUnit(s[0], body + tail, s[1..], rest);
    UnfoldQuoteBody(s);
    Regroup(QuoteUnit(s[0]), body, tail);
    assert s == [s[0]] + s[1..];
  }

  lemma {:induction false} ParseCharsOfQuote(s: Text, tail: Text)
    requires tail != [] && tail[0] == QUOTE
    ensures ParseChars(QuoteBody(s) + tail) == Some((s, tail[1..]))
    decreases |s|
  {
    if s == [] {
      assert QuoteBody(s) + tail == tail;
    } else if StartsWithPair(s) {
      ParseCharsOfQuote(s[2..], tail);
      ParseQuotedPair(s, tail, tail[1..]);
    } else {
      ParseCharsOfQuote(s[1..], tail);
      ParseQuotedHead(s, tail, tail[1..]);
    }
  }

  /** The digits of a number are cut off exactly, whatever follows them. */
  lemma DigitsCutOff(n: nat, rest: Text)
    requires rest == [] || !Decimal.IsDigit(rest[0])
    ensures var d := Decimal.Digits(n);
      && Decimal.DigitRun(d + rest) == |d| && (d + rest)[..|d|] == d && (d + rest)[|d|..] == rest
      && Decimal.DigitsValue(d) == n && (d + rest)[0] == d[0]
  {
    Decimal.DigitRunOfDigits(n, rest);
    Decimal.DigitsRoundTrip(n);
  }

  lemma ParseNatural(n: nat, rest: Text)
    requires rest == [] || !Decimal.IsDigit(rest[0])
    ensures ParseNumber(Decimal.Digits(n) + rest) == Some((n, rest))
  {
    DigitsCutOff(n, rest);
  }

  lemma ParseNegative(n: int, rest: Text)
    requires n < 0 && (rest == [] || !Decimal.IsDigit(rest[0]))
    ensures ParseNumber([Decimal.MINUS] + Decimal.Digits(-n) + rest) == Some((n, rest))
  {
    var t := [Decimal.MINUS] + Decimal.Digits(-n) + rest;
    assert t[1..] == Decimal.Digits(-n) + rest && t[0] == Decimal.MINUS;
    DigitsCutOff(-n, rest);
  }

  lemma ParseNumberOfText(n: PlainInt, rest: Text)
    requires rest == [] || !Decimal.IsDigit(rest[0])
    ensures ParseNumber(Decimal.Text(n) + rest) == Some((n, rest))
  {
    if n < 0 { ParseNegative(n, rest); } else { ParseNatural(n, rest); }
  }

  lemma MapOfMembersStep(fields: seq<Field>)
    requires fields != [] && FieldsCanonicalizable(fields) && fields[0].value != Undefined
    ensures map[fields[0].key := MeaningOf(fields[0].value)] + FieldMeanings(fields[1..]) == FieldMeanings(fields)
  {
    TailCanonicalizable(fields);
    assert forall j | 0 <= j < |fields[1..]| :: fields[1..][j].key != fields[0].key;
    if fields[0].key in FieldMeanings(fields[1..]) {
      var j := KeyFromMeaning(fields[1..], fields[0].key);
      assert false;
    }
  }

  lemma LiveIsCanonicalizable(fields: seq<Field>)
    requires FieldsCanonicalizable(fields)
    ensures FieldsCanonicalizable(Live(fields)) && AllCanonicalizable(Live(fields))
  {
    SortKeepsDistinctKeys(fields);
    FilterKeepsDistinctKeys(SortBy(fields, KeyLeq));
    LiveMembers(fields);
  }

  lemma MapIncluded(a: seq<Field>, b: seq<Field>, k: Text)
    requires FieldsCanonicalizable(a) && FieldsCanonicalizable(b)
    requires forall f :: f in a && f.value != Undefined ==> f in b
    requires k in FieldMeanings(a)
    ensures k in FieldMeanings(b) && FieldMeanings(b)[k] == FieldMeanings(a)[k]
  {
    var i := KeyFromMeaning(a, k);
    assert a[i] in a;
    var j :| 0 <= j < |b| && b[j] == a[i];
    FieldInMeaning(a, i);
    FieldInMeaning(b, j);
  }

  /** Dropping and sorting fields does not change the object. */
  lemma LiveKeepsMeaning(fields: seq<Field>)
    requires FieldsCanonicalizable(fields)
    ensures FieldsCanonicalizable(Live(fields))
    ensures FieldMeanings(Live(fields)) == FieldMeanings(fields)
  {
    LiveIsCanonicalizable(fields);
    var r := Live(fields);
    var m, n := FieldMeanings(r), FieldMeanings(fields);
    forall k | k in m ensures k in n && n[k] == m[k] {
      MapIncluded(r, fields, k);
    }
    forall k | k in n ensures k in m {
      MapIncluded(fields, r, k);
    }
  }

  lemma CanonicalizableAccepted(v: Value)
    requires Canonicalizable(v)
    ensures Stringify(v).Some?
    decreases Depth(v), 0
  {
    match v
    case Arr(items) => ItemsAccepted(items);
    case Obj(fields) =>
      LiveMembers(fields);
      FieldsAccepted(Live(fields));
    case _ =>
  }

  lemma ItemsAccepted(items: seq<Value>)
    requires forall i | 0 <= i < |items| :: Canonicalizable(items[i])
    ensures Elements(items).Some?
    decreases ItemsDepth(items), 1, |items|
  {
    if items != [] {
      CanonicalizableAccepted(items[0]);
      ItemsAccepted(items[1..]);
    }
  }

  lemma FieldsAccepted(fields: seq<Field>)
    requires AllCanonicalizable(fields)
    ensures Members(fields).Some?
    decreases FieldsDepth(fields), 1, |fields|
  {
    if fields != [] {
      CanonicalizableAccepted(fields[0].value);
      FieldsAccepted(fields[1..]);
    }
  }

  predicate EndsNumber(rest: Text) { rest == [] || !Decimal.IsDigit(rest[0]) }

  lemma ParseOfWord(word: Text, m: Meaning, rest: Text)
    requires word != []
    ensures ParseWord(word + rest, word, m) == Some((m, rest))
  {
    assert (word + rest)[|word|..] == rest;
  }

  lemma ParseOfString(s: Text, rest: Text)
    ensures ParseValue(Quote(s) + rest) == Some((MStr(s), rest))
  {
    var tail := [QUOTE] + rest;
    ParseCharsOfQuote(s, tail);
    assert (Quote(s) + rest)[1..] == QuoteBody(s) + tail;
    assert tail[1..] == rest;
  }

  lemma ParseOfScalar(v: Value, rest: Text)
    requires v.Null? || v.Bool? || v.Num? || v.Str?
    requires EndsNumber(rest)
    ensures ParseValue(Stringify(v).value + rest) == Some((MeaningOf(v), rest))
  {
    match v
    case Null => ParseOfWord(NULL_TEXT, MNull, rest);
    case Bool(b) =>
      ParseOfWord(TRUE_TEXT, MBool(true), rest);
      ParseOfWord(FALSE_TEXT, MBool(false), rest);
    case Num(n) =>
      ParseNumberOfText(n, rest);
      assert (Decimal.Text(n) + rest)[0] == Decimal.Text(n)[0];
    case Str(s) => ParseOfString(s, rest);
  }

  lemma BracketStarts(c: Unit, t: Text)
    requires c == OPEN_BRACKET || c == OPEN_BRACE
    ensures ParseValue([c] + t) == if c == OPEN_BRACKET then ParseArray(t) else ParseObject(t)
  {
    assert ([c] + t)[1..] == t;
  }

  lemma ArrayText(items: seq<Value>)
    requires Elements(items).Some?
    ensures Stringify(Arr(items)) == Some([OPEN_BRACKET] + Join(Elements(items).value, COMMA) + [CLOSE_BRACKET])
  {
  }

  lemma ObjectText(fields: seq<Field>)
    requires Members(Live(fields)).Some?
    ensures Stringify(Obj(fields)) == Some([OPEN_BRACE] + Join(Members(Live(fields)).value, COMMA) + [CLOSE_BRACE])
  {
  }

  lemma Rebracket(open: Unit, body: Text, close: Unit, rest: Text)
    ensures [open] + body + [close] + rest == [open] + (body + [close] + rest)
  {
  }

  lemma ParseOfArray(items: seq<Value>, rest: Text)
    requires Canonicalizable(Arr(items)) && Elements(items).Some?
    requires items != [] ==>
      ParseElements(Join(Elements(items).value, COMMA) + [CLOSE_BRACKET] + rest) == Some((ItemMeanings(items), rest))
    ensures ParseValue(Stringify(Arr(items)).value + rest) == Some((MeaningOf(Arr(items)), rest))
  {
    var inner := Join(Elements(items).value, COMMA) + [CLOSE_BRACKET] + rest;
    BracketStarts(OPEN_BRACKET, inner);
    ArrayText(items);
    Rebracket(OPEN_BRACKET, Join(Elements(items).value, COMMA), CLOSE_BRACKET, rest);
    if items == [] {
      assert inner[1..] == rest;
    } else {
      ElementsStart(items);
    }
  }

  lemma ParseObjectOfMembers(r: seq<Field>, m: map<Text, Meaning>, rest: Text)
    requires Members(r).Some?
    requires r == [] ==> m == map[]
    requires r != [] ==> ParseMembers(Join(Members(r).value, COMMA) + [CLOSE_BRACE] + rest) == Some((m, rest))
    ensures ParseObject(Join(Members(r).value, COMMA) + [CLOSE_BRACE] + rest) == Some((MObj(m), rest))
  {
    var ts := Members(r).value;
    var inner := Join(ts, COMMA) + [CLOSE_BRACE] + rest;
    if r == [] {
      assert inner[1..] == rest;
    } else {
      assert inner[0] == ts[0][0] == QUOTE;
    }
  }

  lemma ParseOfObject(fields: seq<Field>, rest: Text)
    requires Canonicalizable(Obj(fields)) && Members(Live(fields)).Some?
    requires Live(fields) == [] ==> FieldMeanings(fields) == map[]
    requires Live(fields) != [] ==>
      ParseMembers(Join(Members(Live(fields)).value, COMMA) + [CLOSE_BRACE] + rest)
        == Some((FieldMeanings(fields), rest))
    ensures ParseValue(Stringify(Obj(fields)).value + rest) == Some((MeaningOf(Obj(fields)), rest))
  {
    var inner := Join(Members(Live(fields)).value, COMMA) + [CLOSE_BRACE] + rest;
    ParseObjectOfMembers(Live(fields), FieldMeanings(fields), rest);
    BracketStarts(OPEN_BRACE, inner);
    ObjectText(fields);
    Rebracket(OPEN_BRACE, Join(Members(Live(fields)).value, COMMA), CLOSE_BRACE, rest);
  }

  lemma {:induction false} ParseOfStringify(v: Value, rest: Text)
    requires Canonicalizable(v) && Stringify(v).Some? && EndsNumber(rest)
    ensures ParseValue(Stringify(v).value + rest) == Some((MeaningOf(v), rest))
    decreases Depth(v), 0
  {
    match v
    case Arr(items) =>
      if items != [] { ParseOfElements(items, rest); }
      ParseOfArray(items, rest);
    case Obj(fields) =>
      LiveIsCanonicalizable(fields);
      LiveKeepsMeaning(fields);
      LiveKeysIncrease(fields);
      assert KeysIncrease(Live(fields)) by {
        assert forall i | 0 <= i < |Live(fields)| :: Keys(Live(fields))[i] == Live(fields)[i].key;
      }
      if Live(fields) != [] { ParseOfMembers(Live(fields), rest); }
      ParseOfObject(fields, rest);
    case _ => ParseOfScalar(v, rest);
  }

  /** No value's text starts with a closing bracket. */
  lemma ElementsStart(items: seq<Value>)
    requires items != [] && Elements(items).Some?
    ensures Join(Elements(items).value, COMMA) != []
    ensures Join(Elements(items).value, COMMA)[0] != CLOSE_BRACKET
  {
    var t := Stringify(items[0]).value;
    assert t != [] && t[0] != CLOSE_BRACKET;
    assert Elements(items).value[0] == t;
  }

  lemma ElementsLast(t: Text, m: Meaning, rest: Text)
    requires ParseValue(t) == Some((m, [CLOSE_BRACKET] + rest))
    ensures ParseElements(t) == Some(([m], rest))
  {
    assert ([CLOSE_BRACKET] + rest)[1..] == rest;
  }

  lemma ElementsMore(t: Text, m: Meaning, more: Text, ms: seq<Meaning>, rest: Text)
    requires ParseValue(t) == Some((m, [COMMA] + more))
    requires ParseElements(more) == Some((ms, rest))
    ensures ParseElements(t) == Some(([m] + ms, rest))
  {
    assert ([COMMA] + more)[1..] == more;
  }

  /** Joined text splits at its first comma or at its end. */
  lemma JoinHead(ts: seq<Text>, close: Unit, rest: Text)
    requires ts != []
    ensures Join(ts, COMMA) + [close] + rest == ts[0] + JoinTail(ts, close, rest)
  {
  }

  function JoinTail(ts: seq<Text>, close: Unit, rest: Text): Text
    requires ts != []
  {
    if |ts| == 1 then [close] + rest else [COMMA] + (Join(ts[1..], COMMA) + [close] + rest)
  }

  lemma {:induction false} ParseOfElements(items: seq<Value>, rest: Text)
    requires items != [] && forall i | 0 <= i < |items| :: Canonicalizable(items[i])
    requires Elements(items).Some?
    ensures ParseElements(Join(Elements(items).value, COMMA) + [CLOSE_BRACKET] + rest)
         == Some((ItemMeanings(items), rest))
    decreases ItemsDepth(items), 1, |items|
  {
    var ts := Elements(items).value;
    JoinHead(ts, CLOSE_BRACKET, rest);
    ParseOfStringify(items[0], JoinTail(ts, CLOSE_BRACKET, rest));
    if |items| == 1 {
      ElementsLast(Join(ts, COMMA) + [CLOSE_BRACKET] + rest, MeaningOf(items[0]), rest);
      assert ItemMeanings(items) == [MeaningOf(items[0])];
    } else {
      ParseOfElements(items[1..], rest);
      assert ts[1..] == Elements(items[1..]).value;
      var more := Join(ts[1..], COMMA) + [CLOSE_BRACKET] + rest;
      ElementsMore(Join(ts, COMMA) + [CLOSE_BRACKET] + rest, MeaningOf(items[0]), more, ItemMeanings(items[1..]), rest);
    }
  }

  lemma MemberHead(f: Field, vt: Text, after: Text, m: Meaning)
    requires ParseValue(vt + after) == Some((m, after))
    ensures var t := Quote(f.key) + [COLON] + vt + after;
      && t[0] == QUOTE
      && ParseChars(t[1..]) == Some((f.key, [COLON] + (vt + after)))
  {
    var t := Quote(f.key) + [COLON] + vt + after;
    var key := [QUOTE] + ([COLON] + (vt + after));
    assert t[1..] == QuoteBody(f.key) + key;
    ParseCharsOfQuote(f.key, key);
    assert key[1..] == [COLON] + (vt + after);
  }

  lemma MembersLast(f: Field, vt: Text, m: Meaning, rest: Text)
    requires ParseValue(vt + ([CLOSE_BRACE] + rest)) == Some((m, [CLOSE_BRACE] + rest))
    ensures ParseMembers(Quote(f.key) + [COLON] + vt + ([CLOSE_BRACE] + rest)) == Some((map[f.key := m], rest))
  {
    var after := [CLOSE_BRACE] + rest;
    MemberHead(f, vt, after, m);
    assert ([COLON] + (vt + after))[1..] == vt + after;
    assert after[1..] == rest;
  }

  lemma MembersMore(f: Field, vt: Text, m: Meaning, more: Text, ms: map<Text, Meaning>, rest: Text)
    requires ParseValue(vt + ([COMMA] + more)) == Some((m, [COMMA] + more))
    requires ParseMembers(more) == Some((ms, rest)) && forall next | next in ms :: LexLess(f.key, next)
    ensures ParseMembers(Quote(f.key) + [COLON] + vt + ([COMMA] + more)) == Some((map[f.key := m] + ms, rest))
  {
    var after := [COMMA] + more;
    MemberHead(f, vt, after, m);
    assert ([COLON] + (vt + after))[1..] == vt + after;
    assert after[1..] == more;
  }

  ghost predicate KeysIncrease(fields: seq<Field>) {
    forall i, j | 0 <= i < j < |fields| :: KeyLess(fields[i].key, fields[j].key)
  }

  lemma TailKeysIncrease(fields: seq<Field>)
    requires fields != [] && FieldsCanonicalizable(fields) && KeysIncrease(fields)
    ensures FieldsCanonicalizable(fields[1..]) && KeysIncrease(fields[1..])
    ensures forall next | next in FieldMeanings(fields[1..]) :: LexLess(fields[0].key, next)
  {
    TailCanonicalizable(fields);
    forall next | next in FieldMeanings(fields[1..]) ensures LexLess(fields[0].key, next) {
      var j := KeyFromMeaning(fields[1..], next);
      assert KeyLess(fields[0].key, fields[j + 1].key);
    }
  }

  lemma {:induction false} ParseOfMembers(fields: seq<Field>, rest: Text)
    requires fields != [] && FieldsCanonicalizable(fields) && AllCanonicalizable(fields) && KeysIncrease(fields)
    requires Members(fields).Some?
    ensures ParseMembers(Join(Members(fields).value, COMMA) + [CLOSE_BRACE] + rest)
         == Some((FieldMeanings(fields), rest))
    decreases FieldsDepth(fields), 1, |fields|
  {
    var ts := Members(fields).value;
    var f := fields[0];
    var vt, m, tail := Stringify(f.value).value, MeaningOf(f.value), JoinTail(ts, CLOSE_BRACE, rest);
    JoinHead(ts, CLOSE_BRACE, rest);
    assert ts[0] == Quote(f.key) + [COLON] + vt;
    ParseOfStringify(f.value, tail);
    MapOfMembersStep(fields);
    if |fields| == 1 {
      MembersLast(f, vt, m, rest);
      assert FieldMeanings(fields[1..]) == map[];
    } else {
      TailKeysIncrease(fields);
      ParseOfMembers(fields[1..], rest);
      assert ts[1..] == Members(fields[1..]).value;
      MembersMore(f, vt, m, Join(ts[1..], COMMA) + [CLOSE_BRACE] + rest, FieldMeanings(fields[1..]), rest);
    }
  }

  /** Units in JSON text: itself, a two-unit escape, or a six-unit one. */
  function QuotedWidth(s: Text): nat {
    if s == [] then 0
    else if StartsWithPair(s) then 2 + QuotedWidth(s[2..])
    else (if s[0] in {8, 9, 10, 12, 13, 34, 92} then 2 else if s[0] < 32 || IsSurrogate(s[0]) then 6 else 1)
         + QuotedWidth(s[1..])
  }

  /**
   Only what must be escaped is, in its shortest form: control characters, quotes,
   backslashes and unpaired surrogates; everything else stands as it is.
   */
  lemma {:induction false} EscapesOnlyWhatItMust(s: Text)
    ensures |QuoteBody(s)| == QuotedWidth(s)
    decreases |s|
  {
    if s != [] {
      if StartsWithPair(s) { EscapesOnlyWhatItMust(s[2..]); } else { EscapesOnlyWhatItMust(s[1..]); }
    }
  }

  /** Canonical text decodes to what the value means. */
  lemma DecodeOfStringify(v: Value)
    requires Canonicalizable(v)
    ensures Stringify(v).Some? && Decode(Stringify(v).value) == Some(MeaningOf(v))
  {
    CanonicalizableAccepted(v);
    ParseOfStringify(v, []);
    assert Stringify(v).value + [] == Stringify(v).value;
  }

  /** Same text exactly when same meaning, whatever the key insertion order. */
  lemma TextDecidesMeaning(v: Value, w: Value)
    requires Canonicalizable(v) && Canonicalizable(w)
    ensures Stringify(v) == Stringify(w) <==> MeaningOf(v) == MeaningOf(w)
  {
    DecodeOfStringify(v);
    DecodeOfStringify(w);
    if MeaningOf(v) == MeaningOf(w) {
      MeaningDeterminesText(v, w);
    }
  }

  // ---- The bytes decide the meaning too ----

  lemma QuoteWellFormed(s: Text)
    ensures WellFormed(QuoteBody(s))
    decreases |s|
  {
    if s != [] {
      if StartsWithPair(s) {
        QuoteWellFormed(s[2..]);
        assert (s[..2] + QuoteBody(s[2..]))[2..] == QuoteBody(s[2..]);
      } else {
        QuoteWellFormed(s[1..]);
        NoSurrogatesWellFormed(QuoteUnit(s[0]));
        WellFormedAppend(QuoteUnit(s[0]), QuoteBody(s[1..]));
      }
    }
  }

  lemma JoinWellFormed(ts: seq<Text>)
    requires forall i | 0 <= i < |ts| :: WellFormed(ts[i])
    ensures WellFormed(Join(ts, COMMA))
  {
    if |ts| > 1 {
      JoinWellFormed(ts[1..]);
      WellFormedAppend(ts[0], [COMMA]);
      WellFormedAppend(ts[0] + [COMMA], Join(ts[1..], COMMA));
    }
  }

  lemma BracketedWellFormed(a: Unit, t: Text, b: Unit)
    requires a < 0x80 && b < 0x80 && WellFormed(t)
    ensures WellFormed([a] + t + [b])
  {
    WellFormedAppend([a], t);
    WellFormedAppend([a] + t, [b]);
  }

  /** Canonical text never holds an unpaired surrogate. */
  lemma StringifyWellFormed(v: Value)
    requires Stringify(v).Some?
    ensures WellFormed(Stringify(v).value)
    decreases Depth(v), 0
  {
    match v
    case Null => NoSurrogatesWellFormed(NULL_TEXT);
    case Bool(b) => NoSurrogatesWellFormed(if b then TRUE_TEXT else FALSE_TEXT);
    case Num(n) => NoSurrogatesWellFormed(Decimal.Text(n));
    case Str(s) =>
      QuoteWellFormed(s);
      BracketedWellFormed(QUOTE, QuoteBody(s), QUOTE);
    case Arr(items) =>
      ElementsWellFormed(items);
      JoinWellFormed(Elements(items).value);
      BracketedWellFormed(OPEN_BRACKET, Join(Elements(items).value, COMMA), CLOSE_BRACKET);
    case Obj(fields) =>
      MembersWellFormed(Live(fields));
      JoinWellFormed(Members(Live(fields)).value);
      BracketedWellFormed(OPEN_BRACE, Join(Members(Live(fields)).value, COMMA), CLOSE_BRACE);
    case _ =>
  }

  lemma ElementsWellFormed(items: seq<Value>)
    requires Elements(items).Some?
    ensures forall i | 0 <= i < |items| :: WellFormed(Elements(items).value[i])
    decreases ItemsDepth(items), 1, |items|
  {
    if items != [] {
      StringifyWellFormed(items[0]);
      ElementsWellFormed(items[1..]);
    }
  }

  lemma MembersWellFormed(fields: seq<Field>)
    requires Members(fields).Some?
    ensures forall i | 0 <= i < |fields| :: WellFormed(Members(fields).value[i])
    decreases FieldsDepth(fields), 1, |fields|
  {
    if fields != [] {
      StringifyWellFormed(fields[0].value);
      MembersWellFormed(fields[1..]);
      QuoteWellFormed(fields[0].key);
      BracketedWellFormed(QUOTE, QuoteBody(fields[0].key), QUOTE);
      WellFormedAppend(Quote(fields[0].key), [COLON]);
      WellFormedAppend(Quote(fields[0].key) + [COLON], Stringify(fields[0].value).value);
    }
  }

  /** Two values have the same canonical bytes exactly when they mean the same. */
  lemma BytesDecideMeaning(v: Value, w: Value)
    requires Canonicalizable(v) && Canonicalizable(w)
    ensures Canonical(v).Some? && Canonical(w).Some?
    ensures Canonical(v) == Canonical(w) <==> MeaningOf(v) == MeaningOf(w)
  {
    CanonicalizableAccepted(v);
    CanonicalizableAccepted(w);
    StringifyWellFormed(v);
    StringifyWellFormed(w);
    EncodeInjective(Stringify(v).value, Stringify(w).value);
    TextDecidesMeaning(v, w);
  }

  // ---- Which values the encoder refuses ----

  /** Distinct keys in every object, as JavaScript guarantees. */
  ghost predicate JsValue(v: Value) {
    match v
    case Arr(items) => forall i | 0 <= i < |items| :: JsValue(items[i])
    case Obj(fields) => DistinctKeys(fields) && forall i | 0 <= i < |fields| :: JsValue(fields[i].value)
    case _ => true
  }

  lemma {:induction false} AcceptedIsCanonicalizable(v: Value)
    requires JsValue(v) && Stringify(v).Some?
    ensures Canonicalizable(v)
    decreases Depth(v), 0
  {
    match v
    case Arr(items) => AcceptedItems(items);
    case Obj(fields) =>
      var r := Live(fields);
      forall i | 0 <= i < |r| ensures JsValue(r[i].value) {
        assert r[i] in r;
      }
      AcceptedFields(r);
      forall i | 0 <= i < |fields| && fields[i].value != Undefined ensures Canonicalizable(fields[i].value) {
        assert fields[i] in fields;
        var j :| 0 <= j < |r| && r[j] == fields[i];
      }
    case _ =>
  }

  lemma {:induction false} AcceptedItems(items: seq<Value>)
    requires Elements(items).Some? && forall i | 0 <= i < |items| :: JsValue(items[i])
    ensures forall i | 0 <= i < |items| :: Canonicalizable(items[i])
    decreases ItemsDepth(items), 1, |items|
  {
    if items != [] {
      assert Stringify(items[0]).Some? && Elements(items[1..]).Some?;
      AcceptedIsCanonicalizable(items[0]);
      AcceptedItems(items[1..]);
      forall i | 0 < i < |items| ensures Canonicalizable(items[i]) {
        assert items[i] == items[1..][i - 1];
      }
    }
  }

  lemma {:induction false} AcceptedFields(fields: seq<Field>)
    requires Members(fields).Some? && forall i | 0 <= i < |fields| :: JsValue(fields[i].value)
    ensures AllCanonicalizable(fields)
    decreases FieldsDepth(fields), 1, |fields|
  {
    if fields != [] {
      assert Stringify(fields[0].value).Some? && Members(fields[1..]).Some?;
      AcceptedIsCanonicalizable(fields[0].value);
      AcceptedFields(fields[1..]);
      forall i | 0 < i < |fields| ensures Canonicalizable(fields[i].value) {
        assert fields[i] == fields[1..][i - 1];
      }
    }
  }

  /** `canonical` throws exactly on values with no canonical encoding. */
  lemma ThrowsExactly(v: Value)
    requires JsValue(v)
    ensures Canonical(v).Some? <==> Canonicalizable(v)
  {
    if Canonicalizable(v) {
      CanonicalizableAccepted(v);
    }
    if Canonical(v).Some? {
      AcceptedIsCanonicalizable(v);
    }
  }
}
