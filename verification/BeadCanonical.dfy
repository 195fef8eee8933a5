/**
 The bead/v1 bytes (src/storage/bead-canonical.ts): thirteen named fields, labels
 sorted because they are a bag, absent optional fields written as null.
 */
module BeadCanonical {
  import opened Wrappers
  import opened Order
  import opened Utf8
  import opened CanonicalJson
  import opened Hashing

  datatype Bead = Bead(
    id: Text,
    title: Text,
    description: Text,
    state: Text,
    priority: PlainInt,
    labels: seq<Text>,
    createdAt: Text,
    updatedAt: Text,
    createdBy: Option<Text>,
    repo: Text,
    notes: Option<Text>)

  const BEAD_CANONICAL_VERSION: PlainInt := 1

  function OrNull(t: Option<Text>): Value {
    match t
    case None => Null
    case Some(s) => Str(s)
  }

  function Strings(ts: seq<Text>): (vs: seq<Value>)
    ensures |vs| == |ts|
    ensures forall i | 0 <= i < |ts| :: vs[i] == Str(ts[i])
  {
    if ts == [] then [] else [Str(ts[0])] + Strings(ts[1..])
  }

  predicate TextLeq(a: Text, b: Text) { LexLeq(a, b) }

  function BeadKeys(): (keys: seq<Text>) {
    [ Ascii("v"), Ascii("type"), Ascii("id"), Ascii("title"), Ascii("description"), Ascii("state"),
      Ascii("priority"), Ascii("labels"), Ascii("created_at"), Ascii("updated_at"), Ascii("created_by"),
      Ascii("repo"), Ascii("notes") ]
  }

  function BeadValues(b: Bead): (values: seq<Value>)
    ensures |values| == |BeadKeys()|
  {
    [ Num(BEAD_CANONICAL_VERSION), Str(Ascii("bead")), Str(b.id), Str(b.title), Str(b.description), Str(b.state),
      Num(b.priority), Arr(Strings(SortBy(b.labels, TextLeq))), Str(b.createdAt), Str(b.updatedAt),
      OrNull(b.createdBy), Str(b.repo), OrNull(b.notes) ]
  }

  function Zip(keys: seq<Text>, values: seq<Value>): (f: seq<Field>)
    requires |keys| == |values|
    ensures |f| == |keys|
    ensures forall i | 0 <= i < |f| :: f[i] == Field(keys[i], values[i])
  {
    seq(|keys|, i requires 0 <= i < |keys| => Field(keys[i], values[i]))
  }

  function BeadFields(b: Bead): (f: seq<Field>) {
    Zip(BeadKeys(), BeadValues(b))
  }

  /** `beadCanonicalBytesV1`. */
  function BeadBytes(b: Bead): Option<seq<Byte>> {
    Canonical(Obj(BeadFields(b)))
  }

  lemma BeadKeysDistinct()
    ensures NoDuplicates(BeadKeys())
  {
    var k := BeadKeys();
    assert |k[0]| == 1 && |k[1]| == 4 && |k[2]| == 2 && |k[3]| == 5 && |k[4]| == 11 && |k[5]| == 5 && |k[6]| == 8;
    assert |k[7]| == 6 && |k[8]| == 10 && |k[9]| == 10 && |k[10]| == 10 && |k[11]| == 4 && |k[12]| == 5;
    assert k[1][0] == 116 && k[11][0] == 114;
    assert k[3][0] == 116 && k[5][0] == 115 && k[12][0] == 110;
    assert k[8][0] == 99 && k[9][0] == 117 && k[10][0] == 99 && k[8][8] == 97 && k[10][8] == 98;
  }

  lemma BeadIsCanonicalizable(b: Bead)
    ensures FieldsCanonicalizable(BeadFields(b))
  {
    BeadKeysDistinct();
    var f, v := BeadFields(b), BeadValues(b);
    forall i | 0 <= i < |f| ensures f[i].value == v[i] && Canonicalizable(f[i].value) {
    }
  }

  /** Two beads agree when every field does, labels counted as a bag. */
  ghost predicate SameBead(a: Bead, b: Bead) {
    a.(labels := []) == b.(labels := []) && multiset(a.labels) == multiset(b.labels)
  }

  lemma StringsMeanings(ts: seq<Text>)
    ensures |ItemMeanings(Strings(ts))| == |ts|
    ensures forall i | 0 <= i < |ts| :: ItemMeanings(Strings(ts))[i] == MStr(ts[i])
  {
    if ts != [] {
      StringsMeanings(ts[1..]);
      assert Strings(ts)[1..] == Strings(ts[1..]);
    }
  }

  lemma SortedLabelsAreTheBag(a: seq<Text>, b: seq<Text>)
    ensures SortBy(a, TextLeq) == SortBy(b, TextLeq) <==> multiset(a) == multiset(b)
  {
    LexLeqIsTotalOrder();
    assert forall x: Text, y: Text :: TextLeq(x, y) <==> LexLeq(x, y);
    SortByIsSorted(a, TextLeq);
    SortByIsSorted(b, TextLeq);
    if multiset(a) == multiset(b) {
      SortedUnique(SortBy(a, TextLeq), SortBy(b, TextLeq), TextLeq);
    }
  }

  lemma SameMeaningFieldwise(a: Bead, b: Bead, i: nat)
    requires FieldsCanonicalizable(BeadFields(a)) && FieldsCanonicalizable(BeadFields(b))
    requires FieldMeanings(BeadFields(a)) == FieldMeanings(BeadFields(b))
    requires i < |BeadKeys()|
    ensures Canonicalizable(BeadValues(a)[i]) && Canonicalizable(BeadValues(b)[i])
    ensures MeaningOf(BeadValues(a)[i]) == MeaningOf(BeadValues(b)[i])
  {
    var f, g := BeadFields(a), BeadFields(b);
    assert f[i] == Field(BeadKeys()[i], BeadValues(a)[i]);
    assert g[i] == Field(BeadKeys()[i], BeadValues(b)[i]);
    assert f[i].value != Undefined && g[i].value != Undefined;
    FieldInMeaning(f, i);
    FieldInMeaning(g, i);
  }

  lemma SameStringsMeaning(s: seq<Text>, t: seq<Text>)
    requires ItemMeanings(Strings(s)) == ItemMeanings(Strings(t))
    ensures s == t
  {
    StringsMeanings(s);
    StringsMeanings(t);
    forall i | 0 <= i < |s| ensures s[i] == t[i] {
      assert ItemMeanings(Strings(s))[i] == ItemMeanings(Strings(t))[i];
    }
  }

  lemma SameScalar(v: Value, w: Value)
    requires v.Str? || v.Num? || v.Null?
    requires w.Str? || w.Num? || w.Null?
    requires MeaningOf(v) == MeaningOf(w)
    ensures v == w
  {
  }

  lemma SameMeaningSameValues(a: Bead, b: Bead, i: nat)
    requires FieldsCanonicalizable(BeadFields(a)) && FieldsCanonicalizable(BeadFields(b))
    requires FieldMeanings(BeadFields(a)) == FieldMeanings(BeadFields(b))
    requires i < |BeadKeys()|
    ensures BeadValues(a)[i] == BeadValues(b)[i]
  {
    SameMeaningFieldwise(a, b, i);
    var v, w := BeadValues(a)[i], BeadValues(b)[i];
    if i == 7 {
      var s, t := SortBy(a.labels, TextLeq), SortBy(b.labels, TextLeq);
      assert v == Arr(Strings(s)) && w == Arr(Strings(t));
      SameStringsMeaning(s, t);
    } else {
      SameScalar(v, w);
    }
  }

  lemma StringsInjective(s: seq<Text>, t: seq<Text>)
    requires Strings(s) == Strings(t)
    ensures s == t
  {
    assert |s| == |Strings(s)| == |t|;
    forall i | 0 <= i < |s| ensures s[i] == t[i] {
      assert Strings(s)[i] == Str(s[i]) && Strings(t)[i] == Str(t[i]);
    }
  }

  lemma OrNullInjective(s: Option<Text>, t: Option<Text>)
    requires OrNull(s) == OrNull(t)
    ensures s == t
  {
  }

  lemma SameValuesSameBead(a: Bead, b: Bead)
    requires BeadValues(a) == BeadValues(b)
    ensures SameBead(a, b)
  {
    var v, w := BeadValues(a), BeadValues(b);
    assert v[2].s == w[2].s && v[3].s == w[3].s && v[4].s == w[4].s && v[5].s == w[5].s && v[6].n == w[6].n;
    assert v[8].s == w[8].s && v[9].s == w[9].s && v[11].s == w[11].s;
    assert v[10] == w[10] && v[12] == w[12];
    OrNullInjective(a.createdBy, b.createdBy);
    OrNullInjective(a.notes, b.notes);
    assert v[7].items == w[7].items;
    StringsInjective(SortBy(a.labels, TextLeq), SortBy(b.labels, TextLeq));
    SortedLabelsAreTheBag(a.labels, b.labels);
  }

  /** The bytes, hence the digest's preimage, commit to exactly the bead. */
  lemma BeadBytesDecideBead(a: Bead, b: Bead)
    ensures BeadBytes(a).Some? && BeadBytes(b).Some?
    ensures BeadBytes(a) == BeadBytes(b) <==> SameBead(a, b)
  {
    BeadIsCanonicalizable(a);
    BeadIsCanonicalizable(b);
    BytesDecideMeaning(Obj(BeadFields(a)), Obj(BeadFields(b)));
    if BeadBytes(a) == BeadBytes(b) {
      forall i | 0 <= i < |BeadKeys()| ensures BeadValues(a)[i] == BeadValues(b)[i] {
        SameMeaningSameValues(a, b, i);
      }
      assert BeadValues(a) == BeadValues(b);
      SameValuesSameBead(a, b);
    }
    if SameBead(a, b) {
      SortedLabelsAreTheBag(a.labels, b.labels);
      assert BeadValues(a) == BeadValues(b);
    }
  }

  /** Under collision freedom, equal digests mean the same bead: an attested hash names one bead. */
  lemma BeadDigestDecidesBead(h: Hashes, a: Bead, b: Bead)
    requires CollisionFree(h)
    ensures BeadBytes(a).Some? && BeadBytes(b).Some?
    ensures h.sha(BeadBytes(a).value) == h.sha(BeadBytes(b).value) <==> SameBead(a, b)
  {
    BeadBytesDecideBead(a, b);
  }

  // ---- What the bytes say, read back by the decoder ----

  predicate Says(m: map<Text, Meaning>, key: Text, value: Meaning) { key in m && m[key] == value }

  function TextOrNull(t: Option<Text>): Meaning {
    if t.Some? then MStr(t.value) else MNull
  }

  /** The same labels, as often as in the bead, in code-unit order. */
  ghost predicate ListsLabels(v: Meaning, labels: seq<Text>) {
    exists sorted: seq<Text> ::
      && v == MArr(seq(|sorted|, i requires 0 <= i < |sorted| => MStr(sorted[i])))
      && multiset(sorted) == multiset(labels)
      && forall i, j | 0 <= i < j < |sorted| :: sorted[i] == sorted[j] || LexLess(sorted[i], sorted[j])
  }

  ghost predicate SaysLabels(m: map<Text, Meaning>, labels: seq<Text>) {
    Ascii("labels") in m && ListsLabels(m[Ascii("labels")], labels)
  }

  function DocumentKeys(): set<Text> {
    { Ascii("v"), Ascii("type"), Ascii("id"), Ascii("title"), Ascii("description"), Ascii("state"), Ascii("priority"),
      Ascii("labels"), Ascii("created_at"), Ascii("updated_at"), Ascii("created_by"), Ascii("repo"), Ascii("notes") }
  }

  ghost predicate SaysHead(m: map<Text, Meaning>, b: Bead) {
    && Says(m, Ascii("v"), MNum(1)) && Says(m, Ascii("type"), MStr(Ascii("bead")))
    && Says(m, Ascii("id"), MStr(b.id)) && Says(m, Ascii("title"), MStr(b.title))
    && Says(m, Ascii("description"), MStr(b.description)) && Says(m, Ascii("state"), MStr(b.state))
    && Says(m, Ascii("priority"), MNum(b.priority))
  }

  ghost predicate SaysTail(m: map<Text, Meaning>, b: Bead) {
    && Says(m, Ascii("created_at"), MStr(b.createdAt)) && Says(m, Ascii("updated_at"), MStr(b.updatedAt))
    && Says(m, Ascii("created_by"), TextOrNull(b.createdBy)) && Says(m, Ascii("repo"), MStr(b.repo))
    && Says(m, Ascii("notes"), TextOrNull(b.notes))
  }

  /** Exactly the thirteen members, each of the bead's fields under its own name. */
  ghost predicate Describes(m: map<Text, Meaning>, b: Bead) {
    m.Keys == DocumentKeys() && SaysHead(m, b) && SaysLabels(m, b.labels) && SaysTail(m, b)
  }

  ghost function Members(b: Bead): map<Text, Meaning> {
    BeadIsCanonicalizable(b);
    FieldMeanings(BeadFields(b))
  }

  lemma FieldSays(b: Bead, i: nat)
    requires i < |BeadKeys()|
    ensures Canonicalizable(BeadValues(b)[i]) && Says(Members(b), BeadKeys()[i], MeaningOf(BeadValues(b)[i]))
  {
    BeadIsCanonicalizable(b);
    var f := BeadFields(b);
    assert f[i] == Field(BeadKeys()[i], BeadValues(b)[i]) && f[i].value != Undefined;
    FieldInMeaning(f, i);
  }

  lemma LabelsAreListed(labels: seq<Text>)
    ensures Canonicalizable(Arr(Strings(SortBy(labels, TextLeq))))
    ensures ListsLabels(MeaningOf(Arr(Strings(SortBy(labels, TextLeq)))), labels)
  {
    var sorted := SortBy(labels, TextLeq);
    LexLeqIsTotalOrder();
    SortByIsSorted(labels, TextLeq);
    StringsMeanings(sorted);
    SortedMeansListed(sorted, ItemMeanings(Strings(sorted)), labels);
  }

  lemma SortedMeansListed(sorted: seq<Text>, items: seq<Meaning>, labels: seq<Text>)
    requires multiset(sorted) == multiset(labels) && SortedBy(sorted, TextLeq)
    requires |items| == |sorted| && forall i | 0 <= i < |sorted| :: items[i] == MStr(sorted[i])
    ensures ListsLabels(MArr(items), labels)
  {
    assert items == seq(|sorted|, i requires 0 <= i < |sorted| => MStr(sorted[i]));
    forall i, j | 0 <= i < j < |sorted| ensures sorted[i] == sorted[j] || LexLess(sorted[i], sorted[j]) {
      assert TextLeq(sorted[i], sorted[j]);
    }
  }

  lemma HeadSays(b: Bead)
    ensures SaysHead(Members(b), b)
  {
    hide Members, Says;
    FieldSays(b, 0);
    FieldSays(b, 1);
    FieldSays(b, 2);
    FieldSays(b, 3);
    FieldSays(b, 4);
    FieldSays(b, 5);
    FieldSays(b, 6);
  }

  lemma LabelsSay(b: Bead)
    ensures SaysLabels(Members(b), b.labels)
  {
    hide Members, ListsLabels;
    FieldSays(b, 7);
    LabelsAreListed(b.labels);
  }

  lemma TailSays(b: Bead)
    ensures SaysTail(Members(b), b)
  {
    hide Members, Says;
    FieldSays(b, 8);
    FieldSays(b, 9);
    FieldSays(b, 10);
    FieldSays(b, 11);
    FieldSays(b, 12);
  }

  lemma KeysAreNames(i: nat)
    requires i < |BeadKeys()|
    ensures BeadKeys()[i] in DocumentKeys()
  {
  }

  lemma NamesAreMembers(m: map<Text, Meaning>, b: Bead)
    requires SaysHead(m, b) && SaysLabels(m, b.labels) && SaysTail(m, b)
    ensures DocumentKeys() <= m.Keys
  {
    hide ListsLabels;
  }

  lemma NoOtherMembers(b: Bead, k: Text)
    requires k in Members(b)
    ensures k in DocumentKeys()
  {
    hide DocumentKeys;
    BeadIsCanonicalizable(b);
    var i := KeyFromMeaning(BeadFields(b), k);
    assert BeadFields(b)[i] == Field(BeadKeys()[i], BeadValues(b)[i]);
    KeysAreNames(i);
  }

  lemma MembersDescribe(b: Bead)
    ensures Describes(Members(b), b)
  {
    hide Members, SaysLabels, SaysHead, SaysTail, DocumentKeys;
    HeadSays(b);
    LabelsSay(b);
    TailSays(b);
    NamesAreMembers(Members(b), b);
    forall k | k in Members(b) ensures k in DocumentKeys() { NoOtherMembers(b, k); }
  }

  /** For every bead the bytes decode to an object of exactly the thirteen members, each saying what its field holds. */
  lemma BeadBytesSayTheBead(b: Bead)
    ensures BeadBytes(b).Some?
    ensures var d := CanonicalJson.Decode(Utf8.Decode(BeadBytes(b).value));
      d.Some? && d.value.MObj? && Describes(d.value.members, b)
  {
    hide Describes, Stringify, CanonicalJson.Decode, Utf8.Decode, Encode, WellFormed;
    MembersDescribe(b);
    BeadIsCanonicalizable(b);
    var v := Obj(BeadFields(b));
    DecodeOfStringify(v);
    StringifyWellFormed(v);
    RoundTrip(Stringify(v).value);
  }
}
