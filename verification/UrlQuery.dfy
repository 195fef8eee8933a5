/**
 The query half of the path-suffix canonicalization, and the suffix as a whole
 (src/routes/lease-middleware.ts:727-783). Keys and values are percent-normalized,
 pairs sorted by key with original order kept among equal keys.
 */
module UrlQuery {
  import opened Wrappers
  import opened Order
  import opened Sequences
  import opened PercentEncoding
  import opened UrlCanonical

  datatype Pair = Pair(key: string, value: string)

  /** A pair and its position, as the code's comparator sees it. */
  datatype Indexed = Indexed(pair: Pair, origIndex: nat)

  /** Text before and after the first "=". */
  function ParsePair(piece: string): Pair {
    var eq := Find(piece, '=');
    if eq == |piece| then Pair(piece, "") else Pair(piece[..eq], piece[eq + 1..])
  }

  function NormPair(p: Pair): Pair { Pair(NormPct(p.key), NormPct(p.value)) }

  /** The normalized pairs of a query in their original order. */
  function PairsOf(pieces: seq<string>): (r: seq<Pair>)
    ensures |r| == |pieces|
    ensures forall i | 0 <= i < |r| :: r[i] == NormPair(ParsePair(pieces[i]))
  {
    if pieces == [] then [] else [NormPair(ParsePair(pieces[0]))] + PairsOf(pieces[1..])
  }

  function QueryPairs(query: string): seq<Pair> { PairsOf(Split(query, '&')) }

  function Codes(s: string): (r: seq<int>)
    ensures |r| == |s| && forall i | 0 <= i < |s| :: r[i] == s[i] as int
  {
    seq(|s|, i requires 0 <= i < |s| => s[i] as int)
  }

  predicate KeyLeq(a: Pair, b: Pair) { LexLeq(Codes(a.key), Codes(b.key)) }

  /** `a.key < b.key ? -1 : a.key > b.key ? 1 : a.origIndex - b.origIndex`. */
  predicate ComparatorLeq(a: Indexed, b: Indexed) {
    if LexLess(Codes(a.pair.key), Codes(b.pair.key)) then true
    else if LexLess(Codes(b.pair.key), Codes(a.pair.key)) then false
    else a.origIndex <= b.origIndex
  }

  function Index(pairs: seq<Pair>, from: nat): (r: seq<Indexed>)
    ensures |r| == |pairs|
    ensures forall i | 0 <= i < |r| :: r[i] == Indexed(pairs[i], from + i)
  {
    if pairs == [] then [] else [Indexed(pairs[0], from)] + Index(pairs[1..], from + 1)
  }

  function Strip(s: seq<Indexed>): (r: seq<Pair>)
    ensures |r| == |s|
    ensures forall i | 0 <= i < |r| :: r[i] == s[i].pair
  {
    if s == [] then [] else [s[0].pair] + Strip(s[1..])
  }

  function Sorted(pairs: seq<Pair>): seq<Pair> {
    Strip(SortBy(Index(pairs, 0), ComparatorLeq))
  }

  function Render(p: Pair): string { p.key + ['='] + p.value }

  function RenderAll(pairs: seq<Pair>): (r: seq<string>)
    ensures |r| == |pairs|
    ensures forall i | 0 <= i < |r| :: r[i] == Render(pairs[i])
  {
    if pairs == [] then [] else [Render(pairs[0])] + RenderAll(pairs[1..])
  }

  function QueryNormal(query: string): string {
    if query == "" then "" else Join(RenderAll(Sorted(QueryPairs(query))), '&')
  }

  method NormalizeQuery(query: string) returns (out: string)
    ensures out == QueryNormal(query)
  {
    if query == "" { return ""; }
    var pieces := Split(query, '&');
    var pairs := seq(|pieces|, i requires 0 <= i < |pieces| => Indexed(ParsePair(pieces[i]), i));
    for k := 0 to |pairs|
      invariant |pairs| == |pieces|
      invariant forall i | 0 <= i < |pairs| ::
        pairs[i] == Indexed(if i < k then NormPair(ParsePair(pieces[i])) else ParsePair(pieces[i]), i)
    {
      pairs := pairs[k := pairs[k].(pair := NormPair(pairs[k].pair))];
    }
    assert pairs == Index(PairsOf(pieces), 0);
    out := Join(RenderAll(Strip(SortBy(pairs, ComparatorLeq))), '&');
  }

  // ---- The comparator sorts stably by key ----

  lemma KeyLeqIsPreorder()
    ensures TotalPreorder(KeyLeq)
  {
    LexLeqIsTotalOrder();
    forall x: Pair, y: Pair ensures KeyLeq(x, y) || KeyLeq(y, x) {
      LexTrichotomy(Codes(x.key), Codes(y.key));
    }
    forall x: Pair, y: Pair, z: Pair | KeyLeq(x, y) && KeyLeq(y, z) ensures KeyLeq(x, z) {
      assert LexLeq(Codes(x.key), Codes(y.key)) && LexLeq(Codes(y.key), Codes(z.key));
    }
  }

  lemma CodesInjective(a: string, b: string)
    requires Codes(a) == Codes(b)
    ensures a == b
  {
    forall i | 0 <= i < |a| ensures a[i] == b[i] { assert Codes(a)[i] == Codes(b)[i]; }
  }

  lemma EarlierWinsTies(x: Indexed, y: Indexed)
    requires x.origIndex < y.origIndex
    ensures ComparatorLeq(x, y) == KeyLeq(x.pair, y.pair)
  {
    LexTrichotomy(Codes(x.pair.key), Codes(y.pair.key));
    LexAsymmetric(Codes(x.pair.key), Codes(y.pair.key));
    LexIrreflexive(Codes(x.pair.key));
  }

  lemma {:induction false} StripInsert(x: Indexed, s: seq<Indexed>)
    requires forall i | 0 <= i < |s| :: x.origIndex < s[i].origIndex
    ensures Strip(Insert(x, s, ComparatorLeq)) == Insert(x.pair, Strip(s), KeyLeq)
  {
    if s != [] {
      EarlierWinsTies(x, s[0]);
      StripInsert(x, s[1..]);
      assert Strip(s)[1..] == Strip(s[1..]);
      assert ([x] + s)[1..] == s;
      var rest := Insert(x, s[1..], ComparatorLeq);
      assert ([s[0]] + rest)[1..] == rest;
    } else {
      assert Strip([x]) == [x.pair];
    }
  }

  lemma {:induction false} SortedIsStableSort(pairs: seq<Pair>, from: nat)
    ensures Strip(SortBy(Index(pairs, from), ComparatorLeq)) == SortBy(pairs, KeyLeq)
  {
    if pairs != [] {
      var rest := Index(pairs[1..], from + 1);
      assert Index(pairs, from)[1..] == rest;
      SortedIsStableSort(pairs[1..], from + 1);
      SortByMembers(rest, ComparatorLeq);
      var sorted := SortBy(rest, ComparatorLeq);
      forall i | 0 <= i < |sorted| ensures from < sorted[i].origIndex {
        assert sorted[i] in rest;
      }
      StripInsert(Indexed(pairs[0], from), sorted);
    }
  }

  /** The values of one key, in order. */
  function WithKey(pairs: seq<Pair>, key: string): seq<Pair> {
    Filter(pairs, (p: Pair) => p.key == key)
  }

  /** A permutation of the pairs, ordered by key, with each key's values in their original order. */
  lemma SortedIsStable(pairs: seq<Pair>)
    ensures multiset(Sorted(pairs)) == multiset(pairs)
    ensures SortedBy(Sorted(pairs), KeyLeq)
    ensures forall key :: WithKey(Sorted(pairs), key) == WithKey(pairs, key)
  {
    SortedIsStableSort(pairs, 0);
    KeyLeqIsPreorder();
    SortByIsSorted(pairs, KeyLeq);
    forall key: string ensures WithKey(Sorted(pairs), key) == WithKey(pairs, key) {
      SortByIsStable(pairs, KeyLeq, (p: Pair) => p.key == key);
    }
  }

  lemma WithKeyCons(s: seq<Pair>, key: string)
    requires s != []
    ensures WithKey(s, key) == (if s[0].key == key then [s[0]] else []) + WithKey(s[1..], key)
  {
  }

  lemma HeadIsLeast(a: seq<Pair>, x: Pair)
    requires SortedBy(a, KeyLeq) && x in a
    ensures a != [] && KeyLeq(a[0], x)
  {
    var i :| 0 <= i < |a| && a[i] == x;
    assert i == 0 || KeyLeq(a[0], a[i]);
  }

  lemma WithKeyMember(s: seq<Pair>, x: Pair)
    ensures x in WithKey(s, x.key) <==> x in s
  {
  }

  lemma KeyLeqAntisymmetric(x: Pair, y: Pair)
    requires KeyLeq(x, y) && KeyLeq(y, x)
    ensures x.key == y.key
  {
    LexAsymmetric(Codes(x.key), Codes(y.key));
    CodesInjective(x.key, y.key);
  }

  /** The head of a key-sorted list is the first pair of the least key. */
  lemma HeadIsDetermined(a: seq<Pair>, b: seq<Pair>)
    requires SortedBy(a, KeyLeq) && SortedBy(b, KeyLeq)
    requires forall key :: WithKey(a, key) == WithKey(b, key)
    requires a != []
    ensures b != [] && a[0] == b[0]
  {
    var x := a[0];
    WithKeyMember(a, x);
    WithKeyMember(b, x);
    HeadIsLeast(b, x);
    var y := b[0];
    WithKeyMember(a, y);
    WithKeyMember(b, y);
    HeadIsLeast(a, y);
    KeyLeqAntisymmetric(x, y);
    WithKeyCons(a, x.key);
    WithKeyCons(b, x.key);
    assert WithKey(a, x.key)[0] == x && WithKey(b, x.key)[0] == y;
  }

  lemma {:induction false} SortedByKeyUnique(a: seq<Pair>, b: seq<Pair>)
    requires SortedBy(a, KeyLeq) && SortedBy(b, KeyLeq)
    requires forall key :: WithKey(a, key) == WithKey(b, key)
    ensures a == b
  {
    if a == [] {
      if b != [] { HeadIsDetermined(b, a); }
    } else {
      HeadIsDetermined(a, b);
      TailSorted(a);
      TailSorted(b);
      forall key ensures WithKey(a[1..], key) == WithKey(b[1..], key) {
        WithKeyCons(a, key);
        WithKeyCons(b, key);
        var head := if a[0].key == key then [a[0]] else [];
        assert WithKey(a[1..], key) == (head + WithKey(a[1..], key))[|head|..];
        assert WithKey(b[1..], key) == (head + WithKey(b[1..], key))[|head|..];
      }
      SortedByKeyUnique(a[1..], b[1..]);
      assert a == [a[0]] + a[1..] && b == [b[0]] + b[1..];
    }
  }

  lemma TailSorted(s: seq<Pair>)
    requires s != [] && SortedBy(s, KeyLeq)
    ensures SortedBy(s[1..], KeyLeq)
  {
    forall i, j | 0 <= i < j < |s[1..]| ensures KeyLeq(s[1..][i], s[1..][j]) {
      assert KeyLeq(s[i + 1], s[j + 1]);
    }
  }

  // ---- The text determines the sorted pairs ----

  /** A key and value that survived splitting: no "&" anywhere, no "=" in the key. */
  predicate Clean(p: Pair) {
    '&' !in p.key && '=' !in p.key && '&' !in p.value
  }

  lemma PieceIsClean(piece: string)
    requires '&' !in piece
    ensures Clean(NormPair(ParsePair(piece)))
  {
    var p := ParsePair(piece);
    assert forall c :: c in p.key || c in p.value ==> c in piece;
    NormPctAvoids(p.key, '&');
    NormPctAvoids(p.key, '=');
    NormPctAvoids(p.value, '&');
  }

  lemma SortedPairsAreClean(query: string)
    ensures var s := Sorted(QueryPairs(query));
            s != [] && forall i | 0 <= i < |s| :: Clean(s[i])
  {
    var pieces, pairs := Split(query, '&'), QueryPairs(query);
    forall p | p in pairs ensures Clean(p) {
      var i :| 0 <= i < |pairs| && pairs[i] == p;
      PieceIsClean(pieces[i]);
    }
    SortedIsStableSort(pairs, 0);
    SortByMembers(pairs, KeyLeq);
    var s := Sorted(pairs);
    assert forall i | 0 <= i < |s| :: s[i] in s;
  }

  lemma ParseOfRendered(p: Pair)
    requires Clean(p)
    ensures ParsePair(Render(p)) == p && '&' !in Render(p)
  {
    FindSplits(p.key, '=', p.value);
    var s := Render(p);
    assert s[..|p.key|] == p.key && s[|p.key| + 1..] == p.value;
  }

  /** The pairs can be read back from the canonical query text. */
  lemma RenderedReadsBack(pairs: seq<Pair>)
    requires pairs != [] && forall i | 0 <= i < |pairs| :: Clean(pairs[i])
    ensures var text := Join(RenderAll(pairs), '&');
            text != "" && Split(text, '&') == RenderAll(pairs)
    ensures forall i | 0 <= i < |pairs| :: ParsePair(RenderAll(pairs)[i]) == pairs[i]
  {
    forall i | 0 <= i < |pairs| ensures '&' !in RenderAll(pairs)[i] && ParsePair(RenderAll(pairs)[i]) == pairs[i] {
      ParseOfRendered(pairs[i]);
    }
    SplitOfJoin(RenderAll(pairs), '&');
    var head := Render(pairs[0]);
    assert head[|pairs[0].key|] == '=';
    assert |Join(RenderAll(pairs), '&')| >= |head|;
  }

  ghost predicate SameByKey(a: seq<Pair>, b: seq<Pair>) {
    forall key :: WithKey(a, key) == WithKey(b, key)
  }

  lemma SortedAgree(a: seq<Pair>, b: seq<Pair>)
    ensures SameByKey(a, b) <==> Sorted(a) == Sorted(b)
  {
    SortedIsStable(a);
    SortedIsStable(b);
    if SameByKey(a, b) {
      forall key ensures WithKey(Sorted(a), key) == WithKey(Sorted(b), key) {
        assert WithKey(Sorted(a), key) == WithKey(a, key) == WithKey(b, key) == WithKey(Sorted(b), key);
      }
      SortedByKeyUnique(Sorted(a), Sorted(b));
    } else {
      var key :| WithKey(a, key) != WithKey(b, key);
      assert WithKey(Sorted(a), key) != WithKey(Sorted(b), key);
    }
  }

  lemma RenderedInjective(a: seq<Pair>, b: seq<Pair>)
    requires a != [] && forall i | 0 <= i < |a| :: Clean(a[i])
    requires b != [] && forall i | 0 <= i < |b| :: Clean(b[i])
    requires Join(RenderAll(a), '&') == Join(RenderAll(b), '&')
    ensures a == b
  {
    RenderedReadsBack(a);
    RenderedReadsBack(b);
    assert RenderAll(a) == RenderAll(b);
    forall i | 0 <= i < |a| ensures a[i] == b[i] {
      assert ParsePair(RenderAll(a)[i]) == a[i] && ParsePair(RenderAll(b)[i]) == b[i];
    }
  }

  /**
   Two queries canonicalize alike exactly when every key carries the same values in
   the same order; moving a pair past pairs with other keys never matters.
   */
  lemma QueriesAgreeExactly(a: string, b: string)
    requires a != "" && b != ""
    ensures QueryNormal(a) == QueryNormal(b) <==> SameByKey(QueryPairs(a), QueryPairs(b))
  {
    SortedAgree(QueryPairs(a), QueryPairs(b));
    SortedPairsAreClean(a);
    SortedPairsAreClean(b);
    if QueryNormal(a) == QueryNormal(b) {
      RenderedInjective(Sorted(QueryPairs(a)), Sorted(QueryPairs(b)));
    }
  }

  // ---- Idempotence ----

  ghost predicate Settled(p: Pair) { NormPair(p) == p }

  lemma PairSettlesExactly(p: Pair)
    ensures Settled(NormPair(p)) <==> PercentStable(p.key) && PercentStable(p.value)
  {
    NormPctIdempotentExactly(p.key);
    NormPctIdempotentExactly(p.value);
  }

  lemma ParsedStable(piece: string)
    ensures PercentStable(piece) <==> PercentStable(ParsePair(piece).key) && PercentStable(ParsePair(piece).value)
  {
    var eq, p := Find(piece, '='), ParsePair(piece);
    if eq == |piece| {
      assert PercentStable("");
    } else {
      assert piece == p.key + ['='] + p.value;
      StableOfJoined(p.key, '=', p.value);
    }
  }

  lemma PieceSettlesExactly(piece: string)
    ensures Settled(NormPair(ParsePair(piece))) <==> PercentStable(piece)
  {
    PairSettlesExactly(ParsePair(piece));
    ParsedStable(piece);
  }

  ghost predicate AllSettled(pairs: seq<Pair>) { forall i | 0 <= i < |pairs| :: Settled(pairs[i]) }

  lemma PairsSettleExactly(query: string)
    ensures AllSettled(QueryPairs(query)) <==> PercentStable(query)
  {
    var pieces, pairs := Split(query, '&'), QueryPairs(query);
    StableOfSplit(query, '&');
    forall i | 0 <= i < |pieces| ensures Settled(pairs[i]) <==> PercentStable(pieces[i]) {
      PieceSettlesExactly(pieces[i]);
    }
    if AllStable(pieces) {
      assert AllSettled(pairs);
    } else {
      var i :| 0 <= i < |pieces| && !PercentStable(pieces[i]);
      assert !Settled(pairs[i]);
    }
  }

  lemma SortedSettles(pairs: seq<Pair>)
    ensures AllSettled(Sorted(pairs)) <==> AllSettled(pairs)
  {
    SortedIsStableSort(pairs, 0);
    SortByMembers(pairs, KeyLeq);
    var s := Sorted(pairs);
    if AllSettled(s) {
      forall i | 0 <= i < |pairs| ensures Settled(pairs[i]) {
        assert pairs[i] in pairs;
        var k :| 0 <= k < |s| && s[k] == pairs[i];
      }
    } else {
      var k :| 0 <= k < |s| && !Settled(s[k]);
      assert s[k] in s;
      var i :| 0 <= i < |pairs| && pairs[i] == s[k];
    }
  }

  function NormPairs(pairs: seq<Pair>): (r: seq<Pair>)
    ensures |r| == |pairs|
    ensures forall i | 0 <= i < |r| :: r[i] == NormPair(pairs[i])
  {
    if pairs == [] then [] else [NormPair(pairs[0])] + NormPairs(pairs[1..])
  }

  function PairWeight(p: Pair): nat { Weight(p.key) + Weight(p.value) }

  function TotalWeight(pairs: seq<Pair>): nat {
    if pairs == [] then 0 else PairWeight(pairs[0]) + TotalWeight(pairs[1..])
  }

  lemma {:induction false} InsertWeight(x: Pair, s: seq<Pair>)
    ensures TotalWeight(Insert(x, s, KeyLeq)) == PairWeight(x) + TotalWeight(s)
  {
    assert ([x] + s)[1..] == s;
    if s != [] && !KeyLeq(x, s[0]) {
      InsertWeight(x, s[1..]);
      var rest := Insert(x, s[1..], KeyLeq);
      assert ([s[0]] + rest)[1..] == rest;
    }
  }

  lemma {:induction false} SortWeight(pairs: seq<Pair>)
    ensures TotalWeight(SortBy(pairs, KeyLeq)) == TotalWeight(pairs)
  {
    if pairs != [] {
      SortWeight(pairs[1..]);
      InsertWeight(pairs[0], SortBy(pairs[1..], KeyLeq));
    }
  }

  lemma NormPairWeight(p: Pair)
    ensures PairWeight(NormPair(p)) <= PairWeight(p)
    ensures PairWeight(NormPair(p)) == PairWeight(p) <==> Settled(p)
  {
    NormPctWeight(p.key);
    NormPctWeight(p.value);
  }

  lemma {:induction false} NormPairsWeight(pairs: seq<Pair>)
    ensures TotalWeight(NormPairs(pairs)) <= TotalWeight(pairs)
    ensures TotalWeight(NormPairs(pairs)) == TotalWeight(pairs) ==> NormPairs(pairs) == pairs
  {
    if pairs != [] {
      NormPairWeight(pairs[0]);
      NormPairsWeight(pairs[1..]);
      assert NormPairs(pairs)[1..] == NormPairs(pairs[1..]);
    }
  }

  /** Sorting again after normalizing again restores a sorted list only when nothing was rewritten. */
  lemma ResortedExactly(s: seq<Pair>)
    requires SortedBy(s, KeyLeq)
    ensures Sorted(NormPairs(s)) == s <==> AllSettled(s)
  {
    SortedIsStableSort(NormPairs(s), 0);
    if AllSettled(s) {
      assert NormPairs(s) == s;
      SortByOfSorted(s, KeyLeq);
    }
    if Sorted(NormPairs(s)) == s {
      SortWeight(NormPairs(s));
      NormPairsWeight(s);
      assert forall i | 0 <= i < |s| :: NormPairs(s)[i] == s[i];
    }
  }

  lemma PairsOfRendered(pairs: seq<Pair>)
    requires forall i | 0 <= i < |pairs| :: Clean(pairs[i])
    ensures PairsOf(RenderAll(pairs)) == NormPairs(pairs)
  {
    var pieces := RenderAll(pairs);
    forall i | 0 <= i < |pairs| ensures PairsOf(pieces)[i] == NormPairs(pairs)[i] {
      ParseOfRendered(pairs[i]);
    }
  }

  lemma PairsReadBack(pairs: seq<Pair>)
    requires pairs != [] && forall i | 0 <= i < |pairs| :: Clean(pairs[i])
    ensures QueryPairs(Join(RenderAll(pairs), '&')) == NormPairs(pairs)
  {
    RenderedReadsBack(pairs);
    PairsOfRendered(pairs);
  }

  lemma CleanNormPair(p: Pair)
    requires Clean(p)
    ensures Clean(NormPair(p))
  {
    NormPctAvoids(p.key, '&');
    NormPctAvoids(p.key, '=');
    NormPctAvoids(p.value, '&');
  }

  lemma SortedStaysClean(pairs: seq<Pair>)
    requires pairs != [] && forall i | 0 <= i < |pairs| :: Clean(pairs[i])
    ensures var s := Sorted(pairs); s != [] && forall i | 0 <= i < |s| :: Clean(s[i])
  {
    SortedIsStableSort(pairs, 0);
    SortByMembers(pairs, KeyLeq);
    var s := Sorted(pairs);
    assert pairs[0] in s;
    forall i | 0 <= i < |s| ensures Clean(s[i]) {
      assert s[i] in s;
      var k :| 0 <= k < |pairs| && pairs[k] == s[i];
    }
  }

  lemma CleanNormPairs(pairs: seq<Pair>)
    requires pairs != [] && forall i | 0 <= i < |pairs| :: Clean(pairs[i])
    ensures var s := Sorted(NormPairs(pairs)); s != [] && forall i | 0 <= i < |s| :: Clean(s[i])
  {
    forall i | 0 <= i < |pairs| ensures Clean(NormPairs(pairs)[i]) { CleanNormPair(pairs[i]); }
    SortedStaysClean(NormPairs(pairs));
  }

  lemma RenderedAgree(a: seq<Pair>, b: seq<Pair>)
    requires a != [] && forall i | 0 <= i < |a| :: Clean(a[i])
    requires b != [] && forall i | 0 <= i < |b| :: Clean(b[i])
    ensures Join(RenderAll(a), '&') == Join(RenderAll(b), '&') <==> a == b
  {
    if Join(RenderAll(a), '&') == Join(RenderAll(b), '&') { RenderedInjective(a, b); }
  }

  lemma NormalOfRendered(s: seq<Pair>)
    requires s != [] && forall i | 0 <= i < |s| :: Clean(s[i])
    ensures QueryNormal(Join(RenderAll(s), '&')) == Join(RenderAll(Sorted(NormPairs(s))), '&')
  {
    RenderedReadsBack(s);
    PairsReadBack(s);
  }

  lemma SecondPass(s: seq<Pair>)
    requires s != [] && SortedBy(s, KeyLeq) && forall i | 0 <= i < |s| :: Clean(s[i])
    ensures QueryNormal(Join(RenderAll(s), '&')) == Join(RenderAll(s), '&') <==> AllSettled(s)
  {
    NormalOfRendered(s);
    CleanNormPairs(s);
    RenderedAgree(Sorted(NormPairs(s)), s);
    ResortedExactly(s);
  }

  /** The query step is idempotent on exactly the queries without a stray percent sign that catches two digits. */
  lemma QueryIdempotentExactly(query: string)
    ensures QueryNormal(QueryNormal(query)) == QueryNormal(query) <==> PercentStable(query)
  {
    if query == "" {
      assert PercentStable("");
    } else {
      SortedPairsAreClean(query);
      SortedIsStable(QueryPairs(query));
      SortedSettles(QueryPairs(query));
      PairsSettleExactly(query);
      SecondPass(Sorted(QueryPairs(query)));
    }
  }

  // ---- The whole suffix ----

  function StripPrefix(path: string, prefix: string): Option<string> {
    if prefix == "" then Some(path)
    else if path == prefix then Some("/")
    else if prefix + "/" <= path then Some(path[|prefix|..])
    else None
  }

  /** Path and query as the URL parser delivers them, without the question mark. */
  function CanonicalSuffix(path: string, query: string, prefix: string): Option<string> {
    match StripPrefix(path, prefix)
    case None => None
    case Some(stripped) =>
      var p, q := PathNormal(stripped), QueryNormal(query);
      Some(if q == "" then p else p + ['?'] + q)
  }

  /** Mounting a route under a prefix does not change its canonical suffix; siblings of the prefix are refused. */
  lemma MountTransparent(prefix: string, route: string, query: string)
    requires prefix != ""
    ensures CanonicalSuffix(prefix + route, query, prefix)
            == if route == "" || route[0] == '/' then CanonicalSuffix(route, query, "") else None
  {
    var path := prefix + route;
    if route == "" {
      assert path == prefix;
      RootIsFixed();
    } else {
      assert path[|prefix|..] == route && path[|prefix|] == route[0];
      assert prefix + "/" <= path <==> route[0] == '/';
    }
  }

  /** A path that holds no "?" keeps path and query apart in the suffix. */
  lemma SuffixDecidesPathAndQuery(p1: string, q1: string, p2: string, q2: string)
    requires '?' !in p1 && '?' !in p2
    ensures CanonicalSuffix(p1, q1, "") == CanonicalSuffix(p2, q2, "")
            <==> PathNormal(p1) == PathNormal(p2) && QueryNormal(q1) == QueryNormal(q2)
  {
    PathKeepsOutQuestionMark(p1);
    PathKeepsOutQuestionMark(p2);
    var a, b := PathNormal(p1), PathNormal(p2);
    var qa, qb := QueryNormal(q1), QueryNormal(q2);
    if qa != "" { FindSplits(a, '?', qa); } else { FindAbsent(a, '?'); }
    if qb != "" { FindSplits(b, '?', qb); } else { FindAbsent(b, '?'); }
    if CanonicalSuffix(p1, q1, "") == CanonicalSuffix(p2, q2, "") && qa != "" && qb != "" {
      FirstSeparatorUnique(a, qa, b, qb, '?');
    }
  }

  lemma PathKeepsOutQuestionMark(path: string)
    requires '?' !in path
    ensures '?' !in PathNormal(path)
  {
    if path != "" {
      var stack := Survivors(path);
      PathShape(path);
      if stack != [] {
        CollapseDraws(path);
        SplitDraws(CollapseSlashes(path), '/');
        ResolveIsDrawnFrom(Split(CollapseSlashes(path), '/'));
        var parts := NormAll(stack);
        forall i | 0 <= i < |parts| ensures '?' !in parts[i] {
          assert stack[i] in stack;
          NormPctAvoids(stack[i], '?');
        }
        JoinDraws(parts, '/', '?');
      }
    }
  }

  lemma CollapseDraws(s: string)
    ensures forall c | c in CollapseSlashes(s) :: c in s
  {
  }

  lemma {:induction false} SplitDraws(s: string, sep: char)
    ensures forall part | part in Split(s, sep) :: forall c | c in part :: c in s
    decreases |s|
  {
    var i := Find(s, sep);
    if i < |s| { SplitDraws(s[i + 1..], sep); }
  }

  lemma {:induction false} JoinDraws(parts: seq<string>, sep: char, c: char)
    requires c != sep && forall i | 0 <= i < |parts| :: c !in parts[i]
    ensures c !in Join(parts, sep)
  {
    if |parts| > 1 { JoinDraws(parts[1..], sep, c); }
  }

  /** Canonicalizing a canonical suffix changes nothing exactly when neither half has something left to decode. */
  lemma SuffixIdempotentExactly(path: string, query: string)
    requires '?' !in path
    ensures CanonicalSuffix(PathNormal(path), QueryNormal(query), "") == CanonicalSuffix(path, query, "")
            <==> !HasDot(NormAll(Survivors(path))) && AllStable(Survivors(path)) && PercentStable(query)
  {
    PathKeepsOutQuestionMark(path);
    SuffixDecidesPathAndQuery(PathNormal(path), QueryNormal(query), path, query);
    PathIdempotentExactly(path);
    QueryIdempotentExactly(query);
  }

  // ---- The canonical query of a list of pairs ----

  /** `key=value` pieces joined by "&". */
  function QueryText(pairs: seq<Pair>): string {
    if pairs == [] then ""
    else if |pairs| == 1 then pairs[0].key + "=" + pairs[0].value
    else pairs[0].key + "=" + pairs[0].value + "&" + QueryText(pairs[1..])
  }

  function EachNormal(pairs: seq<Pair>): (r: seq<Pair>)
    ensures |r| == |pairs|
    ensures forall i | 0 <= i < |r| :: r[i] == Pair(NormPct(pairs[i].key), NormPct(pairs[i].value))
  {
    seq(|pairs|, i requires 0 <= i < |pairs| => Pair(NormPct(pairs[i].key), NormPct(pairs[i].value)))
  }

  /** Key and value normalized, the pairs in key order, those of one key in the order they came. */
  ghost predicate SortedForm(sorted: seq<Pair>, pairs: seq<Pair>) {
    var normal := EachNormal(pairs);
    && multiset(sorted) == multiset(normal)
    && (forall i, j | 0 <= i < j < |sorted| ::
          Codes(sorted[i].key) == Codes(sorted[j].key) || LexLess(Codes(sorted[i].key), Codes(sorted[j].key)))
    && forall key :: WithKey(sorted, key) == WithKey(normal, key)
  }

  lemma {:induction false} QueryTextIsJoined(pairs: seq<Pair>)
    ensures QueryText(pairs) == Join(RenderAll(pairs), '&')
  {
    if |pairs| > 1 {
      QueryTextIsJoined(pairs[1..]);
      assert RenderAll(pairs)[1..] == RenderAll(pairs[1..]);
    } else if |pairs| == 1 {
      assert RenderAll(pairs) == [Render(pairs[0])];
    }
  }

  lemma PairsOfText(pairs: seq<Pair>)
    requires pairs != [] && forall i | 0 <= i < |pairs| :: Clean(pairs[i])
    ensures QueryText(pairs) != "" && QueryPairs(QueryText(pairs)) == EachNormal(pairs)
  {
    hide NormPct, RenderAll, Clean, Join, ParsePair;
    QueryTextIsJoined(pairs);
    RenderedReadsBack(pairs);
    var pieces, r := Split(QueryText(pairs), '&'), QueryPairs(QueryText(pairs));
    forall i | 0 <= i < |pairs| ensures r[i] == EachNormal(pairs)[i] { assert ParsePair(pieces[i]) == pairs[i]; }
  }

  lemma SortedHasForm(pairs: seq<Pair>, normal: seq<Pair>)
    requires normal == EachNormal(pairs)
    ensures SortedForm(Sorted(normal), pairs)
  {
    SortedIsStable(normal);
    var s := Sorted(normal);
    forall i, j | 0 <= i < j < |s| ensures Codes(s[i].key) == Codes(s[j].key) || LexLess(Codes(s[i].key), Codes(s[j].key)) {
      assert KeyLeq(s[i], s[j]);
    }
  }

  /** The canonical query of any non-empty list of pairs is the text of their sorted form. */
  lemma QueryOfPairs(pairs: seq<Pair>)
    requires pairs != [] && forall i | 0 <= i < |pairs| :: Clean(pairs[i])
    ensures exists sorted :: SortedForm(sorted, pairs) && QueryNormal(QueryText(pairs)) == QueryText(sorted)
  {
    PairsOfText(pairs);
    var normal := QueryPairs(QueryText(pairs));
    SortedHasForm(pairs, normal);
    QueryTextIsJoined(Sorted(normal));
  }

  /** A piece without "=" is a key with an empty value. */
  lemma BarePieceIsKey(piece: string)
    requires '=' !in piece && '&' !in piece && piece != ""
    ensures QueryNormal(piece) == QueryNormal(piece + "=") && QueryNormal(piece) == NormPct(piece) + "="
  {
    FindAbsent(piece, '=');
    FindAbsent(piece, '&');
    FindAbsent(piece + "=", '&');
    FindSplits(piece, '=', "");
    assert piece + ['='] + "" == piece + "=";
    OnePiece(piece);
    OnePiece(piece + "=");
    assert ParsePair(piece) == ParsePair(piece + "=") == Pair(piece, "");
    var p := NormPair(Pair(piece, ""));
    OnePairQuery(p);
  }

  lemma OnePiece(piece: string)
    requires '&' !in piece
    ensures Split(piece, '&') == [piece] && QueryPairs(piece) == [NormPair(ParsePair(piece))]
  {
    FindAbsent(piece, '&');
    assert PairsOf([piece][1..]) == [];
  }

  lemma OnePairQuery(p: Pair)
    ensures Join(RenderAll(Sorted([p])), '&') == p.key + "=" + p.value
  {
    SortedIsStableSort([p], 0);
    assert [p][1..] == [];
    assert SortBy([p][1..], KeyLeq) == [];
    assert Sorted([p]) == [p];
    assert RenderAll([p]) == [Render(p)];
  }
}
