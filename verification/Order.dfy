/**
 Lexicographic order on number sequences and the stable comparison sort that
 the host's `Array.prototype.sort` provides. Bytes and UTF-16 code units are
 both numbers here, so one order serves every canonical encoder.
 */
module Order {

  /** Strict lexicographic order: a proper prefix comes first. */
  predicate LexLess(a: seq<int>, b: seq<int>) {
    b != [] && (a == [] || a[0] < b[0] || (a[0] == b[0] && LexLess(a[1..], b[1..])))
  }

  predicate LexLeq(a: seq<int>, b: seq<int>) {
    a == b || LexLess(a, b)
  }

  lemma LexIrreflexive(a: seq<int>)
    ensures !LexLess(a, a)
  {
  }

  lemma LexTransitive(a: seq<int>, b: seq<int>, c: seq<int>)
    requires LexLess(a, b) && LexLess(b, c)
    ensures LexLess(a, c)
  {
    if a != [] && a[0] == b[0] == c[0] {
      LexTransitive(a[1..], b[1..], c[1..]);
    }
  }

  lemma LexTrichotomy(a: seq<int>, b: seq<int>)
    ensures LexLess(a, b) || a == b || LexLess(b, a)
  {
    if a != [] && b != [] && a[0] == b[0] {
      LexTrichotomy(a[1..], b[1..]);
      if a[1..] == b[1..] {
        assert a == [a[0]] + a[1..] && b == [b[0]] + b[1..];
      }
    }
  }

  lemma LexAsymmetric(a: seq<int>, b: seq<int>)
    ensures !(LexLess(a, b) && LexLess(b, a))
  {
    if LexLess(a, b) && LexLess(b, a) {
      LexTransitive(a, b, a);
      LexIrreflexive(a);
    }
  }

  /** A common prefix never decides a comparison. */
  lemma LexCommonPrefix(p: seq<int>, a: seq<int>, b: seq<int>)
    ensures LexLess(p + a, p + b) == LexLess(a, b)
  {
    if p == [] {
      assert p + a == a && p + b == b;
    } else {
      assert (p + a)[1..] == p[1..] + a && (p + b)[1..] == p[1..] + b;
      LexCommonPrefix(p[1..], a, b);
    }
  }

  /** The first difference, or the end of the shorter sequence, decides. */
  lemma DecidedAt(a: seq<int>, b: seq<int>, i: nat)
    requires i <= |a| && i <= |b| && a[..i] == b[..i]
    requires i == |a| || i == |b| || a[i] != b[i]
    ensures i < |a| && i < |b| ==> (LexLess(a, b) <==> a[i] < b[i])
    ensures i == |a| || i == |b| ==> (LexLess(a, b) <==> |a| < |b|)
  {
    LexCommonPrefix(a[..i], a[i..], b[i..]);
    assert a == a[..i] + a[i..] && b == a[..i] + b[i..];
  }

  /** Total-order facts about LexLeq, quantified for use with SortBy. */
  lemma LexLeqIsTotalOrder()
    ensures TotalPreorder(LexLeq)
    ensures forall a: seq<int>, b: seq<int> :: LexLeq(a, b) && LexLeq(b, a) ==> a == b
  {
    forall a: seq<int>, b: seq<int>
      ensures LexLeq(a, b) || LexLeq(b, a)
      ensures LexLeq(a, b) && LexLeq(b, a) ==> a == b
    {
      LexTrichotomy(a, b);
      LexAsymmetric(a, b);
    }
    forall a: seq<int>, b: seq<int>, c: seq<int> | LexLeq(a, b) && LexLeq(b, c)
      ensures LexLeq(a, c)
    {
      if LexLess(a, b) && LexLess(b, c) {
        LexTransitive(a, b, c);
      }
    }
  }

  // ---- The stable sort of the host runtime ----

  ghost predicate TotalPreorder<T(!new)>(le: (T, T) -> bool) {
    && (forall x, y :: le(x, y) || le(y, x))
    && (forall x, y, z :: le(x, y) && le(y, z) ==> le(x, z))
  }

  ghost predicate SortedBy<T>(s: seq<T>, le: (T, T) -> bool) {
    forall i, j | 0 <= i < j < |s| :: le(s[i], s[j])
  }

  function Insert<T>(x: T, s: seq<T>, le: (T, T) -> bool): (r: seq<T>)
    ensures multiset(r) == multiset([x]) + multiset(s)
    ensures |r| == |s| + 1
  {
    if s == [] || le(x, s[0]) then [x] + s
    else
      assert s == [s[0]] + s[1..];
      [s[0]] + Insert(x, s[1..], le)
  }

  function SortBy<T>(s: seq<T>, le: (T, T) -> bool): (r: seq<T>)
    ensures multiset(r) == multiset(s)
    ensures |r| == |s|
  {
    if s == [] then []
    else
      assert s == [s[0]] + s[1..];
      Insert(s[0], SortBy(s[1..], le), le)
  }

  lemma InsertIsSorted<T(!new)>(x: T, s: seq<T>, le: (T, T) -> bool)
    requires TotalPreorder(le) && SortedBy(s, le)
    ensures SortedBy(Insert(x, s, le), le)
  {
    if s != [] && !le(x, s[0]) {
      InsertIsSorted(x, s[1..], le);
      var rest := Insert(x, s[1..], le);
      forall j | 0 <= j < |rest| ensures le(s[0], rest[j]) {
        assert rest[j] in multiset(rest);
        if rest[j] != x {
          assert rest[j] in multiset(s[1..]);
          var k :| 0 <= k < |s[1..]| && s[1..][k] == rest[j];
          assert s[k + 1] == rest[j];
        }
      }
    }
  }

  lemma SortByIsSorted<T(!new)>(s: seq<T>, le: (T, T) -> bool)
    requires TotalPreorder(le)
    ensures SortedBy(SortBy(s, le), le)
  {
    if s != [] {
      SortByIsSorted(s[1..], le);
      InsertIsSorted(s[0], SortBy(s[1..], le), le);
    }
  }

  lemma SortByMembers<T(!new)>(s: seq<T>, le: (T, T) -> bool)
    ensures forall x :: x in SortBy(s, le) <==> x in s
  {
    forall x ensures x in SortBy(s, le) <==> x in s {
      assert x in SortBy(s, le) <==> x in multiset(SortBy(s, le));
      assert x in s <==> x in multiset(s);
    }
  }

  function Filter<T(!new)>(s: seq<T>, p: T -> bool): (r: seq<T>)
    ensures |r| <= |s|
    ensures forall x :: x in r <==> x in s && p(x)
  {
    if s == [] then []
    else
      assert s == [s[0]] + s[1..];
      if p(s[0]) then [s[0]] + Filter(s[1..], p) else Filter(s[1..], p)
  }

  lemma FilterAppend<T(!new)>(a: seq<T>, b: seq<T>, p: T -> bool)
    ensures Filter(a + b, p) == Filter(a, p) + Filter(b, p)
  {
    if a == [] {
      assert a + b == b;
    } else {
      assert (a + b)[1..] == a[1..] + b;
      FilterAppend(a[1..], b, p);
    }
  }

  lemma InsertIsStable<T(!new)>(x: T, s: seq<T>, le: (T, T) -> bool, p: T -> bool)
    requires forall y, z :: p(y) && p(z) ==> le(y, z)
    ensures Filter(Insert(x, s, le), p) == Filter([x] + s, p)
  {
    if s == [] || le(x, s[0]) {
    } else {
      InsertIsStable(x, s[1..], le, p);
      var rest := Insert(x, s[1..], le);
      assert Insert(x, s, le) == [s[0]] + rest;
      assert ([s[0]] + rest)[1..] == rest;
      assert ([x] + s[1..])[1..] == s[1..];
      assert ([x] + s)[1..] == s;
    }
  }

  /** Elements the order cannot tell apart keep their original order. */
  lemma SortByIsStable<T(!new)>(s: seq<T>, le: (T, T) -> bool, p: T -> bool)
    requires forall y, z :: p(y) && p(z) ==> le(y, z)
    ensures Filter(SortBy(s, le), p) == Filter(s, p)
  {
    if s != [] {
      SortByIsStable(s[1..], le, p);
      var sorted := SortBy(s[1..], le);
      InsertIsStable(s[0], sorted, le, p);
      assert ([s[0]] + sorted)[1..] == sorted;
    }
  }

  /** A sequence that is already sorted is left alone. */
  lemma SortByOfSorted<T(!new)>(s: seq<T>, le: (T, T) -> bool)
    requires SortedBy(s, le)
    ensures SortBy(s, le) == s
  {
    if s != [] {
      assert SortedBy(s[1..], le) by {
        forall i, j | 0 <= i < j < |s[1..]| ensures le(s[1..][i], s[1..][j]) {
          assert le(s[i + 1], s[j + 1]);
        }
      }
      SortByOfSorted(s[1..], le);
      if |s| > 1 { assert le(s[0], s[1]); }
    }
  }

  ghost predicate StrictlySortedBy<T>(s: seq<T>, lt: (T, T) -> bool) {
    forall i, j | 0 <= i < j < |s| :: lt(s[i], s[j])
  }

  /** A finite set has one strictly increasing listing. */
  lemma StrictlySortedUnique<T(!new)>(a: seq<T>, b: seq<T>, lt: (T, T) -> bool)
    requires forall x, y :: !(lt(x, y) && lt(y, x))
    requires StrictlySortedBy(a, lt) && StrictlySortedBy(b, lt)
    requires forall x :: x in a <==> x in b
    ensures a == b
  {
    assert forall k | 0 <= k < |b| :: b[k] in b && b[k] in a;
    assert b != [] ==> b[0] in b && b[0] in a;
    if a != [] {
      assert a[0] in a;
      assert b != [] && b[0] in b;
      var i :| 0 <= i < |b| && b[i] == a[0];
      var j :| 0 <= j < |a| && a[j] == b[0];
      assert a[0] == b[0];
      var at, bt := a[1..], b[1..];
      assert a == [a[0]] + at && b == [b[0]] + bt;
      forall x ensures x in at <==> x in bt {
        if x in at {
          var k :| 0 <= k < |at| && at[k] == x;
          assert lt(a[0], a[k + 1]);
          assert x in b;
        }
        if x in bt {
          var k :| 0 <= k < |bt| && bt[k] == x;
          assert lt(b[0], b[k + 1]);
          assert x in a;
        }
      }
      assert StrictlySortedBy(at, lt) by {
        forall m, n | 0 <= m < n < |at| ensures lt(at[m], at[n]) { assert lt(a[m + 1], a[n + 1]); }
      }
      assert StrictlySortedBy(bt, lt) by {
        forall m, n | 0 <= m < n < |bt| ensures lt(bt[m], bt[n]) { assert lt(b[m + 1], b[n + 1]); }
      }
      StrictlySortedUnique(at, bt, lt);
    }
  }

  lemma TailIsSorted<T>(s: seq<T>, le: (T, T) -> bool)
    requires s != [] && SortedBy(s, le)
    ensures SortedBy(s[1..], le)
  {
    forall i, j | 0 <= i < j < |s[1..]| ensures le(s[1..][i], s[1..][j]) { assert le(s[i + 1], s[j + 1]); }
  }

  lemma HeadsAgree<T(!new)>(a: seq<T>, b: seq<T>, le: (T, T) -> bool)
    requires forall x, y :: le(x, y) && le(y, x) ==> x == y
    requires SortedBy(a, le) && SortedBy(b, le) && multiset(a) == multiset(b) && a != []
    ensures b != [] && a[0] == b[0]
  {
    assert a[0] in multiset(b) && |multiset(a)| == |a| && |multiset(b)| == |b|;
    assert b[0] in multiset(a);
    var i :| 0 <= i < |b| && b[i] == a[0];
    var j :| 0 <= j < |a| && a[j] == b[0];
    assert i == 0 || le(b[0], b[i]);
    assert j == 0 || le(a[0], a[j]);
  }

  /** Under an antisymmetric order, a multiset has one sorted listing. */
  lemma {:induction false} SortedUnique<T(!new)>(a: seq<T>, b: seq<T>, le: (T, T) -> bool)
    requires forall x, y :: le(x, y) && le(y, x) ==> x == y
    requires SortedBy(a, le) && SortedBy(b, le)
    requires multiset(a) == multiset(b)
    ensures a == b
  {
    if a == [] {
      assert |multiset(b)| == |b| == 0;
    } else {
      HeadsAgree(a, b, le);
      assert a == [a[0]] + a[1..] && b == [b[0]] + b[1..];
      assert multiset(a[1..]) == multiset(a) - multiset{a[0]};
      assert multiset(b[1..]) == multiset(b) - multiset{b[0]};
      TailIsSorted(a, le);
      TailIsSorted(b, le);
      SortedUnique(a[1..], b[1..], le);
    }
  }

  ghost predicate NoDuplicates<T>(s: seq<T>) {
    forall i, j | 0 <= i < j < |s| :: s[i] != s[j]
  }

  lemma NoDuplicatesCounts<T>(s: seq<T>, x: T)
    requires NoDuplicates(s)
    ensures multiset(s)[x] <= 1
  {
    if s != [] {
      assert s == [s[0]] + s[1..];
      assert NoDuplicates(s[1..]);
      NoDuplicatesCounts(s[1..], x);
      assert s[0] !in s[1..];
    }
  }

  lemma CountsNoDuplicates<T(!new)>(s: seq<T>)
    requires forall x :: multiset(s)[x] <= 1
    ensures NoDuplicates(s)
  {
    forall i, j | 0 <= i < j < |s| ensures s[i] != s[j] {
      assert s == s[..j] + s[j..];
      assert multiset(s) == multiset(s[..j]) + multiset(s[j..]);
      assert s[..j][i] in multiset(s[..j]);
      assert s[j..][0] in multiset(s[j..]);
      assert multiset(s)[s[i]] <= 1;
    }
  }

  lemma SortByKeepsNoDuplicates<T(!new)>(s: seq<T>, le: (T, T) -> bool)
    requires NoDuplicates(s)
    ensures NoDuplicates(SortBy(s, le))
  {
    forall x ensures multiset(SortBy(s, le))[x] <= 1 {
      NoDuplicatesCounts(s, x);
    }
    CountsNoDuplicates(SortBy(s, le));
  }
}
