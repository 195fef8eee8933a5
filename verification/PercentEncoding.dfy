/**
 Percent-encoding normalization (src/routes/lease-middleware.ts:708-721): triplets of
 unreserved characters are decoded, the others upper-cased. The URL parser delivers
 ASCII only, so a character here is one UTF-16 unit and one byte.
 */
module PercentEncoding {
  import opened Wrappers
  import opened Sequences

  predicate IsHex(c: char) { '0' <= c <= '9' || 'a' <= c <= 'f' || 'A' <= c <= 'F' }

  function HexValue(c: char): (v: int)
    requires IsHex(c)
    ensures 0 <= v < 16
  {
    if c <= '9' then c as int - 48 else if c <= 'F' then c as int - 65 + 10 else c as int - 97 + 10
  }

  function Upper(c: char): (u: char)
    requires IsHex(c)
    ensures IsHex(u) && !('a' <= u <= 'f') && HexValue(u) == HexValue(c)
  {
    if 'a' <= c then (c as int - 32) as char else c
  }

  /** Unreserved characters, section 2.3 of RFC 3986. */
  predicate IsUnreserved(b: int) {
    0x41 <= b <= 0x5A || 0x61 <= b <= 0x7A || 0x30 <= b <= 0x39 || b == 0x2D || b == 0x2E || b == 0x5F || b == 0x7E
  }

  function TripletByte(a: char, b: char): (v: int)
    requires IsHex(a) && IsHex(b)
    ensures 0 <= v < 256
  {
    16 * HexValue(a) + HexValue(b)
  }

  function NormTriplet(a: char, b: char): (t: string)
    requires IsHex(a) && IsHex(b)
    ensures t != []
  {
    if IsUnreserved(TripletByte(a, b)) then [TripletByte(a, b) as char] else ['%', Upper(a), Upper(b)]
  }

  predicate StartsTriplet(s: string) {
    |s| >= 3 && s[0] == '%' && IsHex(s[1]) && IsHex(s[2])
  }

  /** `normalizePctEncoding_0_2_0`: leftmost triplets first, never overlapping. */
  function NormPct(s: string): (r: string)
    ensures s != [] ==> r != []
  {
    if s == [] then []
    else if StartsTriplet(s) then NormTriplet(s[1], s[2]) + NormPct(s[3..])
    else [s[0]] + NormPct(s[1..])
  }

  lemma NormPctOfLiteral(c: char, rest: string)
    requires c != '%'
    ensures NormPct([c] + rest) == [c] + NormPct(rest)
  {
    assert ([c] + rest)[1..] == rest;
  }

  /** A normalized triplet is left alone. */
  lemma NormPctOfNormTriplet(a: char, b: char, rest: string)
    requires IsHex(a) && IsHex(b)
    ensures NormPct(NormTriplet(a, b) + rest) == NormTriplet(a, b) + NormPct(rest)
  {
    var t := NormTriplet(a, b);
    if IsUnreserved(TripletByte(a, b)) {
      NormPctOfLiteral(t[0], rest);
    } else {
      var s := t + rest;
      assert s[3..] == rest;
      assert NormTriplet(Upper(a), Upper(b)) == t;
    }
  }

  /** Delimiters are neither decoded into being nor removed. */
  lemma NormPctAvoids(s: string, c: char)
    requires c != '%' && !IsUnreserved(c as int) && c !in s
    ensures c !in NormPct(s)
  {
  }

  lemma NormPctOfTriplet(a: char, b: char, rest: string)
    requires IsHex(a) && IsHex(b)
    ensures NormPct(['%', a, b] + rest) == NormTriplet(a, b) + NormPct(rest)
  {
    assert (['%', a, b] + rest)[3..] == rest;
  }

  lemma NormPctOfStray(c: char, rest: string)
    requires !StartsTriplet([c] + rest)
    ensures NormPct([c] + rest) == [c] + NormPct(rest)
  {
    assert ([c] + rest)[1..] == rest;
  }

  lemma DelimiterEndsTriplet(a: string, sep: char, b: string)
    requires sep != '%' && !IsHex(sep) && a != []
    ensures StartsTriplet(a + [sep] + b) == StartsTriplet(a)
  {
    var s := a + [sep] + b;
    if |a| == 1 { assert s[1] == sep; }
    else if |a| == 2 { assert s[2] == sep; }
    else { assert s[..3] == a[..3]; assert s[1] == a[1] && s[2] == a[2]; }
  }

  /** No triplet spans a delimiter, so normalization works piece by piece. */
  lemma {:induction false} NormPctOfJoined(a: string, sep: char, b: string)
    requires sep != '%' && !IsHex(sep)
    ensures NormPct(a + [sep] + b) == NormPct(a) + ([sep] + NormPct(b))
    decreases |a|
  {
    if a == [] {
      assert a + [sep] + b == [sep] + b;
      NormPctOfLiteral(sep, b);
    } else if StartsTriplet(a) {
      NormPctOfJoined(a[3..], sep, b);
      JoinedAfterTriplet(a, sep, b, NormPct(a[3..]));
    } else {
      NormPctOfJoined(a[1..], sep, b);
      JoinedAfterStray(a, sep, b, NormPct(a[1..]));
    }
  }

  lemma UnfoldTriplet(s: string)
    requires StartsTriplet(s)
    ensures NormPct(s) == NormTriplet(s[1], s[2]) + NormPct(s[3..])
  {
  }

  lemma UnfoldStray(s: string)
    requires s != [] && !StartsTriplet(s)
    ensures NormPct(s) == [s[0]] + NormPct(s[1..])
  {
  }

  lemma DropOfJoined(a: string, sep: char, b: string, n: nat)
    requires n <= |a|
    ensures (a + [sep] + b)[n..] == a[n..] + [sep] + b
    ensures forall i | 0 <= i < |a| :: (a + [sep] + b)[i] == a[i]
  {
  }

  lemma JoinedAfterTriplet(a: string, sep: char, b: string, tail: string)
    requires sep != '%' && !IsHex(sep)
    requires StartsTriplet(a) && tail == NormPct(a[3..])
    requires NormPct(a[3..] + [sep] + b) == tail + ([sep] + NormPct(b))
    ensures NormPct(a + [sep] + b) == NormPct(a) + ([sep] + NormPct(b))
  {
    var s := a + [sep] + b;
    DropOfJoined(a, sep, b, 3);
    DelimiterEndsTriplet(a, sep, b);
    UnfoldTriplet(s);
    UnfoldTriplet(a);
    Regroup(NormTriplet(a[1], a[2]), tail, [sep] + NormPct(b));
  }

  lemma JoinedAfterStray(a: string, sep: char, b: string, tail: string)
    requires sep != '%' && !IsHex(sep)
    requires a != [] && !StartsTriplet(a) && tail == NormPct(a[1..])
    requires NormPct(a[1..] + [sep] + b) == tail + ([sep] + NormPct(b))
    ensures NormPct(a + [sep] + b) == NormPct(a) + ([sep] + NormPct(b))
  {
    var s := a + [sep] + b;
    DropOfJoined(a, sep, b, 1);
    DelimiterEndsTriplet(a, sep, b);
    UnfoldStray(s);
    UnfoldStray(a);
    Regroup([a[0]], tail, [sep] + NormPct(b));
  }

  function NormAll(parts: seq<string>): (r: seq<string>)
    ensures |r| == |parts|
    ensures forall i | 0 <= i < |r| :: r[i] == NormPct(parts[i])
  {
    if parts == [] then [] else [NormPct(parts[0])] + NormAll(parts[1..])
  }

  lemma NormPctOfJoin(parts: seq<string>, sep: char)
    requires sep != '%' && !IsHex(sep)
    ensures NormPct(Join(parts, sep)) == Join(NormAll(parts), sep)
  {
    if |parts| > 1 {
      NormPctOfJoin(parts[1..], sep);
      NormPctOfJoined(parts[0], sep, Join(parts[1..], sep));
      assert NormAll(parts)[1..] == NormAll(parts[1..]);
    }
  }

  // ---- When normalizing twice changes nothing ----

  /** The next item, a literal or a triplet, when it comes out as one hex digit; and what follows it. */
  function HexItem(s: string): (r: Option<(char, string)>)
    ensures r.Some? ==> IsHex(r.value.0) && |r.value.1| < |s|
  {
    if s == [] then None
    else if StartsTriplet(s) then
      var v := TripletByte(s[1], s[2]);
      if IsUnreserved(v) && IsHex(v as char) then Some((v as char, s[3..])) else None
    else if IsHex(s[0]) then Some((s[0], s[1..]))
    else None
  }

  /**
   A percent sign that starts no triplet, followed by two items that come out as hex
   digits: the output holds a triplet the input did not, and it is not in normal form.
   */
  predicate Catches(s: string) {
    && s != [] && s[0] == '%' && !StartsTriplet(s)
    && var first := HexItem(s[1..]);
       && first.Some?
       && var second := HexItem(first.value.1);
          second.Some? && NormTriplet(first.value.0, second.value.0) != ['%', first.value.0, second.value.0]
  }

  /** No stray percent sign catches two digits. */
  predicate PercentStable(s: string) {
    forall i | 0 <= i < |s| :: !Catches(s[i..])
  }

  lemma StableCons(s: string)
    requires s != []
    ensures PercentStable(s) <==> !Catches(s) && PercentStable(s[1..])
  {
    assert s[0..] == s;
    assert forall i | 0 <= i < |s| - 1 :: s[1..][i..] == s[i + 1..];
    if !Catches(s) && PercentStable(s[1..]) {
      forall i | 0 <= i < |s| ensures !Catches(s[i..]) {
        if i > 0 { assert s[1..][i - 1..] == s[i..]; }
      }
    }
    if PercentStable(s) {
      forall i | 0 <= i < |s[1..]| ensures !Catches(s[1..][i..]) { assert s[1..][i..] == s[i + 1..]; }
    }
  }

  lemma StableOfTriplet(s: string)
    requires StartsTriplet(s)
    ensures PercentStable(s) <==> PercentStable(s[3..])
  {
    StableCons(s);
    StableCons(s[1..]);
    StableCons(s[1..][1..]);
    assert s[1..][1..][1..] == s[3..];
    assert s[1..][0] == s[1] && s[1..][1..][0] == s[2];
  }

  lemma StableOfHexItem(s: string)
    requires HexItem(s).Some?
    ensures PercentStable(s) <==> PercentStable(HexItem(s).value.1)
  {
    if StartsTriplet(s) { StableOfTriplet(s); } else { StableCons(s); }
  }

  lemma NormPctOfHexItem(s: string)
    requires HexItem(s).Some?
    ensures NormPct(s) == [HexItem(s).value.0] + NormPct(HexItem(s).value.1)
  {
  }

  lemma HexItemIsHead(s: string)
    ensures HexItem(s).Some? <==> NormPct(s) != [] && IsHex(NormPct(s)[0])
  {
  }

  /** A percent sign in front of normalized text starts a triplet exactly when two hex items follow. */
  lemma TripletFromItems(t: string)
    ensures StartsTriplet(['%'] + NormPct(t))
            <==> HexItem(t).Some? && HexItem(HexItem(t).value.1).Some?
  {
    HexItemIsHead(t);
    if HexItem(t).Some? {
      NormPctOfHexItem(t);
      HexItemIsHead(HexItem(t).value.1);
    }
  }

  ghost predicate Twice(s: string) { NormPct(NormPct(s)) == NormPct(s) }

  lemma TwiceOfTriplet(s: string)
    requires StartsTriplet(s)
    ensures Twice(s) <==> Twice(s[3..])
  {
    var t, rest := NormTriplet(s[1], s[2]), NormPct(s[3..]);
    UnfoldTriplet(s);
    NormPctOfNormTriplet(s[1], s[2], rest);
    SamePrefix(t, NormPct(rest), rest);
  }

  /** A head that stays what it is. */
  lemma TwiceOfKept(s: string)
    requires s != [] && !StartsTriplet(s) && !StartsTriplet([s[0]] + NormPct(s[1..]))
    ensures Twice(s) <==> Twice(s[1..])
  {
    var rest := NormPct(s[1..]);
    UnfoldStray(s);
    NormPctOfStray(s[0], rest);
    SamePrefix([s[0]], NormPct(rest), rest);
  }

  /** A stray percent sign in front of two hex items. */
  lemma TwiceOfCaught(s: string)
    requires s != [] && s[0] == '%' && !StartsTriplet(s)
    requires HexItem(s[1..]).Some? && HexItem(HexItem(s[1..]).value.1).Some?
    ensures Twice(s) <==> !Catches(s) && Twice(HexItem(HexItem(s[1..]).value.1).value.1)
  {
    var (a, r1) := HexItem(s[1..]).value;
    var (b, r2) := HexItem(r1).value;
    var rest := NormPct(r2);
    UnfoldStray(s);
    NormPctOfHexItem(s[1..]);
    NormPctOfHexItem(r1);
    assert NormPct(s) == ['%', a, b] + rest;
    NormPctOfTriplet(a, b, rest);
    CaughtDiffers(a, b, NormPct(rest), rest);
  }

  lemma CaughtDiffers(a: char, b: char, x: string, y: string)
    requires IsHex(a) && IsHex(b)
    ensures NormTriplet(a, b) + x == ['%', a, b] + y <==> NormTriplet(a, b) == ['%', a, b] && x == y
  {
    var t := NormTriplet(a, b);
    if t + x == ['%', a, b] + y {
      assert (t + x)[0] == '%' && t[0] == '%';
      assert |t| == 3 && (t + x)[1] == a && (t + x)[2] == b;
      assert t == ['%', a, b];
      SamePrefix(t, x, y);
    }
  }

  /**
   Percent normalization is idempotent on exactly the strings in which no stray percent
   sign is followed by two items that come out as digits of a triplet to normalize.
   */
  lemma {:induction false} NormPctIdempotentExactly(s: string)
    ensures NormPct(NormPct(s)) == NormPct(s) <==> PercentStable(s)
    decreases |s|
  {
    if s == [] {
    } else if StartsTriplet(s) {
      NormPctIdempotentExactly(s[3..]);
      TwiceOfTriplet(s);
      StableOfTriplet(s);
    } else {
      TripletFromItems(s[1..]);
      StableCons(s);
      if s[0] == '%' && HexItem(s[1..]).Some? && HexItem(HexItem(s[1..]).value.1).Some? {
        var r1 := HexItem(s[1..]).value.1;
        NormPctIdempotentExactly(HexItem(r1).value.1);
        TwiceOfCaught(s);
        StableOfHexItem(s[1..]);
        StableOfHexItem(r1);
      } else {
        NormPctIdempotentExactly(s[1..]);
        TwiceOfKept(s);
      }
    }
  }

  /** A stray percent sign that catches nothing is harmless. */
  lemma HarmlessStray()
    ensures NormPct("100%") == "100%" && PercentStable("100%")
  {
    assert "%"[1..] == "" && NormPct("") == "";
    UnfoldStray("%");
    NormPctOfLiteral('0', "%");
    NormPctOfLiteral('0', "0%");
    NormPctOfLiteral('1', "00%");
    assert ['0'] + "%" == "0%" && ['0'] + "0%" == "00%" && ['1'] + "00%" == "100%";
    NormPctIdempotentExactly("100%");
  }

  /** One that catches two digits is not: the first pass leaves "%41", the second "A". */
  lemma CatchingStray()
    ensures NormPct("%%341") == "%41" && NormPct("%41") == "A" && !PercentStable("%%341")
  {
    assert "1"[1..] == "" && NormPct("") == "";
    UnfoldStray("1");
    assert TripletByte('3', '4') == 0x34 && TripletByte('4', '1') == 0x41;
    NormPctOfTriplet('3', '4', "1");
    assert ['%', '3', '4'] + "1" == "%341" && NormTriplet('3', '4') + "1" == "41";
    NormPctOfStray('%', "%341");
    assert ['%'] + "%341" == "%%341" && ['%'] + "41" == "%41";
    NormPctOfTriplet('4', '1', "");
    assert ['%', '4', '1'] + "" == "%41" && NormTriplet('4', '1') + "" == "A";
    NormPctIdempotentExactly("%%341");
  }

  /** Pieces between delimiters are stable one by one. */
  lemma StableOfJoined(a: string, sep: char, b: string)
    requires sep != '%' && !IsHex(sep) && !IsUnreserved(sep as int) && sep !in a
    ensures PercentStable(a + [sep] + b) <==> PercentStable(a) && PercentStable(b)
  {
    var na, nb := NormPct(a), NormPct(b);
    NormPctOfJoined(a, sep, b);
    assert na + ([sep] + nb) == na + [sep] + nb;
    NormPctOfJoined(na, sep, nb);
    NormPctAvoids(a, sep);
    NormPctAvoids(na, sep);
    SplitAgrees(NormPct(na), NormPct(nb), na, nb, sep);
    NormPctIdempotentExactly(a);
    NormPctIdempotentExactly(b);
    NormPctIdempotentExactly(a + [sep] + b);
  }

  lemma SplitAgrees(a: string, b: string, c: string, d: string, sep: char)
    requires sep !in a && sep !in c
    ensures a + ([sep] + b) == c + [sep] + d <==> a == c && b == d
  {
    assert a + ([sep] + b) == a + [sep] + b;
    if a + [sep] + b == c + [sep] + d { FirstSeparatorUnique(a, b, c, d, sep); }
  }

  predicate AllStable(parts: seq<string>) {
    forall i | 0 <= i < |parts| :: PercentStable(parts[i])
  }

  lemma AllStableCons(a: string, rest: seq<string>)
    ensures AllStable([a] + rest) <==> PercentStable(a) && AllStable(rest)
  {
    var all := [a] + rest;
    assert all[0] == a && forall k | 0 <= k < |rest| :: all[k + 1] == rest[k];
    if AllStable(all) {
      forall k | 0 <= k < |rest| ensures PercentStable(rest[k]) { assert PercentStable(all[k + 1]); }
    }
  }

  lemma {:induction false} StableOfSplit(s: string, sep: char)
    requires sep != '%' && !IsHex(sep) && !IsUnreserved(sep as int)
    ensures PercentStable(s) <==> AllStable(Split(s, sep))
    decreases |s|
  {
    var i := Find(s, sep);
    if i == |s| {
      assert Split(s, sep) == [s] == [s] + [];
      AllStableCons(s, []);
    } else {
      var a, b := s[..i], s[i + 1..];
      assert s == a + [sep] + b;
      StableOfJoined(a, sep, b);
      StableOfSplit(b, sep);
      AllStableCons(a, Split(b, sep));
    }
  }

  // ---- Normalization only shrinks ----

  /** Characters, lower-case ones counted twice. */
  function Weight(s: string): nat {
    if s == [] then 0 else (if 'a' <= s[0] <= 'z' then 2 else 1) + Weight(s[1..])
  }

  lemma {:induction false} WeightAppend(a: string, b: string)
    ensures Weight(a + b) == Weight(a) + Weight(b)
  {
    if a == [] {
      assert a + b == b;
    } else {
      assert (a + b)[1..] == a[1..] + b;
      WeightAppend(a[1..], b);
    }
  }

  lemma WeightOfThree(a: char, b: char, c: char)
    ensures Weight([a, b, c]) == Weight([a]) + Weight([b]) + Weight([c])
  {
    WeightAppend([a], [b, c]);
    WeightAppend([b], [c]);
    assert [a] + [b, c] == [a, b, c] && [b] + [c] == [b, c];
  }

  lemma TripletWeight(a: char, b: char)
    requires IsHex(a) && IsHex(b)
    ensures Weight(NormTriplet(a, b)) <= Weight(['%', a, b])
    ensures Weight(NormTriplet(a, b)) == Weight(['%', a, b]) ==> NormTriplet(a, b) == ['%', a, b]
  {
    WeightOfThree('%', a, b);
    WeightOfThree('%', Upper(a), Upper(b));
    assert Weight(['%']) == 1;
    assert 1 <= Weight([a]) <= 2 && 1 <= Weight([b]) <= 2;
  }

  /** Every change makes the text lighter, so no list of texts is normalized into a reordering of itself. */
  lemma {:induction false} NormPctWeight(s: string)
    ensures Weight(NormPct(s)) <= Weight(s)
    ensures Weight(NormPct(s)) == Weight(s) ==> NormPct(s) == s
    decreases |s|
  {
    if s == [] {
    } else if StartsTriplet(s) {
      NormPctWeight(s[3..]);
      TripletWeight(s[1], s[2]);
      UnfoldTriplet(s);
      WeightAppend(NormTriplet(s[1], s[2]), NormPct(s[3..]));
      WeightAppend(['%', s[1], s[2]], s[3..]);
      assert s == ['%', s[1], s[2]] + s[3..];
    } else {
      NormPctWeight(s[1..]);
      UnfoldStray(s);
      WeightAppend([s[0]], NormPct(s[1..]));
      WeightAppend([s[0]], s[1..]);
      assert s == [s[0]] + s[1..];
    }
  }

  // ---- What a triplet becomes ----

  const UPPER_HEX := "0123456789ABCDEF"
  const LOWER_HEX := "0123456789abcdef"

  predicate LetterDigitOrMark(c: char) {
    'A' <= c <= 'Z' || 'a' <= c <= 'z' || '0' <= c <= '9' || c in {'-', '.', '_', '~'}
  }

  lemma DigitOf(c: char, i: nat)
    requires i < 16 && (c == UPPER_HEX[i] || c == LOWER_HEX[i])
    ensures IsHex(c) && HexValue(c) == i && Upper(c) == UPPER_HEX[i]
  {
  }

  /**
   A triplet, in either case, becomes the character it stands for when that is a letter, a
   digit or one of "-._~", and otherwise the same triplet in upper case.
   */
  lemma TripletBecomes(a: char, b: char, i: nat, j: nat, rest: string)
    requires i < 16 && (a == UPPER_HEX[i] || a == LOWER_HEX[i]) && j < 16 && (b == UPPER_HEX[j] || b == LOWER_HEX[j])
    ensures var c := (16 * i + j) as char;
      NormPct(['%', a, b] + rest)
      == (if LetterDigitOrMark(c) then [c] else ['%', UPPER_HEX[i], UPPER_HEX[j]]) + NormPct(rest)
  {
    DigitOf(a, i);
    DigitOf(b, j);
    NormPctOfTriplet(a, b, rest);
  }

  /** Everything else is left as it is. */
  lemma OthersAreKept(s: string)
    requires forall i | 0 <= i < |s| :: !StartsTriplet(s[i..])
    ensures NormPct(s) == s
  {
    if s != [] {
      assert s[0..] == s;
      assert forall i | 0 <= i < |s| - 1 :: s[1..][i..] == s[i + 1..];
      OthersAreKept(s[1..]);
    }
  }
}
