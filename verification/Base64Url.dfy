/**
 Base64url without padding, built the way the code builds it: `btoa`, swap two
 letters, strip the padding; and back: swap, pad, `atob`. `Atob` is the
 forgiving decoder of the WHATWG Infra standard.
 */
module Base64Url {
  import opened Wrappers
  import opened Utf8
  import opened Order

  const PAD: Unit := 61
  const PLUS: Unit := 43
  const SLASH: Unit := 47
  const HYPHEN: Unit := 45
  const UNDERSCORE: Unit := 95

  /** Letter for a six-bit value, standard alphabet. */
  function Letter(v: int): (u: Unit)
    requires 0 <= v < 64
    ensures u != PAD && u != HYPHEN && u != UNDERSCORE && !IsSpace(u) && u < 0x80
  {
    if v < 26 then 65 + v
    else if v < 52 then 97 + (v - 26)
    else if v < 62 then 48 + (v - 52)
    else if v == 62 then PLUS else SLASH
  }

  predicate IsLetter(u: int) {
    65 <= u <= 90 || 97 <= u <= 122 || 48 <= u <= 57 || u == PLUS || u == SLASH
  }

  function LetterValue(u: int): (v: int)
    requires IsLetter(u)
    ensures 0 <= v < 64
  {
    if 65 <= u <= 90 then u - 65
    else if 97 <= u <= 122 then u - 97 + 26
    else if 48 <= u <= 57 then u - 48 + 52
    else if u == PLUS then 62 else 63
  }

  predicate NotSpace(u: Unit) { !IsSpace(u) }

  predicate IsSpace(u: int) { u == 9 || u == 10 || u == 12 || u == 13 || u == 32 }

  /** Base64 letters of the bytes, before padding. */
  function Letters(b: seq<Byte>): (s: seq<Unit>)
    ensures |s| % 4 != 1
    ensures forall i | 0 <= i < |s| :: IsLetter(s[i])
  {
    if b == [] then []
    else if |b| == 1 then [Letter(b[0] / 4), Letter(b[0] % 4 * 16)]
    else if |b| == 2 then [Letter(b[0] / 4), Letter(b[0] % 4 * 16 + b[1] / 16), Letter(b[1] % 16 * 4)]
    else [Letter(b[0] / 4), Letter(b[0] % 4 * 16 + b[1] / 16), Letter(b[1] % 16 * 4 + b[2] / 64), Letter(b[2] % 64)]
         + Letters(b[3..])
  }

  /** `"===".slice((n + 3) % 4)`: the padding for n letters. */
  function Padding(n: nat): (p: seq<Unit>) {
    match (n + 3) % 4
    case 0 => [PAD, PAD, PAD]
    case 1 => [PAD, PAD]
    case 2 => [PAD]
    case _ => []
  }

  function Btoa(b: seq<Byte>): seq<Unit> {
    Letters(b) + Padding(|Letters(b)|)
  }

  function Replace(s: seq<Unit>, a: Unit, b: Unit): (r: seq<Unit>)
    ensures |r| == |s|
    ensures forall i | 0 <= i < |s| :: r[i] == if s[i] == a then b else s[i]
  {
    seq(|s|, i requires 0 <= i < |s| => if s[i] == a then b else s[i])
  }

  function StripTrailing(s: seq<Unit>, u: Unit): seq<Unit> {
    if s != [] && s[|s| - 1] == u then StripTrailing(s[..|s| - 1], u) else s
  }

  /** The encoder every header and cursor uses. */
  function B64Encode(b: seq<Byte>): seq<Unit> {
    StripTrailing(Replace(Replace(Btoa(b), PLUS, HYPHEN), SLASH, UNDERSCORE), PAD)
  }

  function LettersToBytes(s: seq<Unit>): (b: seq<Byte>)
    requires |s| % 4 != 1
    requires forall i | 0 <= i < |s| :: IsLetter(s[i])
  {
    if |s| < 2 then []
    else
      var v0, v1 := LetterValue(s[0]), LetterValue(s[1]);
      if |s| == 2 then [v0 * 4 + v1 / 16]
      else
        var v2 := LetterValue(s[2]);
        if |s| == 3 then [v0 * 4 + v1 / 16, v1 % 16 * 16 + v2 / 4]
        else
          var v3 := LetterValue(s[3]);
          [v0 * 4 + v1 / 16, v1 % 16 * 16 + v2 / 4, v2 % 4 * 64 + v3] + LettersToBytes(s[4..])
  }

  function DropPadding(s: seq<Unit>): seq<Unit> {
    if |s| % 4 != 0 || s == [] || s[|s| - 1] != PAD then s
    else if s[|s| - 2] == PAD then s[..|s| - 2]
    else s[..|s| - 1]
  }

  function Atob(s: seq<Unit>): Option<seq<Byte>> {
    var t := DropPadding(Filter(s, NotSpace));
    if |t| % 4 == 1 || !(forall i | 0 <= i < |t| :: IsLetter(t[i])) then None
    else Some(LettersToBytes(t))
  }

  /** The decoder every header and cursor uses; None where it throws. */
  function B64Decode(s: seq<Unit>): Option<seq<Byte>> {
    Atob(Replace(Replace(s, HYPHEN, PLUS), UNDERSCORE, SLASH) + Padding(|s|))
  }

  lemma {:induction false} LettersRoundTrip(b: seq<Byte>)
    ensures LettersToBytes(Letters(b)) == b
  {
    if |b| >= 3 {
      LettersRoundTrip(b[3..]);
      assert b == [b[0], b[1], b[2]] + b[3..];
      GroupThenRest(b[0], b[1], b[2], Letters(b[3..]));
    } else if |b| == 2 {
      TwoRoundTrip(b[0], b[1]);
      assert b == [b[0], b[1]];
    } else if |b| == 1 {
      OneRoundTrip(b[0]);
      assert b == [b[0]];
    }
  }

  lemma GroupThenRest(x: Byte, y: Byte, z: Byte, rest: seq<Unit>)
    requires |rest| % 4 != 1 && forall i | 0 <= i < |rest| :: IsLetter(rest[i])
    ensures var s := [Letter(x / 4), Letter(x % 4 * 16 + y / 16), Letter(y % 16 * 4 + z / 64), Letter(z % 64)] + rest;
            (forall i | 0 <= i < |s| :: IsLetter(s[i])) && LettersToBytes(s) == [x, y, z] + LettersToBytes(rest)
  {
    var g := [Letter(x / 4), Letter(x % 4 * 16 + y / 16), Letter(y % 16 * 4 + z / 64), Letter(z % 64)];
    var s := g + rest;
    assert forall i | 0 <= i < |s| :: s[i] == if i < 4 then g[i] else rest[i - 4];
    GroupRoundTrip(x, y, z);
    assert s[4..] == rest;
  }

  lemma TwoRoundTrip(x: Byte, y: Byte)
    ensures LettersToBytes([Letter(x / 4), Letter(x % 4 * 16 + y / 16), Letter(y % 16 * 4)]) == [x, y]
  {
    GroupRoundTrip(x, y, 0);
    assert LetterValue(Letter(y % 16 * 4)) == y % 16 * 4;
  }

  lemma OneRoundTrip(x: Byte)
    ensures LettersToBytes([Letter(x / 4), Letter(x % 4 * 16)]) == [x]
  {
    GroupRoundTrip(x, 0, 0);
    assert LetterValue(Letter(x % 4 * 16)) == x % 4 * 16;
  }

  lemma GroupRoundTrip(x: Byte, y: Byte, z: Byte)
    ensures LetterValue(Letter(x / 4)) == x / 4
    ensures LetterValue(Letter(x % 4 * 16 + y / 16)) == x % 4 * 16 + y / 16
    ensures LetterValue(Letter(y % 16 * 4 + z / 64)) == y % 16 * 4 + z / 64
    ensures LetterValue(Letter(z % 64)) == z % 64
    ensures (x % 4 * 16 + y / 16) / 16 == x % 4 && (x % 4 * 16 + y / 16) % 16 == y / 16
    ensures (y % 16 * 4 + z / 64) / 4 == y % 16 && (y % 16 * 4 + z / 64) % 4 == z / 64
  {
  }

  lemma StripOne(s: seq<Unit>)
    ensures StripTrailing(s + [PAD], PAD) == StripTrailing(s, PAD)
  {
    assert (s + [PAD])[..|s|] == s;
  }

  lemma StripPaddingExact(s: seq<Unit>, n: nat)
    requires s == [] || s[|s| - 1] != PAD
    ensures StripTrailing(s + Padding(n), PAD) == s
  {
    StripOne(s);
    StripOne(s + [PAD]);
    StripOne(s + [PAD] + [PAD]);
    assert s + [PAD] + [PAD] + [PAD] == s + [PAD, PAD, PAD];
    assert s + [PAD] + [PAD] == s + [PAD, PAD];
    assert s + [] == s;
  }

  /** What the encoder emits: the letters with '+' and '/' swapped out. */
  lemma EncodeLetters(b: seq<Byte>)
    ensures B64Encode(b) == Replace(Replace(Letters(b), PLUS, HYPHEN), SLASH, UNDERSCORE)
  {
    var core, pad := Letters(b), Padding(|Letters(b)|);
    var coreUrl := Replace(Replace(core, PLUS, HYPHEN), SLASH, UNDERSCORE);
    assert Replace(Replace(core + pad, PLUS, HYPHEN), SLASH, UNDERSCORE) == coreUrl + pad;
    StripPaddingExact(coreUrl, |core|);
  }

  lemma FilterAll(s: seq<Unit>)
    requires forall i | 0 <= i < |s| :: !IsSpace(s[i])
    ensures Filter(s, NotSpace) == s
  {
  }

  lemma DropPaddingExact(core: seq<Unit>)
    requires |core| % 4 != 1 && (core == [] || core[|core| - 1] != PAD)
    ensures DropPadding(core + Padding(|core|)) == core
  {
    assert (core + [PAD])[..|core|] == core;
    assert (core + [PAD, PAD])[..|core|] == core;
    assert core + [] == core;
  }

  lemma AtobOfPadded(core: seq<Unit>)
    requires |core| % 4 != 1 && forall i | 0 <= i < |core| :: IsLetter(core[i])
    ensures Atob(core + Padding(|core|)) == Some(LettersToBytes(core))
  {
    var p := Padding(|core|);
    assert forall i | 0 <= i < |p| :: !IsSpace(p[i]);
    FilterAll(core + p);
    DropPaddingExact(core);
  }

  /** Section 5 of RFC 4648 without padding: decoding undoes encoding. */
  lemma RoundTrip(b: seq<Byte>)
    ensures B64Decode(B64Encode(b)) == Some(b)
  {
    var core := Letters(b);
    var e := B64Encode(b);
    EncodeLetters(b);
    assert Replace(Replace(e, HYPHEN, PLUS), UNDERSCORE, SLASH) == core;
    AtobOfPadded(core);
    LettersRoundTrip(b);
  }

  lemma Injective(a: seq<Byte>, b: seq<Byte>)
    ensures B64Encode(a) == B64Encode(b) ==> a == b
  {
    RoundTrip(a);
    RoundTrip(b);
  }

  /** The encoder writes only unreserved URL characters: no '.', '=', LF or space. */
  lemma EncodeAlphabet(b: seq<Byte>)
    ensures forall i | 0 <= i < |B64Encode(b)| ::
      var u := B64Encode(b)[i];
      65 <= u <= 90 || 97 <= u <= 122 || 48 <= u <= 57 || u == HYPHEN || u == UNDERSCORE
    ensures b != [] ==> B64Encode(b) != []
  {
    EncodeLetters(b);
  }

  // ---- The alphabet ----

  /** Value of a letter of the URL-safe alphabet, table 2 of RFC 4648; -1 for any other unit. */
  function UrlValue(u: int): int {
    if 65 <= u <= 90 then u - 65
    else if 97 <= u <= 122 then u - 97 + 26
    else if 48 <= u <= 57 then u - 48 + 52
    else if u == 45 then 62 else if u == 95 then 63 else -1
  }

  predicate AllLetters(s: seq<int>) { forall i | 0 <= i < |s| :: UrlValue(s[i]) >= 0 }

  /** Three bytes as four letters, most significant bits first; one or two last bytes with zero bits appended. */
  predicate Spells(s: seq<int>, b: seq<int>)
    decreases |b|
  {
    if b == [] then s == []
    else if |b| == 1 then |s| == 2 && AllLetters(s) && UrlValue(s[0]) * 64 + UrlValue(s[1]) == b[0] * 16
    else if |b| == 2 then
      && |s| == 3 && AllLetters(s)
      && UrlValue(s[0]) * 4096 + UrlValue(s[1]) * 64 + UrlValue(s[2]) == (b[0] * 256 + b[1]) * 4
    else
      && |s| >= 4 && AllLetters(s[..4])
      && UrlValue(s[0]) * 262144 + UrlValue(s[1]) * 4096 + UrlValue(s[2]) * 64 + UrlValue(s[3])
         == b[0] * 65536 + b[1] * 256 + b[2]
      && Spells(s[4..], b[3..])
  }

  function UrlLetters(b: seq<Byte>): seq<Unit> { Replace(Replace(Letters(b), PLUS, HYPHEN), SLASH, UNDERSCORE) }

  lemma UrlLetter(v: int)
    requires 0 <= v < 64
    ensures var u := Letter(v); UrlValue(if u == PLUS then HYPHEN else if u == SLASH then UNDERSCORE else u) == v
  {
  }

  lemma UrlLettersHead(x: Byte, y: Byte, z: Byte, rest: seq<Byte>)
    ensures var s := UrlLetters([x, y, z] + rest);
      && |s| >= 4 && s[4..] == UrlLetters(rest)
      && UrlValue(s[0]) == x / 4 && UrlValue(s[1]) == x % 4 * 16 + y / 16
      && UrlValue(s[2]) == y % 16 * 4 + z / 64 && UrlValue(s[3]) == z % 64
  {
    var b := [x, y, z] + rest;
    assert b[3..] == rest;
    UrlLetter(x / 4);
    UrlLetter(x % 4 * 16 + y / 16);
    UrlLetter(y % 16 * 4 + z / 64);
    UrlLetter(z % 64);
  }

  lemma {:induction false} LettersSpell(b: seq<Byte>)
    ensures Spells(UrlLetters(b), b)
    decreases |b|
  {
    if |b| == 1 {
      UrlLetter(b[0] / 4);
      UrlLetter(b[0] % 4 * 16);
    } else if |b| == 2 {
      UrlLetter(b[0] / 4);
      UrlLetter(b[0] % 4 * 16 + b[1] / 16);
      UrlLetter(b[1] % 16 * 4);
    } else if |b| >= 3 {
      assert b == [b[0], b[1], b[2]] + b[3..];
      UrlLettersHead(b[0], b[1], b[2], b[3..]);
      LettersSpell(b[3..]);
    }
  }

  /** The text is the base64url spelling of the bytes, without padding. */
  lemma EncodeSpells(b: seq<Byte>)
    ensures Spells(B64Encode(b), b)
  {
    EncodeLetters(b);
    LettersSpell(b);
  }
}
