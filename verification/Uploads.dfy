/**
 Upload sessions and the synchronous pieces of the push handlers
 (src/routes/oci-registry.ts:185-192, 548-649, 955-1037).
 */
module Uploads {
  import opened Wrappers
  import opened Hashing
  import opened Sequences

  function SumLengths(chunks: seq<Bytes>): nat {
    if chunks == [] then 0 else |chunks[0]| + SumLengths(chunks[1..])
  }

  lemma {:induction false} FlattenLength(chunks: seq<Bytes>)
    ensures |Flatten(chunks)| == SumLengths(chunks)
  {
    if chunks != [] { FlattenLength(chunks[1..]); }
  }

  lemma {:induction false} SumSnoc(chunks: seq<Bytes>, c: Bytes)
    ensures SumLengths(chunks + [c]) == SumLengths(chunks) + |c|
  {
    if chunks == [] {
      assert chunks + [c] == [c];
      assert SumLengths([c]) == |c| + SumLengths([c][1..]);
    } else {
      assert (chunks + [c])[1..] == chunks[1..] + [c];
      SumSnoc(chunks[1..], c);
    }
  }

  /** Fills a buffer of the announced size chunk by chunk; every write is in range and none is left unwritten. */
  method ConcatChunks(chunks: seq<Bytes>, size: nat) returns (out: array<int>)
    requires size == SumLengths(chunks)
    ensures fresh(out) && out[..] == Flatten(chunks)
  {
    out := new int[size];
    var off := 0;
    FlattenLength(chunks);
    assert chunks[..0] == [];
    for i := 0 to |chunks|
      invariant off == |Flatten(chunks[..i])| && off + SumLengths(chunks[i..]) == size
      invariant out[..off] == Flatten(chunks[..i])
    {
      var c := chunks[i];
      assert chunks[i..][1..] == chunks[i + 1..];
      assert chunks[..i + 1] == chunks[..i] + [c];
      FlattenSnoc(chunks[..i], c);
      ghost var done := out[..off];
      for j := 0 to |c|
        invariant out[..off] == done && out[off..off + j] == c[..j]
      {
        out[off + j] := c[j];
        assert out[off..off + j + 1] == out[off..off + j] + [c[j]];
      }
      assert out[..off + |c|] == out[..off] + out[off..off + |c|];
      off := off + |c|;
    }
    assert chunks[..|chunks|] == chunks && chunks[|chunks|..] == [];
  }

  // ---- Digest claims ----

  predicate IsHexDigit(c: char) { '0' <= c <= '9' || 'a' <= c <= 'f' }

  predicate IsDigest(s: string) { |s| == 64 && forall i | 0 <= i < |s| :: IsHexDigit(s[i]) }

  const SHA256_PREFIX := "sha256:"

  function ParseSha256Param(value: string): Option<Digest> {
    if SHA256_PREFIX <= value && IsDigest(value[|SHA256_PREFIX|..]) then Some(value[|SHA256_PREFIX|..]) else None
  }

  /** SHA-256 first, BLAKE3 second; the key is the claimed hex either way. */
  function VerifyClaimedDigest(h: Hashes, body: Bytes, claimed: string): Option<Digest> {
    match ParseSha256Param(claimed)
    case None => None
    case Some(hex) => if h.sha(body) == hex then Some(hex) else if h.blake(body) == hex then Some(hex) else None
  }

  /** A claim is accepted exactly when it is well formed and one of the body's two hashes. */
  lemma ClaimAcceptedExactly(h: Hashes, body: Bytes, claimed: string, key: Digest)
    ensures VerifyClaimedDigest(h, body, claimed) == Some(key)
            <==> claimed == SHA256_PREFIX + key && IsDigest(key) && Matches(h, key, body)
  {
    if claimed == SHA256_PREFIX + key {
      assert claimed[|SHA256_PREFIX|..] == key;
    }
    if SHA256_PREFIX <= claimed {
      assert claimed == SHA256_PREFIX + claimed[|SHA256_PREFIX|..];
    }
  }

  // ---- One session ----

  datatype Session = Session(name: string, chunks: seq<Bytes>, size: nat)

  ghost predicate Measured(s: Session, maxBlobBytes: nat) {
    s.size == SumLengths(s.chunks) && s.size <= maxBlobBytes
  }

  function Opened(name: string, seed: Bytes): Session {
    Session(name, if |seed| > 0 then [seed] else [], |seed|)
  }

  /** None when the cumulative size check refuses the body. */
  function Extended(s: Session, body: Bytes, maxBlobBytes: nat): Option<Session> {
    if s.size + |body| > maxBlobBytes then None
    else if |body| > 0 then Some(s.(chunks := s.chunks + [body], size := s.size + |body|))
    else Some(s)
  }

  lemma OpenedMeasured(name: string, seed: Bytes, maxBlobBytes: nat)
    requires |seed| <= maxBlobBytes
    ensures Measured(Opened(name, seed), maxBlobBytes) && Flatten(Opened(name, seed).chunks) == seed
  {
    if |seed| > 0 {
      assert [seed][1..] == [];
      assert SumLengths([seed]) == |seed| && Flatten([seed]) == seed + Flatten([]);
    }
  }

  /** An accepted body is appended whole, an over-size one changes nothing, and the size stays exact and capped. */
  lemma ExtendedKeeps(s: Session, body: Bytes, maxBlobBytes: nat)
    requires Measured(s, maxBlobBytes)
    ensures Extended(s, body, maxBlobBytes).Some? <==> SumLengths(s.chunks) + |body| <= maxBlobBytes
    ensures Extended(s, body, maxBlobBytes).Some? ==>
      var t := Extended(s, body, maxBlobBytes).value;
      && Measured(t, maxBlobBytes) && t.name == s.name
      && s.chunks <= t.chunks && Flatten(t.chunks) == Flatten(s.chunks) + body
  {
    SumSnoc(s.chunks, body);
    FlattenSnoc(s.chunks, body);
  }

  /** A finalize between reading its body and storing the blob: the session afterwards, and the blob unless refused. */
  function Finalize(h: Hashes, s: Session, trailing: Bytes, claimed: string, maxBlobBytes: nat)
    : (Session, Option<(Bytes, Digest)>)
  {
    var t := Extended(s, trailing, maxBlobBytes);
    if t.None? then (s, None)
    else
      var body := Flatten(t.value.chunks);
      var key := VerifyClaimedDigest(h, body, claimed);
      (t.value, if key.None? then None else Some((body, key.value)))
  }

  /**
   A finalize succeeds exactly when the body fits and the claim is one of the two hashes
   of everything appended, and then stores exactly that. A refusal for size changes
   nothing; a refusal of the claim leaves the body appended.
   */
  lemma FinalizeExactly(h: Hashes, s: Session, trailing: Bytes, claimed: string, maxBlobBytes: nat)
    requires Measured(s, maxBlobBytes)
    ensures var full, (t, r) := Flatten(s.chunks) + trailing, Finalize(h, s, trailing, claimed, maxBlobBytes);
      var fits := s.size + |trailing| <= maxBlobBytes;
      && Measured(t, maxBlobBytes) && Flatten(t.chunks) == (if fits then full else Flatten(s.chunks))
      && (!fits ==> t == s)
      && (r.Some? <==> fits && exists key :: claimed == SHA256_PREFIX + key && IsDigest(key) && Matches(h, key, full))
      && (r.Some? ==> r.value.0 == full && claimed == SHA256_PREFIX + r.value.1 && Matches(h, r.value.1, full))
  {
    ExtendedKeeps(s, trailing, maxBlobBytes);
    var full := Flatten(s.chunks) + trailing;
    var key := VerifyClaimedDigest(h, full, claimed);
    if key.Some? { ClaimAcceptedExactly(h, full, claimed, key.value); }
    if k :| claimed == SHA256_PREFIX + k && IsDigest(k) && Matches(h, k, full) { ClaimAcceptedExactly(h, full, claimed, k); }
  }

  /** The session object that handlers share by reference. */
  class UploadSession {
    const name: string
    var chunks: seq<Bytes>
    var size: nat

    function View(): Session reads this { Session(name, chunks, size) }

    constructor (name: string, seed: Bytes)
      ensures View() == Opened(name, seed)
    {
      this.name := name;
      chunks := if |seed| > 0 then [seed] else [];
      size := |seed|;
    }

    method Append(body: Bytes, maxBlobBytes: nat) returns (ok: bool)
      modifies this
      ensures ok <==> Extended(old(View()), body, maxBlobBytes).Some?
      ensures View() == if ok then Extended(old(View()), body, maxBlobBytes).value else old(View())
    {
      if size + |body| > maxBlobBytes { return false; }
      if |body| > 0 {
        chunks := chunks + [body];
        size := size + |body|;
      }
      ok := true;
    }

    /** The part of a finalize between reading its body and storing the blob. */
    method Seal(h: Hashes, trailing: Bytes, claimed: string, maxBlobBytes: nat)
      returns (r: Option<(Bytes, Digest)>)
      requires Measured(View(), maxBlobBytes)
      modifies this
      ensures (View(), r) == Finalize(h, old(View()), trailing, claimed, maxBlobBytes)
      ensures Measured(View(), maxBlobBytes)
    {
      ExtendedKeeps(View(), trailing, maxBlobBytes);
      var ok := Append(trailing, maxBlobBytes);
      if !ok { return None; }
      var full := ConcatChunks(chunks, size);
      var body := full[..];
      var key := VerifyClaimedDigest(h, body, claimed);
      if key.None? { return None; }
      r := Some((body, key.value));
    }
  }

  /**
   After a refused claim over body `first`, a retry claiming the digest of the session's
   bytes followed by `meant` is accepted exactly when the two bodies sent, one after the
   other, are `meant` and still fit.
   */
  lemma RetryCountsBothBodies(h: Hashes, s: Session, first: Bytes, wrong: string, second: Bytes,
                              meant: Bytes, key: Digest, maxBlobBytes: nat)
    requires CollisionFree(h) && Measured(s, maxBlobBytes) && s.size + |first| <= maxBlobBytes
    requires Finalize(h, s, first, wrong, maxBlobBytes).1.None?
    requires IsDigest(key) && Matches(h, key, Flatten(s.chunks) + meant)
    ensures var after := Finalize(h, s, first, wrong, maxBlobBytes).0;
      Finalize(h, after, second, SHA256_PREFIX + key, maxBlobBytes).1.Some?
      <==> first + second == meant && s.size + |first| + |second| <= maxBlobBytes
  {
    var after := Finalize(h, s, first, wrong, maxBlobBytes).0;
    FinalizeExactly(h, s, first, wrong, maxBlobBytes);
    FinalizeExactly(h, after, second, SHA256_PREFIX + key, maxBlobBytes);
    var base := Flatten(s.chunks);
    Regroup(base, first, second);
    FlattenLength(s.chunks);
    FlattenLength(after.chunks);
    SamePrefix(base, first + second, meant);
    var verdict := Finalize(h, after, second, SHA256_PREFIX + key, maxBlobBytes).1;
    if verdict.Some? {
      SamePrefix(SHA256_PREFIX, key, verdict.value.1);
      OneContent(h, key, base + meant, base + (first + second));
    }
  }

  /** So correcting a wrong claim works exactly with an empty body; sending the same body again is refused. */
  lemma RetrySucceedsExactlyWhenEmpty(h: Hashes, s: Session, body: Bytes, wrong: string, second: Bytes,
                                      key: Digest, maxBlobBytes: nat)
    requires CollisionFree(h) && Measured(s, maxBlobBytes) && s.size + |body| <= maxBlobBytes
    requires Finalize(h, s, body, wrong, maxBlobBytes).1.None?
    requires IsDigest(key) && Matches(h, key, Flatten(s.chunks) + body)
    ensures var after := Finalize(h, s, body, wrong, maxBlobBytes).0;
      Finalize(h, after, second, SHA256_PREFIX + key, maxBlobBytes).1.Some? <==> second == []
  {
    RetryCountsBothBodies(h, s, body, wrong, second, body, key, maxBlobBytes);
    assert body + second == body <==> second == [] by { assert |body + second| == |body| + |second|; }
  }
}
