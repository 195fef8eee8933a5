/** The two content hashes of the blob substrate, as unspecified functions from bytes to hex digests. */
module Hashing {
  type Bytes = seq<int>
  type Digest = string

  datatype Hashes = Hashes(sha: Bytes -> Digest, blake: Bytes -> Digest)

  /** A key is right for its bytes when either hash produces it. */
  predicate Matches(h: Hashes, key: Digest, bytes: Bytes) {
    h.sha(bytes) == key || h.blake(bytes) == key
  }

  /** No two byte strings share a digest, within or across the two functions. */
  ghost predicate CollisionFree(h: Hashes) {
    && (forall x, y :: h.sha(x) == h.sha(y) ==> x == y)
    && (forall x, y :: h.blake(x) == h.blake(y) ==> x == y)
    && (forall x, y :: h.sha(x) == h.blake(y) ==> x == y)
  }

  /** `INSERT OR IGNORE` under the digest. */
  function PutBlob(blobs: map<Digest, Bytes>, key: Digest, bytes: Bytes): map<Digest, Bytes> {
    if key in blobs then blobs else blobs[key := bytes]
  }

  /** Under collision freedom a digest names one byte string. */
  lemma OneContent(h: Hashes, key: Digest, x: Bytes, y: Bytes)
    requires CollisionFree(h) && Matches(h, key, x) && Matches(h, key, y)
    ensures x == y
  {
  }
}
