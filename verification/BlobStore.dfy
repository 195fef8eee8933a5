/**
 The content-addressed blob store (src/blob-store.ts:103-131, src/storage/workerd.ts:91-199):
 small blobs in one row, larger ones in one-mebibyte rows rejoined on read.
 */
module BlobStore {
  import opened Wrappers
  import opened Hashing
  import opened Sequences
  import opened Uploads

  const BLOB_CHUNK_SIZE: nat := 1048576

  /** Row `n` of a chunked blob. */
  function ChunkAt(bytes: Bytes, n: nat): Bytes
    requires n * BLOB_CHUNK_SIZE < |bytes|
  {
    var end := (n + 1) * BLOB_CHUNK_SIZE;
    bytes[n * BLOB_CHUNK_SIZE..if end < |bytes| then end else |bytes|]
  }

  /** Rows 0 to `count` of a chunked blob, keyed as in the table. */
  function RowsUpTo(d: Digest, bytes: Bytes, count: nat): map<(Digest, nat), Bytes>
    requires count == 0 || (count - 1) * BLOB_CHUNK_SIZE < |bytes|
  {
    if count == 0 then map[] else RowsUpTo(d, bytes, count - 1)[(d, count - 1) := ChunkAt(bytes, count - 1)]
  }

  function RowCount(bytes: Bytes): (count: nat)
    ensures count * BLOB_CHUNK_SIZE >= |bytes|
    ensures count == 0 || (count - 1) * BLOB_CHUNK_SIZE < |bytes|
  {
    (|bytes| + BLOB_CHUNK_SIZE - 1) / BLOB_CHUNK_SIZE
  }

  /** The single-row table after `INSERT OR IGNORE`. */
  function WithRow(blobs: map<Digest, Bytes>, d: Digest, bytes: Bytes): map<Digest, Bytes> {
    map[d := bytes] + blobs
  }

  /** The chunk table after `INSERT OR IGNORE` of every row. */
  function WithChunks(chunks: map<(Digest, nat), Bytes>, d: Digest, bytes: Bytes): map<(Digest, nat), Bytes> {
    RowsUpTo(d, bytes, RowCount(bytes)) + chunks
  }

  lemma {:induction false} RowsUpToMembers(d: Digest, bytes: Bytes, count: nat, e: Digest, n: nat)
    requires count == 0 || (count - 1) * BLOB_CHUNK_SIZE < |bytes|
    ensures var rows := RowsUpTo(d, bytes, count);
      ((e, n) in rows <==> e == d && n < count) && ((e, n) in rows ==> rows[(e, n)] == ChunkAt(bytes, n))
  {
    if count > 0 { RowsUpToMembers(d, bytes, count - 1, e, n); }
  }

  lemma OneMoreRow(chunks: map<(Digest, nat), Bytes>, d: Digest, bytes: Bytes, k: nat)
    requires k * BLOB_CHUNK_SIZE < |bytes| && (k == 0 || (k - 1) * BLOB_CHUNK_SIZE < |bytes|)
    ensures var m := RowsUpTo(d, bytes, k) + chunks;
      RowsUpTo(d, bytes, k + 1) + chunks == if (d, k) in m then m else m[(d, k) := ChunkAt(bytes, k)]
  {
    var rows := RowsUpTo(d, bytes, k);
    RowsUpToMembers(d, bytes, k, d, k);
    assert RowsUpTo(d, bytes, k + 1) == rows[(d, k) := ChunkAt(bytes, k)];
  }

  ghost predicate SmallRows(blobs: map<Digest, Bytes>, contents: map<Digest, Bytes>) {
    forall d :: (d in blobs <==> d in contents && |contents[d]| <= BLOB_CHUNK_SIZE)
                && (d in blobs ==> blobs[d] == contents[d])
  }

  ghost predicate ChunkRows(chunks: map<(Digest, nat), Bytes>, contents: map<Digest, Bytes>) {
    forall d, n: nat {:trigger (d, n) in chunks} ::
      ((d, n) in chunks <==> d in contents && |contents[d]| > BLOB_CHUNK_SIZE && n * BLOB_CHUNK_SIZE < |contents[d]|)
      && ((d, n) in chunks ==> chunks[(d, n)] == ChunkAt(contents[d], n))
  }

  lemma WithRowKeeps(blobs: map<Digest, Bytes>, chunks: map<(Digest, nat), Bytes>, contents: map<Digest, Bytes>,
                     d: Digest, bytes: Bytes)
    requires SmallRows(blobs, contents) && ChunkRows(chunks, contents)
    requires |bytes| <= BLOB_CHUNK_SIZE && Agrees(contents, d, bytes)
    ensures SmallRows(WithRow(blobs, d, bytes), contents[d := bytes]) && ChunkRows(chunks, contents[d := bytes])
  {
  }

  lemma WithChunksKeeps(chunks: map<(Digest, nat), Bytes>, contents: map<Digest, Bytes>, d: Digest, bytes: Bytes)
    requires ChunkRows(chunks, contents) && |bytes| > BLOB_CHUNK_SIZE && Agrees(contents, d, bytes)
    ensures ChunkRows(WithChunks(chunks, d, bytes), contents[d := bytes])
  {
    var all, after := WithChunks(chunks, d, bytes), contents[d := bytes];
    forall e, n: nat {:trigger (e, n) in all}
      ensures (e, n) in all <==> e in after && |after[e]| > BLOB_CHUNK_SIZE && n * BLOB_CHUNK_SIZE < |after[e]|
      ensures (e, n) in all ==> all[(e, n)] == ChunkAt(after[e], n)
    {
      RowsUpToMembers(d, bytes, RowCount(bytes), e, n);
      assert n < RowCount(bytes) <==> n * BLOB_CHUNK_SIZE < |bytes|;
      assert (e, n) in all <==> (e, n) in chunks || (e, n) in RowsUpTo(d, bytes, RowCount(bytes));
    }
  }

  /** Nothing else is stored under the key. */
  ghost predicate Agrees(contents: map<Digest, Bytes>, d: Digest, bytes: Bytes) {
    d in contents ==> contents[d] == bytes
  }

  /** Without collisions a key that matches the bytes never holds other bytes. */
  lemma NoCollisionAgrees(h: Hashes, contents: map<Digest, Bytes>, d: Digest, bytes: Bytes)
    requires CollisionFree(h) && Matches(h, d, bytes) && forall k | k in contents :: Matches(h, k, contents[k])
    ensures Agrees(contents, d, bytes)
  {
    if d in contents { OneContent(h, d, bytes, contents[d]); }
  }

  class BlobStore {
    const h: Hashes
    var blobs: map<Digest, Bytes>
    var chunks: map<(Digest, nat), Bytes>
    /** What the two tables amount to. */
    ghost var contents: map<Digest, Bytes>

    ghost predicate Valid() reads this {
      SmallRows(blobs, contents) && ChunkRows(chunks, contents) && forall d | d in contents :: Matches(h, d, contents[d])
    }

    constructor (h: Hashes)
      ensures this.h == h && Valid() && contents == map[]
    {
      this.h := h;
      blobs, chunks, contents := map[], map[], map[];
    }

    /**
     Stores under the SHA-256 digest, or under a caller's key that either hash proves;
     None is the thrown mismatch. Rows that are there stay as they are, so storing again
     is a no-op, and the bytes can be read back unless the key already held other bytes.
     */
    method Put(bytes: Bytes, key: Option<Digest>) returns (d: Option<Digest>)
      requires Valid()
      modifies this
      ensures d == (if key.None? then Some(h.sha(bytes)) else if Matches(h, key.value, bytes) then key else None)
      ensures d.None? ==> blobs == old(blobs) && chunks == old(chunks) && contents == old(contents) && Valid()
      ensures d.Some? && |bytes| <= BLOB_CHUNK_SIZE ==>
                blobs == WithRow(old(blobs), d.value, bytes) && chunks == old(chunks)
      ensures d.Some? && |bytes| > BLOB_CHUNK_SIZE ==>
                blobs == old(blobs) && chunks == WithChunks(old(chunks), d.value, bytes)
      ensures d.Some? && Agrees(old(contents), d.value, bytes) ==> Valid() && contents == old(contents)[d.value := bytes]
    {
      if key.None? {
        d := Some(h.sha(bytes));
      } else if h.sha(bytes) == key.value {
        d := key;
      } else if h.blake(bytes) == key.value {
        d := key;
      } else {
        return None;
      }
      if |bytes| <= BLOB_CHUNK_SIZE {
        PutRow(d.value, bytes);
      } else {
        PutChunks(d.value, bytes);
      }
    }

    /** `INSERT OR IGNORE` into the single-row table. */
    method PutRow(d: Digest, bytes: Bytes)
      requires Valid() && |bytes| <= BLOB_CHUNK_SIZE && Matches(h, d, bytes)
      modifies this
      ensures blobs == WithRow(old(blobs), d, bytes) && chunks == old(chunks)
      ensures Agrees(old(contents), d, bytes) ==> Valid() && contents == old(contents)[d := bytes]
    {
      if Agrees(contents, d, bytes) { WithRowKeeps(blobs, chunks, contents, d, bytes); }
      if d !in blobs { blobs := blobs[d := bytes]; }
      contents := contents[d := bytes];
    }

    method PutChunks(d: Digest, bytes: Bytes)
      requires Valid() && |bytes| > BLOB_CHUNK_SIZE && Matches(h, d, bytes)
      modifies this
      ensures blobs == old(blobs) && chunks == WithChunks(old(chunks), d, bytes)
      ensures Agrees(old(contents), d, bytes) ==> Valid() && contents == old(contents)[d := bytes]
    {
      InsertRows(d, bytes);
      if Agrees(contents, d, bytes) { WithChunksKeeps(old(chunks), contents, d, bytes); }
      contents := contents[d := bytes];
    }

    method InsertRows(d: Digest, bytes: Bytes)
      modifies `chunks
      ensures chunks == WithChunks(old(chunks), d, bytes)
    {
      var seqNo, off := 0, 0;
      while off < |bytes|
        invariant off == seqNo * BLOB_CHUNK_SIZE && (seqNo == 0 || (seqNo - 1) * BLOB_CHUNK_SIZE < |bytes|)
        invariant chunks == RowsUpTo(d, bytes, seqNo) + old(chunks)
        decreases |bytes| - off
      {
        OneMoreRow(old(chunks), d, bytes, seqNo);
        var end := if off + BLOB_CHUNK_SIZE < |bytes| then off + BLOB_CHUNK_SIZE else |bytes|;
        assert bytes[off..end] == ChunkAt(bytes, seqNo);
        if (d, seqNo) !in chunks { chunks := chunks[(d, seqNo) := bytes[off..end]]; }
        seqNo, off := seqNo + 1, off + BLOB_CHUNK_SIZE;
      }
      assert seqNo == RowCount(bytes);
    }

    method Get(digest: Digest) returns (r: Option<Bytes>)
      requires Valid()
      ensures r == if digest in contents then Some(contents[digest]) else None
    {
      if digest in blobs { return Some(blobs[digest]); }
      r := GetChunked(digest);
    }

    method GetChunked(digest: Digest) returns (r: Option<Bytes>)
      requires Valid() && digest !in blobs
      ensures r == if digest in contents then Some(contents[digest]) else None
    {
      var parts: seq<Bytes> := [];
      var total, n := 0, 0;
      while (digest, n) in chunks
        invariant total == SumLengths(parts)
        invariant n == 0 ==> parts == []
        invariant n > 0 ==> digest in contents && parts != []
        invariant digest in contents ==>
          Flatten(parts) == contents[digest][..if n * BLOB_CHUNK_SIZE < |contents[digest]| then n * BLOB_CHUNK_SIZE
                                               else |contents[digest]|]
        decreases if digest in contents then |contents[digest]| - n * BLOB_CHUNK_SIZE else 0
      {
        var part := chunks[(digest, n)];
        FlattenSnoc(parts, part);
        SumSnoc(parts, part);
        parts, total, n := parts + [part], total + |part|, n + 1;
      }
      if |parts| == 0 { return None; }
      var out := ConcatChunks(parts, total);
      assert contents[digest][..|contents[digest]|] == contents[digest];
      r := Some(out[..]);
    }

    method Has(digest: Digest) returns (found: bool)
      requires Valid()
      ensures found <==> digest in contents
    {
      found := digest in blobs || (digest, 0) in chunks;
    }
  }
}
