/** What holds over every run of pushes and pulls (src/routes/oci-registry.ts:353-457, 476-734). */
module RegistryResults {
  import opened Wrappers
  import opened Hashing
  import opened Sequences
  import opened Uploads
  import opened Registry
  import opened RegistryInvariant

  // ---- All runs ----

  lemma {:induction false} ReachableInv(h: Hashes, max: nat, events: seq<Event>)
    ensures Inv(h, max, Exec(h, max, Empty(), events))
  {
    if events != [] {
      ReachableInv(h, max, events[..|events| - 1]);
      NextKeeps(h, max, Exec(h, max, Empty(), events[..|events| - 1]), events[|events| - 1]);
    }
  }

  /**
   Every 200 pull returns bytes that hash to the requested digest and that somebody pushed
   into that very repository under that kind; a pull by tag returns the body of the last
   tag write that had completed when the tag was read.
   */
  lemma PullsReturnPushedBytes(h: Hashes, max: nat, events: seq<Event>, s: Served)
    requires CollisionFree(h) && s in Exec(h, max, Empty(), events).served
    ensures var g := Exec(h, max, Empty(), events);
      && Matches(h, s.digest, s.bytes) && Pushed(s.repo, s.kind, s.bytes) in g.pushed
      && (s.tag.Some? ==> s.tagTime <= |g.tagWrites|
                          && LastTagBody(g.tagWrites[..s.tagTime], s.repo, s.tag.value) == Some(s.bytes))
  {
    var g := Exec(h, max, Empty(), events);
    ReachableInv(h, max, events);
    assert ServedOk(h, g, s);
    var p :| p in g.pushed && p.repo == s.repo && p.kind == s.kind && Matches(h, s.digest, p.bytes);
    OneContent(h, s.digest, s.bytes, p.bytes);
    if s.tag.Some? {
      OneContent(h, s.digest, s.bytes, LastTagBody(g.tagWrites[..s.tagTime], s.repo, s.tag.value).value);
    }
  }

  /** Membership is never recorded before the blob is stored, so a pull past the gate always finds its bytes. */
  lemma GatedPullSucceeds(h: Hashes, max: nat, events: seq<Event>, req: nat)
    requires var g := Exec(h, max, Empty(), events); req in g.reqs && g.reqs[req].Pulling? && g.reqs[req].member
    ensures var g := Exec(h, max, Empty(), events);
      && (forall m | m in g.members :: m.digest in g.blobs)
      && |Next(h, max, g, PullStep(req)).served| == |g.served| + 1
  {
    ReachableInv(h, max, events);
    var g := Exec(h, max, Empty(), events);
    assert ReqOk(h, g, g.reqs[req]);
  }

  /** A push confined to one repository never opens another repository's gate. */
  lemma GateNeedsOwnPush(h: Hashes, max: nat, events: seq<Event>, repo: string, digest: Digest, kind: Kind)
    requires Member(repo, digest, kind) in Exec(h, max, Empty(), events).members
    ensures WasPushed(h, Exec(h, max, Empty(), events).pushed, repo, kind, digest)
  {
    ReachableInv(h, max, events);
  }

  /**
   A finalize answered 201 stored exactly the seed, chunks and trailing body appended up
   to its snapshot, in order, under a key those bytes hash to.
   */
  lemma FinalizeStoresConcatenation(h: Hashes, max: nat, events: seq<Event>, f: Finalized)
    requires CollisionFree(h) && f in Exec(h, max, Empty(), events).finalized
    ensures var g := Exec(h, max, Empty(), events);
      && f.uuid in g.sessions && f.snapshot <= |g.sessions[f.uuid].chunks|
      && f.digest in g.blobs && Matches(h, f.digest, g.blobs[f.digest])
      && g.blobs[f.digest] == Flatten(g.sessions[f.uuid].chunks[..f.snapshot])
  {
    var g := Exec(h, max, Empty(), events);
    ReachableInv(h, max, events);
    assert FinalizedOk(h, g, f);
    OneContent(h, f.digest, f.bytes, g.blobs[f.digest]);
  }

  /** In every reachable state each session's size is the sum of its chunks and within the cap. */
  lemma SessionsStayMeasured(h: Hashes, max: nat, events: seq<Event>, uuid: nat)
    requires uuid in Exec(h, max, Empty(), events).sessions
    ensures var s := Exec(h, max, Empty(), events).sessions[uuid];
            s.size == |Flatten(s.chunks)| && s.size <= max
  {
    ReachableInv(h, max, events);
    FlattenLength(Exec(h, max, Empty(), events).sessions[uuid].chunks);
  }

  lemma ChunkInFlatten(chunks: seq<Bytes>, n: nat, j: nat)
    requires j < n <= |chunks|
    ensures Flatten(chunks[..n]) == Flatten(chunks[..j]) + (chunks[j] + Flatten(chunks[j + 1..n]))
  {
    assert chunks[..n] == chunks[..j] + chunks[j..n];
    FlattenAppend(chunks[..j], chunks[j..n]);
    assert chunks[j..n][0] == chunks[j] && chunks[j..n][1..] == chunks[j + 1..n];
  }

  /** The first `n` chunks with `x` in place of chunk `j`. */
  function WithChunk(chunks: seq<Bytes>, n: nat, j: nat, x: Bytes): Bytes
    requires j < |chunks| && n <= |chunks|
  {
    Flatten(chunks[j := x][..n])
  }

  lemma ReplacedChunk(chunks: seq<Bytes>, n: nat, j: nat, x: Bytes)
    requires j < |chunks| && n <= |chunks|
    ensures j >= n ==> WithChunk(chunks, n, j, x) == Flatten(chunks[..n])
    ensures j < n && |x| != |chunks[j]| ==> WithChunk(chunks, n, j, x) != Flatten(chunks[..n])
  {
    if j < n {
      ChunkInFlatten(chunks, n, j);
      ChunkInFlatten(chunks[j := x], n, j);
      assert chunks[j := x][..j] == chunks[..j] && chunks[j := x][j + 1..n] == chunks[j + 1..n];
      var front, back := Flatten(chunks[..j]), Flatten(chunks[j + 1..n]);
      assert |front + (x + back)| != |front + (chunks[j] + back)| <== |x| != |chunks[j]|;
    } else {
      assert chunks[j := x][..n] == chunks[..n];
    }
  }

  lemma ChunkMattersExactly(chunks: seq<Bytes>, n: nat, j: nat)
    requires j < |chunks| && n <= |chunks|
    ensures j < n <==> exists x: Bytes :: WithChunk(chunks, n, j, x) != Flatten(chunks[..n])
  {
    if j < n {
      ReplacedChunk(chunks, n, j, chunks[j] + [0]);
    } else {
      forall x: Bytes ensures WithChunk(chunks, n, j, x) == Flatten(chunks[..n]) { ReplacedChunk(chunks, n, j, x); }
    }
  }

  /**
   A chunk of a session is in the blob its finalize stored exactly when its index is below
   the snapshot: then it stands in its place, and otherwise other bytes in its place
   would have given the same blob.
   */
  lemma ChunkStoredExactly(h: Hashes, max: nat, events: seq<Event>, f: Finalized, j: nat)
    requires var g := Exec(h, max, Empty(), events);
      CollisionFree(h) && f in g.finalized && f.uuid in g.sessions && j < |g.sessions[f.uuid].chunks|
    ensures var g := Exec(h, max, Empty(), events);
      var chunks, n := g.sessions[f.uuid].chunks, f.snapshot;
      && n <= |chunks| && f.digest in g.blobs
      && (j < n ==> g.blobs[f.digest] == Flatten(chunks[..j]) + (chunks[j] + Flatten(chunks[j + 1..n])))
      && (j < n <==> exists x: Bytes :: WithChunk(chunks, n, j, x) != g.blobs[f.digest])
  {
    var g := Exec(h, max, Empty(), events);
    FinalizeStoresConcatenation(h, max, events, f);
    var chunks, n := g.sessions[f.uuid].chunks, f.snapshot;
    ChunkMattersExactly(chunks, n, j);
    if j < n { ChunkInFlatten(chunks, n, j); }
  }

  /** So a patch that arrives after the snapshot is accepted into the session and left out of the blob. */
  lemma LatePatchIsAcceptedButNotStored(h: Hashes, max: nat, events: seq<Event>, req: nat, chunk: Bytes, f: Finalized)
    requires var g := Exec(h, max, Empty(), events);
      && f in g.finalized && req in g.reqs && g.reqs[req] == Patching(f.uuid)
      && f.uuid in g.sessions && chunk != [] && g.sessions[f.uuid].size + |chunk| <= max
    ensures var g := Exec(h, max, Empty(), events);
      var g' := Next(h, max, g, PatchBody(req, chunk));
      && g'.sessions[f.uuid].chunks == g.sessions[f.uuid].chunks + [chunk]
      && g'.blobs == g.blobs && f.snapshot <= |g.sessions[f.uuid].chunks|
  {
    ReachableInv(h, max, events);
    assert FinalizedOk(h, Exec(h, max, Empty(), events), f);
  }
}
