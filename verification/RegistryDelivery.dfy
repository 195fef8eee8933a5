/**
 What an undisturbed push or pull gets, and that nothing later takes it back
 (src/routes/oci-registry.ts:353-457, 476-734).
 */
module RegistryDelivery {
  import opened Wrappers
  import opened Hashing
  import opened Sequences
  import opened Uploads
  import opened Registry
  import opened RegistryInvariant
  import opened RegistryResults

  // ---- Runs of several events ----

  lemma {:induction false} ExecAppend(h: Hashes, max: nat, g: Reg, a: seq<Event>, b: seq<Event>)
    ensures Exec(h, max, g, a + b) == Exec(h, max, Exec(h, max, g, a), b)
    decreases |b|
  {
    if b == [] {
      assert a + b == a;
    } else {
      ExecAppend(h, max, g, a, b[..|b| - 1]);
      assert (a + b)[..|a + b| - 1] == a + b[..|b| - 1];
    }
  }

  lemma ExecTwo(h: Hashes, max: nat, g: Reg, e1: Event, e2: Event)
    ensures Exec(h, max, g, [e1, e2]) == Next(h, max, Next(h, max, g, e1), e2)
  {
    assert [e1, e2][..1] == [e1] && [e1][..0] == [];
    assert Exec(h, max, g, []) == g;
    assert Exec(h, max, g, [e1]) == Next(h, max, g, e1);
  }

  lemma ExecThree(h: Hashes, max: nat, g: Reg, e1: Event, e2: Event, e3: Event)
    ensures Exec(h, max, g, [e1, e2, e3]) == Next(h, max, Next(h, max, Next(h, max, g, e1), e2), e3)
  {
    assert [e1, e2, e3][..2] == [e1, e2];
    ExecTwo(h, max, g, e1, e2);
  }

  lemma ExecFour(h: Hashes, max: nat, g: Reg, e1: Event, e2: Event, e3: Event, e4: Event)
    ensures Exec(h, max, g, [e1, e2, e3, e4])
            == Next(h, max, Next(h, max, Next(h, max, Next(h, max, g, e1), e2), e3), e4)
  {
    assert [e1, e2, e3, e4][..3] == [e1, e2, e3];
    ExecThree(h, max, g, e1, e2, e3);
  }

  // ---- Pulls ----

  lemma MembersStored(h: Hashes, max: nat, events: seq<Event>)
    ensures forall m | m in Exec(h, max, Empty(), events).members :: m.digest in Exec(h, max, Empty(), events).blobs
  {
    ReachableInv(h, max, events);
  }

  /** What two steps make of an admitted pull. */
  function AfterPull(g: Reg, repo: string, kind: Kind, digest: Digest, tag: Option<string>, time: nat): Reg {
    if Member(repo, digest, kind) in g.members && digest in g.blobs
    then g.(served := g.served + [Served(repo, kind, digest, tag, time, g.blobs[digest])]) else g
  }

  lemma PullRuns(g: Reg, req: nat, repo: string, kind: Kind, digest: Digest, tag: Option<string>, time: nat)
    requires req !in g.reqs && forall m | m in g.members :: m.digest in g.blobs
    ensures NextPullStep(NextPullStep(With(g, req, Pulling(repo, kind, digest, tag, time, false)), req), req)
            == AfterPull(g, repo, kind, digest, tag, time)
  {
    var p := Pulling(repo, kind, digest, tag, time, false);
    assert g.reqs[req := p] - {req} == g.reqs;
    if Member(repo, digest, kind) in g.members {
      assert digest in g.blobs;
      assert g.reqs[req := p][req := p.(member := true)] - {req} == g.reqs;
    }
  }

  function PullEvents(req: nat, repo: string, kind: Kind, digest: Digest): seq<Event> {
    [PullDigest(req, repo, kind, digest), PullStep(req), PullStep(req)]
  }

  /** A pull that goes straight through, in every reachable state, is served exactly when the repository has the digest. */
  lemma UndisturbedPull(h: Hashes, max: nat, events: seq<Event>, req: nat, repo: string, kind: Kind, digest: Digest)
    requires req !in Exec(h, max, Empty(), events).reqs
    ensures var g := Exec(h, max, Empty(), events);
      var after := Exec(h, max, g, PullEvents(req, repo, kind, digest));
      var member := Member(repo, digest, kind) in g.members;
      && (member ==> digest in g.blobs
                     && after == g.(served := g.served + [Served(repo, kind, digest, None, 0, g.blobs[digest])]))
      && (!member ==> after == g)
  {
    var g := Exec(h, max, Empty(), events);
    hide Exec, NextPullStep;
    MembersStored(h, max, events);
    ExecThree(h, max, g, PullDigest(req, repo, kind, digest), PullStep(req), PullStep(req));
    PullRuns(g, req, repo, kind, digest, None, 0);
  }

  lemma TagBody(h: Hashes, max: nat, events: seq<Event>, repo: string, tag: string)
    requires CollisionFree(h)
    ensures var g := Exec(h, max, Empty(), events);
      var body := LastTagBody(g.tagWrites, repo, tag);
      && ((repo, tag) in g.tags <==> body.Some?)
      && (body.Some? ==> && g.tags[(repo, tag)] == h.sha(body.value) && h.sha(body.value) in g.blobs
                         && g.blobs[h.sha(body.value)] == body.value
                         && Member(repo, h.sha(body.value), ManifestKind) in g.members)
  {
    var g := Exec(h, max, Empty(), events);
    ReachableInv(h, max, events);
    var body := LastTagBody(g.tagWrites, repo, tag);
    if body.Some? { OneContent(h, h.sha(body.value), g.blobs[h.sha(body.value)], body.value); }
  }

  function TagPullEvents(req: nat, repo: string, tag: string): seq<Event> {
    [PullTag(req, repo, tag), PullStep(req), PullStep(req)]
  }

  /** A pull by tag that goes straight through is served the body of the tag's last write, or nothing if there is none. */
  lemma UndisturbedTagPull(h: Hashes, max: nat, events: seq<Event>, req: nat, repo: string, tag: string)
    requires CollisionFree(h) && req !in Exec(h, max, Empty(), events).reqs
    ensures var g := Exec(h, max, Empty(), events);
      var after := Exec(h, max, g, TagPullEvents(req, repo, tag));
      match LastTagBody(g.tagWrites, repo, tag)
      case None => after == g
      case Some(body) =>
        after == g.(served := g.served + [Served(repo, ManifestKind, h.sha(body), Some(tag), |g.tagWrites|, body)])
  {
    var g := Exec(h, max, Empty(), events);
    hide Exec, NextPullStep, LastTagBody;
    MembersStored(h, max, events);
    TagBody(h, max, events, repo, tag);
    ExecThree(h, max, g, PullTag(req, repo, tag), PullStep(req), PullStep(req));
    match LastTagBody(g.tagWrites, repo, tag)
    case None => NoPull(g, req);
    case Some(body) => PullRuns(g, req, repo, ManifestKind, h.sha(body), Some(tag), |g.tagWrites|);
  }

  lemma NoPull(g: Reg, req: nat)
    requires req !in g.reqs
    ensures NextPullStep(g, req) == g
  {
  }

  // ---- Bytes a repository has, for good ----

  predicate Has(g: Reg, repo: string, kind: Kind, key: Digest, bytes: Bytes) {
    key in g.blobs && g.blobs[key] == bytes && Member(repo, key, kind) in g.members
  }

  lemma {:induction false} ExecGrew(h: Hashes, max: nat, g: Reg, more: seq<Event>)
    requires Inv(h, max, g)
    ensures Inv(h, max, Exec(h, max, g, more)) && Grew(g, Exec(h, max, g, more))
  {
    if more != [] {
      var mid := Exec(h, max, g, more[..|more| - 1]);
      ExecGrew(h, max, g, more[..|more| - 1]);
      NextKeeps(h, max, mid, more[|more| - 1]);
      GrewTransitive(g, mid, Exec(h, max, g, more));
    }
  }

  /** Whatever runs later, a pull of bytes the repository once had is served those bytes. */
  lemma ServedForever(h: Hashes, max: nat, events: seq<Event>, more: seq<Event>, req: nat,
                      repo: string, kind: Kind, key: Digest, bytes: Bytes)
    requires Has(Exec(h, max, Empty(), events), repo, kind, key, bytes)
    requires req !in Exec(h, max, Empty(), events + more).reqs
    ensures var g := Exec(h, max, Empty(), events + more);
      Exec(h, max, g, PullEvents(req, repo, kind, key)).served == g.served + [Served(repo, kind, key, None, 0, bytes)]
  {
    ReachableInv(h, max, events);
    ExecAppend(h, max, Empty(), events, more);
    ExecGrew(h, max, Exec(h, max, Empty(), events), more);
    UndisturbedPull(h, max, events + more, req, repo, kind, key);
  }

  // ---- Pushes ----

  /** The write pipeline of a verified body, run to its end. */
  lemma WriteRuns(h: Hashes, g: Reg, req: nat, w: Req)
    requires CollisionFree(h) && BlobsMatch(h, g) && req in g.reqs && g.reqs[req] == w
    requires w.Writing? && w.stage.NeedPut? && w.tag.None? && Matches(h, w.key, w.bytes)
    ensures var after := NextWriteStep(NextWriteStep(g, req), req);
      && Has(after, w.repo, w.kind, w.key, w.bytes) && after.reqs == g.reqs - {req} && after.sessions == g.sessions
      && after.members == g.members + {Member(w.repo, w.key, w.kind)} && after.tagWrites == g.tagWrites
      && after.open == g.open - (if w.session.None? then {} else {w.session.value})
      && after.finalized == g.finalized + (if w.session.None? then []
                                           else [Finalized(w.session.value, w.snapshot, w.key, w.bytes)])
  {
    var g1 := NextWriteStep(g, req);
    if w.key in g.blobs { OneContent(h, w.key, g.blobs[w.key], w.bytes); }
    assert g1.reqs - {req} == g.reqs - {req};
  }

  lemma TagWriteRuns(h: Hashes, g: Reg, req: nat, w: Req)
    requires CollisionFree(h) && BlobsMatch(h, g) && req in g.reqs && g.reqs[req] == w
    requires w.Writing? && w.stage.NeedPut? && w.tag.Some? && Matches(h, w.key, w.bytes)
    ensures var after := NextWriteStep(NextWriteStep(NextWriteStep(g, req), req), req);
      && Has(after, w.repo, w.kind, w.key, w.bytes) && after.reqs == g.reqs - {req}
      && after.members == g.members + {Member(w.repo, w.key, w.kind)}
      && after.tags == g.tags[(w.repo, w.tag.value) := w.key]
      && after.tagWrites == g.tagWrites + [TagWrite(w.repo, w.tag.value, w.bytes)]
  {
    var g1 := NextWriteStep(g, req);
    var g2 := NextWriteStep(g1, req);
    if w.key in g.blobs { OneContent(h, w.key, g.blobs[w.key], w.bytes); }
    assert g2.reqs[req] == w.(stage := NeedTag);
    assert g2.reqs - {req} == g.reqs - {req};
  }

  lemma ReachableBlobs(h: Hashes, max: nat, events: seq<Event>)
    ensures BlobsMatch(h, Exec(h, max, Empty(), events)) && SessionsMeasured(Exec(h, max, Empty(), events), max)
  {
    ReachableInv(h, max, events);
  }

  function MonolithicEvents(req: nat, repo: string, claimed: string, body: Bytes): seq<Event> {
    [BeginMonolithic(req, repo, claimed, body), WriteStep(req), WriteStep(req)]
  }

  /** A body that fits and a claim that names one of its hashes: the repository has the blob. */
  lemma UndisturbedMonolithicPush(h: Hashes, max: nat, events: seq<Event>, req: nat, repo: string, key: Digest, body: Bytes)
    requires CollisionFree(h) && req !in Exec(h, max, Empty(), events).reqs
    requires |body| <= max && IsDigest(key) && Matches(h, key, body)
    ensures var after := Exec(h, max, Empty(), events + MonolithicEvents(req, repo, "sha256:" + key, body));
      Has(after, repo, BlobKind, key, body) && req !in after.reqs
  {
    var g, claimed := Exec(h, max, Empty(), events), "sha256:" + key;
    hide Exec, NextWriteStep, BlobsMatch;
    ClaimAcceptedExactly(h, body, claimed, key);
    ReachableBlobs(h, max, events);
    ExecAppend(h, max, Empty(), events, MonolithicEvents(req, repo, claimed, body));
    ExecThree(h, max, g, BeginMonolithic(req, repo, claimed, body), WriteStep(req), WriteStep(req));
    var g1 := NextBeginMonolithic(h, max, g, req, repo, claimed, body);
    SameBlobs(h, g, g1);
    WriteRuns(h, g1, req, g1.reqs[req]);
  }

  lemma SameBlobs(h: Hashes, g: Reg, g1: Reg)
    requires BlobsMatch(h, g) && g1.blobs == g.blobs
    ensures BlobsMatch(h, g1)
  {
  }

  // ---- Chunked uploads ----

  predicate SessionHolds(g: Reg, uuid: nat, repo: string, bytes: Bytes) {
    SessionFound(g, uuid, repo) && Flatten(g.sessions[uuid].chunks) == bytes
  }

  lemma BeginHolds(g: Reg, max: nat, uuid: nat, repo: string, seed: Bytes)
    requires uuid !in g.sessions && |seed| <= max
    ensures var after := NextBeginSession(g, max, uuid, repo, seed);
      SessionHolds(after, uuid, repo, seed) && after.reqs == g.reqs && after.sessions[uuid].size == |seed|
  {
    OpenedMeasured(repo, seed, max);
  }

  lemma PatchHolds(h: Hashes, max: nat, g: Reg, req: nat, uuid: nat, repo: string, chunk: Bytes, bytes: Bytes)
    requires SessionHolds(g, uuid, repo, bytes) && req !in g.reqs
    requires Measured(g.sessions[uuid], max) && |bytes| + |chunk| <= max
    ensures var after := Exec(h, max, g, [PatchStart(req, uuid, repo), PatchBody(req, chunk)]);
      SessionHolds(after, uuid, repo, bytes + chunk) && after.reqs == g.reqs && Measured(after.sessions[uuid], max)
  {
    ExecTwo(h, max, g, PatchStart(req, uuid, repo), PatchBody(req, chunk));
    ExtendedKeeps(g.sessions[uuid], chunk, max);
    FlattenLength(g.sessions[uuid].chunks);
    var g1 := With(g, req, Patching(uuid));
    assert g1.reqs - {req} == g.reqs;
  }

  function PatchEvents(req: nat, uuid: nat, repo: string, chunks: seq<Bytes>): seq<Event> {
    if chunks == [] then []
    else PatchEvents(req, uuid, repo, chunks[..|chunks| - 1])
         + [PatchStart(req, uuid, repo), PatchBody(req, chunks[|chunks| - 1])]
  }

  lemma {:induction false} PatchesHold(h: Hashes, max: nat, g: Reg, req: nat, uuid: nat, repo: string,
                                       chunks: seq<Bytes>, bytes: Bytes)
    requires SessionHolds(g, uuid, repo, bytes) && req !in g.reqs
    requires Measured(g.sessions[uuid], max) && |bytes| + |Flatten(chunks)| <= max
    ensures var after := Exec(h, max, g, PatchEvents(req, uuid, repo, chunks));
      SessionHolds(after, uuid, repo, bytes + Flatten(chunks)) && after.reqs == g.reqs && Measured(after.sessions[uuid], max)
    decreases |chunks|
  {
    hide SessionHolds, Measured, Exec;
    if chunks == [] {
      NoEvents(h, max, g);
      assert bytes + Flatten(chunks) == bytes;
    } else {
      var front, last := chunks[..|chunks| - 1], chunks[|chunks| - 1];
      assert chunks == front + [last];
      FlattenSnoc(front, last);
      PatchesHold(h, max, g, req, uuid, repo, front, bytes);
      ExecAppend(h, max, g, PatchEvents(req, uuid, repo, front), [PatchStart(req, uuid, repo), PatchBody(req, last)]);
      PatchHolds(h, max, Exec(h, max, g, PatchEvents(req, uuid, repo, front)), req, uuid, repo, last, bytes + Flatten(front));
      Regroup(bytes, Flatten(front), last);
    }
  }

  lemma NoEvents(h: Hashes, max: nat, g: Reg)
    ensures Exec(h, max, g, []) == g
  {
  }

  function FinalizeEvents(req: nat, uuid: nat, repo: string, claimed: string, trailing: Bytes): seq<Event> {
    [FinalizeStart(req, uuid, repo, claimed), FinalizeBody(req, trailing), WriteStep(req), WriteStep(req)]
  }

  lemma FinalizeStarts(h: Hashes, max: nat, g: Reg, req: nat, uuid: nat, repo: string, key: Digest, trailing: Bytes, bytes: Bytes)
    requires SessionHolds(g, uuid, repo, bytes) && req !in g.reqs && Measured(g.sessions[uuid], max)
    requires |bytes| + |trailing| <= max && IsDigest(key) && Matches(h, key, bytes + trailing)
    ensures var g2 := Next(h, max, Next(h, max, g, FinalizeStart(req, uuid, repo, "sha256:" + key)), FinalizeBody(req, trailing));
      && req in g2.reqs && g2.blobs == g.blobs && g2.open == g.open && g2.finalized == g.finalized
      && uuid in g2.sessions && Flatten(g2.sessions[uuid].chunks) == bytes + trailing
      && g2.reqs[req] == Writing(repo, BlobKind, key, bytes + trailing, None, Some(uuid), |g2.sessions[uuid].chunks|, NeedPut)
  {
    var s := g.sessions[uuid];
    ExtendedKeeps(s, trailing, max);
    FlattenLength(s.chunks);
    ClaimAcceptedExactly(h, bytes + trailing, "sha256:" + key, key);
    var g1 := With(g, req, Finalizing(uuid, "sha256:" + key));
    assert Next(h, max, g, FinalizeStart(req, uuid, repo, "sha256:" + key)) == g1;
    assert g1.reqs[req] == Finalizing(uuid, "sha256:" + key);
  }

  lemma FinalizeRuns(h: Hashes, max: nat, g: Reg, req: nat, uuid: nat, repo: string, key: Digest, trailing: Bytes, bytes: Bytes)
    requires CollisionFree(h) && BlobsMatch(h, g)
    requires SessionHolds(g, uuid, repo, bytes) && req !in g.reqs && Measured(g.sessions[uuid], max)
    requires |bytes| + |trailing| <= max && IsDigest(key) && Matches(h, key, bytes + trailing)
    ensures var after := Exec(h, max, g, FinalizeEvents(req, uuid, repo, "sha256:" + key, trailing));
      && Has(after, repo, BlobKind, key, bytes + trailing) && req !in after.reqs && uuid !in after.open
      && uuid in after.sessions && Flatten(after.sessions[uuid].chunks) == bytes + trailing
      && after.finalized == g.finalized + [Finalized(uuid, |after.sessions[uuid].chunks|, key, bytes + trailing)]
  {
    hide Exec, NextWriteStep, BlobsMatch, NextFinalizeBody;
    ExecFour(h, max, g, FinalizeStart(req, uuid, repo, "sha256:" + key), FinalizeBody(req, trailing), WriteStep(req), WriteStep(req));
    FinalizeStarts(h, max, g, req, uuid, repo, key, trailing, bytes);
    var g2 := Next(h, max, Next(h, max, g, FinalizeStart(req, uuid, repo, "sha256:" + key)), FinalizeBody(req, trailing));
    SameBlobs(h, g, g2);
    WriteRuns(h, g2, req, g2.reqs[req]);
  }

  /**
   A finalize of an open session, in every reachable state: a trailing body that fits and
   a claim that names a hash of everything appended leave the repository with the blob.
   */
  lemma UndisturbedFinalize(h: Hashes, max: nat, events: seq<Event>, req: nat, uuid: nat, repo: string, key: Digest, trailing: Bytes)
    requires CollisionFree(h)
    requires var g := Exec(h, max, Empty(), events);
      && req !in g.reqs && SessionFound(g, uuid, repo) && |Flatten(g.sessions[uuid].chunks)| + |trailing| <= max
      && IsDigest(key) && Matches(h, key, Flatten(g.sessions[uuid].chunks) + trailing)
    ensures var g := Exec(h, max, Empty(), events);
      var after := Exec(h, max, Empty(), events + FinalizeEvents(req, uuid, repo, "sha256:" + key, trailing));
      var full := Flatten(g.sessions[uuid].chunks) + trailing;
      && Has(after, repo, BlobKind, key, full) && req !in after.reqs && uuid !in after.open
      && uuid in after.sessions && Flatten(after.sessions[uuid].chunks) == full
      && after.finalized == g.finalized + [Finalized(uuid, |after.sessions[uuid].chunks|, key, full)]
  {
    var g := Exec(h, max, Empty(), events);
    ReachableBlobs(h, max, events);
    hide Exec, BlobsMatch;
    ExecAppend(h, max, Empty(), events, FinalizeEvents(req, uuid, repo, "sha256:" + key, trailing));
    FinalizeRuns(h, max, g, req, uuid, repo, key, trailing, Flatten(g.sessions[uuid].chunks));
  }

  function UploadEvents(req: nat, uuid: nat, repo: string, seed: Bytes, chunks: seq<Bytes>, claimed: string, trailing: Bytes)
    : seq<Event>
  {
    [BeginSession(uuid, repo, seed)] + PatchEvents(req, uuid, repo, chunks)
    + FinalizeEvents(req, uuid, repo, claimed, trailing)
  }

  /** A whole chunked upload, with any number of chunks, ends with the repository having their concatenation. */
  lemma UndisturbedUpload(h: Hashes, max: nat, events: seq<Event>, req: nat, uuid: nat, repo: string,
                          seed: Bytes, chunks: seq<Bytes>, trailing: Bytes, key: Digest)
    requires CollisionFree(h)
    requires var g := Exec(h, max, Empty(), events); req !in g.reqs && uuid !in g.sessions
    requires var full := seed + Flatten(chunks) + trailing; |full| <= max && IsDigest(key) && Matches(h, key, full)
    ensures var after := Exec(h, max, Empty(), events + UploadEvents(req, uuid, repo, seed, chunks, "sha256:" + key, trailing));
      Has(after, repo, BlobKind, key, seed + Flatten(chunks) + trailing) && req !in after.reqs && uuid !in after.open
  {
    var g := Exec(h, max, Empty(), events);
    var begin, patches := [BeginSession(uuid, repo, seed)], PatchEvents(req, uuid, repo, chunks);
    var last := FinalizeEvents(req, uuid, repo, "sha256:" + key, trailing);
    hide Exec, BlobsMatch, SessionHolds, Measured, Has, PatchEvents;
    BeginRuns(h, max, events, uuid, repo, seed);
    ExecAppend(h, max, Empty(), events + begin, patches);
    PatchesHold(h, max, Exec(h, max, Empty(), events + begin), req, uuid, repo, chunks, seed);
    ReachableBlobs(h, max, events + begin + patches);
    ExecAppend(h, max, Empty(), events + begin + patches, last);
    FinalizeRuns(h, max, Exec(h, max, Empty(), events + begin + patches), req, uuid, repo, key, trailing, seed + Flatten(chunks));
    assert events + UploadEvents(req, uuid, repo, seed, chunks, "sha256:" + key, trailing) == events + begin + patches + last;
  }

  lemma BeginRuns(h: Hashes, max: nat, events: seq<Event>, uuid: nat, repo: string, seed: Bytes)
    requires uuid !in Exec(h, max, Empty(), events).sessions && |seed| <= max
    ensures var after := Exec(h, max, Empty(), events + [BeginSession(uuid, repo, seed)]);
      SessionHolds(after, uuid, repo, seed) && after.reqs == Exec(h, max, Empty(), events).reqs
      && Measured(after.sessions[uuid], max)
  {
    var g, all := Exec(h, max, Empty(), events), events + [BeginSession(uuid, repo, seed)];
    assert all[..|events|] == events;
    BeginHolds(g, max, uuid, repo, seed);
    OpenedMeasured(repo, seed, max);
  }

  // ---- Manifests ----

  /** The digest header, when there is one, names a hash of the body. */
  predicate HeaderAgrees(h: Hashes, header: Option<string>, body: Bytes) {
    header.Some? ==> VerifyClaimedDigest(h, body, header.value).Some?
  }

  function ManifestEvents(req: nat, repo: string, reference: string, header: Option<string>, body: Bytes): seq<Event> {
    [ManifestPut(req, repo, reference, header, body), WriteStep(req), WriteStep(req)]
  }

  /** A manifest put by digest. */
  lemma UndisturbedManifestPut(h: Hashes, max: nat, events: seq<Event>, req: nat, repo: string, key: Digest,
                               header: Option<string>, body: Bytes)
    requires CollisionFree(h) && req !in Exec(h, max, Empty(), events).reqs
    requires 0 < |body| <= max && HeaderAgrees(h, header, body) && IsDigest(key) && Matches(h, key, body)
    ensures var after := Exec(h, max, Empty(), events + ManifestEvents(req, repo, "sha256:" + key, header, body));
      Has(after, repo, ManifestKind, key, body) && req !in after.reqs
  {
    var g, reference := Exec(h, max, Empty(), events), "sha256:" + key;
    hide Exec, NextWriteStep, BlobsMatch;
    ClaimAcceptedExactly(h, body, reference, key);
    ReachableBlobs(h, max, events);
    ExecAppend(h, max, Empty(), events, ManifestEvents(req, repo, reference, header, body));
    ExecThree(h, max, g, ManifestPut(req, repo, reference, header, body), WriteStep(req), WriteStep(req));
    var g1 := NextManifestPut(h, max, g, req, repo, reference, header, body);
    SameBlobs(h, g, g1);
    WriteRuns(h, g1, req, g1.reqs[req]);
  }

  /** A manifest put by tag: stored under its SHA-256, and the tag's next pull is served this body. */
  lemma UndisturbedTagPut(h: Hashes, max: nat, events: seq<Event>, req: nat, repo: string, tag: string,
                          header: Option<string>, body: Bytes)
    requires CollisionFree(h) && req !in Exec(h, max, Empty(), events).reqs
    requires 0 < |body| <= max && HeaderAgrees(h, header, body) && IsTag(tag)
    ensures var all := events + ManifestEvents(req, repo, tag, header, body) + [WriteStep(req)];
      var after := Exec(h, max, Empty(), all);
      && Has(after, repo, ManifestKind, h.sha(body), body) && req !in after.reqs
      && LastTagBody(after.tagWrites, repo, tag) == Some(body)
      && Exec(h, max, after, TagPullEvents(req, repo, tag)).served
         == after.served + [Served(repo, ManifestKind, h.sha(body), Some(tag), |after.tagWrites|, body)]
  {
    var g := Exec(h, max, Empty(), events);
    var put := ManifestEvents(req, repo, tag, header, body);
    var all := events + put + [WriteStep(req)];
    hide Exec, NextWriteStep, BlobsMatch, LastTagBody;
    TagIsNoDigest(tag);
    ReachableBlobs(h, max, events);
    assert all == events + (put + [WriteStep(req)]);
    ExecAppend(h, max, Empty(), events, put + [WriteStep(req)]);
    assert put + [WriteStep(req)]
           == [ManifestPut(req, repo, tag, header, body), WriteStep(req), WriteStep(req), WriteStep(req)];
    ExecFour(h, max, g, ManifestPut(req, repo, tag, header, body), WriteStep(req), WriteStep(req), WriteStep(req));
    var g1 := NextManifestPut(h, max, g, req, repo, tag, header, body);
    SameBlobs(h, g, g1);
    TagWriteRuns(h, g1, req, g1.reqs[req]);
    LastTagBodySnoc(g1.tagWrites, TagWrite(repo, tag, body), repo, tag);
    UndisturbedTagPull(h, max, all, req, repo, tag);
  }

  lemma TagIsNoDigest(tag: string)
    requires IsTag(tag)
    ensures !("sha256:" <= tag)
  {
    assert "sha256:"[6] == ':' && !IsTagChar(':');
    if |tag| > 6 { assert IsTagChar(tag[6]); }
  }

  // ---- Refusals ----

  predicate WordChar(c: char) { 'A' <= c <= 'Z' || 'a' <= c <= 'z' || '0' <= c <= '9' || c == '_' }

  /** A tag is one word character and up to 127 word characters, dots and hyphens. */
  lemma TagIsPattern(s: string)
    ensures IsTag(s) <==>
      1 <= |s| <= 128 && WordChar(s[0]) && forall i | 1 <= i < |s| :: WordChar(s[i]) || s[i] == '.' || s[i] == '-'
  {
    if |s| > 0 && forall i | 1 <= i < |s| :: IsTagChar(s[i]) { assert IsTagChar(s[0]) <== WordChar(s[0]); }
  }

  /** A digest is sixty-four lower-case hex digits. */
  lemma DigestIsPattern(s: string)
    ensures IsDigest(s) <==> |s| == 64 && forall c | c in s :: '0' <= c <= '9' || 'a' <= c <= 'f'
  {
    if IsDigest(s) {
      forall c | c in s ensures '0' <= c <= '9' || 'a' <= c <= 'f' {
        var i :| 0 <= i < |s| && s[i] == c;
        assert IsHexDigit(s[i]);
      }
    }
    if forall c | c in s :: '0' <= c <= '9' || 'a' <= c <= 'f' {
      forall i | 0 <= i < |s| ensures IsHexDigit(s[i]) { assert s[i] in s; }
    }
  }

  ghost predicate Names(h: Hashes, claimed: string, body: Bytes) {
    exists key :: claimed == "sha256:" + key && IsDigest(key) && Matches(h, key, body)
  }

  lemma NamesExactly(h: Hashes, claimed: string, body: Bytes)
    ensures Names(h, claimed, body) <==> VerifyClaimedDigest(h, body, claimed).Some?
  {
    var key := VerifyClaimedDigest(h, body, claimed);
    if key.Some? { ClaimAcceptedExactly(h, body, claimed, key.value); }
    if k :| claimed == "sha256:" + k && IsDigest(k) && Matches(h, k, body) { ClaimAcceptedExactly(h, body, claimed, k); }
  }

  /** A monolithic push starts exactly on a body within the cap that its claim names; refused, it leaves nothing. */
  lemma MonolithicAcceptedExactly(h: Hashes, max: nat, g: Reg, req: nat, repo: string, claimed: string, body: Bytes)
    requires req !in g.reqs
    ensures var after := Next(h, max, g, BeginMonolithic(req, repo, claimed, body));
      && (|body| <= max && Names(h, claimed, body) <==> req in after.reqs)
      && (req !in after.reqs ==> after == g)
  {
    NamesExactly(h, claimed, body);
  }

  /**
   A manifest put starts exactly on a non-empty body within the cap whose reference is a
   tag or one of its digests and whose digest header, when there is one, names it too.
   */
  lemma ManifestAcceptedExactly(h: Hashes, max: nat, g: Reg, req: nat, repo: string, reference: string,
                                header: Option<string>, body: Bytes)
    requires req !in g.reqs
    ensures var after := Next(h, max, g, ManifestPut(req, repo, reference, header, body));
      && (0 < |body| <= max && (Names(h, reference, body) || IsTag(reference))
          && (header.Some? ==> Names(h, header.value, body))
          <==> req in after.reqs)
      && (req !in after.reqs ==> after == g)
  {
    NamesExactly(h, reference, body);
    if header.Some? { NamesExactly(h, header.value, body); }
    if IsTag(reference) { TagIsNoDigest(reference); }
  }

  ghost predicate PushesCapped(g: Reg, max: nat) { forall p | p in g.pushed :: |p.bytes| <= max }

  lemma FinalizeBodyCapped(h: Hashes, max: nat, g: Reg, req: nat, trailing: Bytes)
    requires SessionsMeasured(g, max) && PushesCapped(g, max)
    ensures PushesCapped(NextFinalizeBody(h, max, g, req, trailing), max)
  {
    if req in g.reqs && g.reqs[req].Finalizing? && g.reqs[req].uuid in g.sessions {
      var s := g.sessions[g.reqs[req].uuid];
      ExtendedKeeps(s, trailing, max);
      if Extended(s, trailing, max).Some? { FlattenLength(Extended(s, trailing, max).value.chunks); }
    }
  }

  /** No push of more than the cap is ever accepted, by any of the three routes. */
  lemma {:induction false} AcceptedPushesAreCapped(h: Hashes, max: nat, events: seq<Event>)
    ensures PushesCapped(Exec(h, max, Empty(), events), max)
  {
    if events != [] {
      var front, e := events[..|events| - 1], events[|events| - 1];
      AcceptedPushesAreCapped(h, max, front);
      ReachableBlobs(h, max, front);
      CappedStep(h, max, Exec(h, max, Empty(), front), e);
    }
  }

  lemma CappedStep(h: Hashes, max: nat, g: Reg, e: Event)
    requires SessionsMeasured(g, max) && PushesCapped(g, max)
    ensures PushesCapped(Next(h, max, g, e), max)
  {
    match e
    case FinalizeBody(req, trailing) => FinalizeBodyCapped(h, max, g, req, trailing);
    case _ =>
  }

  // ---- Sessions that are over ----

  predicate Gone(g: Reg, uuid: nat) { uuid in g.sessions && uuid !in g.open }

  lemma GoneStep(h: Hashes, max: nat, g: Reg, e: Event, uuid: nat)
    requires Gone(g, uuid)
    ensures Gone(Next(h, max, g, e), uuid)
  {
    match e
    case PatchBody(req, chunk) =>
    case FinalizeBody(req, trailing) =>
    case WriteStep(req) =>
    case _ =>
  }

  lemma {:induction false} GoneStays(h: Hashes, max: nat, g: Reg, more: seq<Event>, uuid: nat)
    requires Gone(g, uuid)
    ensures Gone(Exec(h, max, g, more), uuid)
  {
    if more != [] {
      GoneStays(h, max, g, more[..|more| - 1], uuid);
      GoneStep(h, max, Exec(h, max, g, more[..|more| - 1]), more[|more| - 1], uuid);
    }
  }

  /**
   After an isolate restart no earlier session takes another body, whatever follows; what
   was stored before can still be pulled.
   */
  lemma RestartEndsSessions(h: Hashes, max: nat, events: seq<Event>, more: seq<Event>, req: nat, uuid: nat,
                            repo: string, claimed: string)
    requires uuid in Exec(h, max, Empty(), events).sessions
    ensures var g := Exec(h, max, Empty(), events);
      var later := Exec(h, max, Empty(), events + [Restart] + more);
      && Next(h, max, later, PatchStart(req, uuid, repo)) == later
      && Next(h, max, later, FinalizeStart(req, uuid, repo, claimed)) == later
      && g.members <= later.members && forall d | d in g.blobs :: d in later.blobs && later.blobs[d] == g.blobs[d]
  {
    var g, all := Exec(h, max, Empty(), events), events + [Restart];
    ReachableInv(h, max, events);
    assert all[..|events|] == events;
    var over := Exec(h, max, Empty(), all);
    assert over == g.(open := {}, reqs := map[]);
    GoneStays(h, max, over, more, uuid);
    ExecAppend(h, max, Empty(), all, more);
    ReachableInv(h, max, all);
    ExecGrew(h, max, over, more);
  }

  /** A finalize whose claim names nothing appended is refused: the body stays in the open session and nothing is pushed. */
  lemma UndisturbedRefusal(h: Hashes, max: nat, events: seq<Event>, req: nat, uuid: nat, repo: string, claimed: string,
                           trailing: Bytes)
    requires var g := Exec(h, max, Empty(), events);
      && req !in g.reqs && SessionFound(g, uuid, repo) && |Flatten(g.sessions[uuid].chunks)| + |trailing| <= max
      && !Names(h, claimed, Flatten(g.sessions[uuid].chunks) + trailing)
    ensures var g := Exec(h, max, Empty(), events);
      var after := Exec(h, max, g, [FinalizeStart(req, uuid, repo, claimed), FinalizeBody(req, trailing)]);
      && SessionHolds(after, uuid, repo, Flatten(g.sessions[uuid].chunks) + trailing)
      && after.reqs == g.reqs && after.pushed == g.pushed && after.blobs == g.blobs && after.members == g.members
  {
    var g := Exec(h, max, Empty(), events);
    ReachableBlobs(h, max, events);
    hide Exec, Names;
    ExecTwo(h, max, g, FinalizeStart(req, uuid, repo, claimed), FinalizeBody(req, trailing));
    RefusalRuns(h, max, g, req, uuid, repo, claimed, trailing);
  }

  lemma RefusalRuns(h: Hashes, max: nat, g: Reg, req: nat, uuid: nat, repo: string, claimed: string, trailing: Bytes)
    requires req !in g.reqs && SessionFound(g, uuid, repo) && Measured(g.sessions[uuid], max)
    requires |Flatten(g.sessions[uuid].chunks)| + |trailing| <= max
    requires !Names(h, claimed, Flatten(g.sessions[uuid].chunks) + trailing)
    ensures var after := Next(h, max, Next(h, max, g, FinalizeStart(req, uuid, repo, claimed)), FinalizeBody(req, trailing));
      && SessionHolds(after, uuid, repo, Flatten(g.sessions[uuid].chunks) + trailing)
      && after.reqs == g.reqs && after.pushed == g.pushed && after.blobs == g.blobs && after.members == g.members
  {
    var s := g.sessions[uuid];
    ExtendedKeeps(s, trailing, max);
    FlattenLength(s.chunks);
    NamesExactly(h, claimed, Flatten(s.chunks) + trailing);
    var g1 := With(g, req, Finalizing(uuid, claimed));
    assert Next(h, max, g, FinalizeStart(req, uuid, repo, claimed)) == g1;
    assert g1.reqs[req] == Finalizing(uuid, claimed);
    assert g1.reqs - {req} == g.reqs;
  }
}
