/**
 Interleaved pushes and pulls of the OCI registry (src/routes/oci-registry.ts:353-457,
 476-734). A handler gives up the processor at every await, so bodies arrive, blobs are
 stored, memberships recorded, tags moved and sessions dropped in any order across
 requests; a handler may also stop at any point, and the isolate may restart.
 */
module Registry {
  import opened Wrappers
  import opened Hashing
  import opened Sequences
  import opened Uploads

  datatype Kind = BlobKind | ManifestKind

  datatype Member = Member(repo: string, digest: Digest, kind: Kind)

  /** History: bytes a push handler accepted for a repository. */
  datatype Pushed = Pushed(repo: string, kind: Kind, bytes: Bytes)

  /** History: a completed tag write. */
  datatype TagWrite = TagWrite(repo: string, tag: string, body: Bytes)

  /** History: a pull answered with 200; for tags, how many tag writes had completed when the tag was read. */
  datatype Served = Served(repo: string, kind: Kind, digest: Digest, tag: Option<string>, tagTime: nat, bytes: Bytes)

  /** History: a finalize answered with 201 and the number of chunks in its snapshot. */
  datatype Finalized = Finalized(uuid: nat, snapshot: nat, digest: Digest, bytes: Bytes)

  datatype WriteStage = NeedPut | NeedMember | NeedTag

  datatype Req =
    | Patching(uuid: nat)
    | Finalizing(uuid: nat, claimed: string)
    | Writing(repo: string, kind: Kind, key: Digest, bytes: Bytes, tag: Option<string>,
              session: Option<nat>, snapshot: nat, stage: WriteStage)
    | Pulling(repo: string, kind: Kind, digest: Digest, tag: Option<string>, tagTime: nat, member: bool)

  /** `sessions` keeps every session object; `open` is the upload map's key set. */
  datatype Reg = Reg(
    blobs: map<Digest, Bytes>, members: set<Member>, tags: map<(string, string), Digest>,
    sessions: map<nat, Session>, open: set<nat>, reqs: map<nat, Req>,
    pushed: set<Pushed>, tagWrites: seq<TagWrite>, served: seq<Served>, finalized: seq<Finalized>)

  datatype Event =
    | BeginSession(uuid: nat, repo: string, seed: Bytes)
    | BeginMonolithic(req: nat, repo: string, claimed: string, body: Bytes)
    | PatchStart(req: nat, uuid: nat, repo: string)
    | PatchBody(req: nat, chunk: Bytes)
    | FinalizeStart(req: nat, uuid: nat, repo: string, claimed: string)
    | FinalizeBody(req: nat, trailing: Bytes)
    | ManifestPut(req: nat, repo: string, reference: string, header: Option<string>, body: Bytes)
    | WriteStep(req: nat)
    | PullDigest(req: nat, repo: string, kind: Kind, digest: Digest)
    | PullTag(req: nat, repo: string, tag: string)
    | PullStep(req: nat)
    | Abandon(req: nat)
    | Restart
    | OtherPut(digest: Digest, bytes: Bytes)

  function Empty(): Reg { Reg(map[], {}, map[], map[], {}, map[], {}, [], [], []) }

  function Drop(g: Reg, req: nat): Reg { g.(reqs := g.reqs - {req}) }

  function With(g: Reg, req: nat, r: Req): Reg { g.(reqs := g.reqs[req := r]) }

  /** A verified body enters the put, membership, tag pipeline. */
  function StartWrite(g: Reg, req: nat, repo: string, kind: Kind, key: Digest, bytes: Bytes, tag: Option<string>,
                      session: Option<nat>, snapshot: nat): Reg {
    With(g, req, Writing(repo, kind, key, bytes, tag, session, snapshot, NeedPut))
    .(pushed := g.pushed + {Pushed(repo, kind, bytes)})
  }

  function NextBeginSession(g: Reg, max: nat, uuid: nat, repo: string, seed: Bytes): Reg {
    if uuid in g.sessions || |seed| > max then g
    else g.(sessions := g.sessions[uuid := Opened(repo, seed)], open := g.open + {uuid})
  }

  function NextBeginMonolithic(h: Hashes, max: nat, g: Reg, req: nat, repo: string, claimed: string, body: Bytes): Reg {
    var key := VerifyClaimedDigest(h, body, claimed);
    if req in g.reqs || |body| > max || key.None? then g
    else StartWrite(g, req, repo, BlobKind, key.value, body, None, None, 0)
  }

  /** Both session handlers look the session up before they read their body. */
  predicate SessionFound(g: Reg, uuid: nat, repo: string) {
    uuid in g.open && uuid in g.sessions && g.sessions[uuid].name == repo
  }

  function NextPatchBody(g: Reg, max: nat, req: nat, chunk: Bytes): Reg {
    if req !in g.reqs || !g.reqs[req].Patching? || g.reqs[req].uuid !in g.sessions then g
    else
      var uuid := g.reqs[req].uuid;
      var s := Extended(g.sessions[uuid], chunk, max);
      if s.None? then Drop(g, req) else Drop(g.(sessions := g.sessions[uuid := s.value]), req)
  }

  /** Append the trailing body, snapshot the bytes, check the claim; a refused claim keeps the session as extended. */
  function NextFinalizeBody(h: Hashes, max: nat, g: Reg, req: nat, trailing: Bytes): Reg {
    if req !in g.reqs || !g.reqs[req].Finalizing? || g.reqs[req].uuid !in g.sessions then g
    else
      var uuid := g.reqs[req].uuid;
      var (s, blob) := Finalize(h, g.sessions[uuid], trailing, g.reqs[req].claimed, max);
      var g1 := g.(sessions := g.sessions[uuid := s]);
      if blob.None? then Drop(g1, req)
      else StartWrite(g1, req, s.name, BlobKind, blob.value.1, blob.value.0, None, Some(uuid), |s.chunks|)
  }

  predicate IsTagChar(c: char) {
    'A' <= c <= 'Z' || 'a' <= c <= 'z' || '0' <= c <= '9' || c == '_' || c == '.' || c == '-'
  }

  predicate IsTag(s: string) {
    1 <= |s| <= 128 && s[0] != '.' && s[0] != '-' && forall i | 0 <= i < |s| :: IsTagChar(s[i])
  }

  /** Storage key of a manifest: the verified claim for a digest reference, SHA-256 for a tag. */
  function ManifestKey(h: Hashes, reference: string, body: Bytes): Option<Digest> {
    if SHA256_PREFIX <= reference then VerifyClaimedDigest(h, body, reference)
    else if IsTag(reference) then Some(h.sha(body)) else None
  }

  function NextManifestPut(h: Hashes, max: nat, g: Reg, req: nat, repo: string, reference: string,
                           header: Option<string>, body: Bytes): Reg {
    var key := ManifestKey(h, reference, body);
    if req in g.reqs || |body| > max || body == [] || key.None? then g
    else if header.Some? && VerifyClaimedDigest(h, body, header.value).None? then g
    else StartWrite(g, req, repo, ManifestKind, key.value, body,
                    if SHA256_PREFIX <= reference then None else Some(reference), None, 0)
  }

  function Finish(g: Reg, req: nat, w: Req): Reg
    requires w.Writing?
  {
    if w.session.None? then Drop(g, req)
    else Drop(g, req).(open := g.open - {w.session.value},
                       finalized := g.finalized + [Finalized(w.session.value, w.snapshot, w.key, w.bytes)])
  }

  function NextWriteStep(g: Reg, req: nat): Reg {
    if req !in g.reqs || !g.reqs[req].Writing? then g
    else
      var w := g.reqs[req];
      match w.stage
      case NeedPut => With(g.(blobs := PutBlob(g.blobs, w.key, w.bytes)), req, w.(stage := NeedMember))
      case NeedMember =>
        var g1 := g.(members := g.members + {Member(w.repo, w.key, w.kind)});
        if w.tag.Some? then With(g1, req, w.(stage := NeedTag)) else Finish(g1, req, w)
      case NeedTag =>
        if w.tag.None? then g
        else Drop(g, req).(tags := g.tags[(w.repo, w.tag.value) := w.key],
                           tagWrites := g.tagWrites + [TagWrite(w.repo, w.tag.value, w.bytes)])
  }

  function NextPullTag(g: Reg, req: nat, repo: string, tag: string): Reg {
    if req in g.reqs || (repo, tag) !in g.tags then g
    else With(g, req, Pulling(repo, ManifestKind, g.tags[(repo, tag)], Some(tag), |g.tagWrites|, false))
  }

  /** First the membership gate, then the blob read. */
  function NextPullStep(g: Reg, req: nat): Reg {
    if req !in g.reqs || !g.reqs[req].Pulling? then g
    else
      var p := g.reqs[req];
      if !p.member then
        if Member(p.repo, p.digest, p.kind) in g.members then With(g, req, p.(member := true)) else Drop(g, req)
      else if p.digest in g.blobs then
        Drop(g, req).(served := g.served + [Served(p.repo, p.kind, p.digest, p.tag, p.tagTime, g.blobs[p.digest])])
      else Drop(g, req)
  }

  function Next(h: Hashes, max: nat, g: Reg, e: Event): Reg {
    match e
    case BeginSession(uuid, repo, seed) => NextBeginSession(g, max, uuid, repo, seed)
    case BeginMonolithic(req, repo, claimed, body) => NextBeginMonolithic(h, max, g, req, repo, claimed, body)
    case PatchStart(req, uuid, repo) =>
      if req in g.reqs || !SessionFound(g, uuid, repo) then g else With(g, req, Patching(uuid))
    case PatchBody(req, chunk) => NextPatchBody(g, max, req, chunk)
    case FinalizeStart(req, uuid, repo, claimed) =>
      if req in g.reqs || !SessionFound(g, uuid, repo) then g else With(g, req, Finalizing(uuid, claimed))
    case FinalizeBody(req, trailing) => NextFinalizeBody(h, max, g, req, trailing)
    case ManifestPut(req, repo, reference, header, body) => NextManifestPut(h, max, g, req, repo, reference, header, body)
    case WriteStep(req) => NextWriteStep(g, req)
    case PullDigest(req, repo, kind, digest) =>
      if req in g.reqs then g else With(g, req, Pulling(repo, kind, digest, None, 0, false))
    case PullTag(req, repo, tag) => NextPullTag(g, req, repo, tag)
    case PullStep(req) => NextPullStep(g, req)
    case Abandon(req) => Drop(g, req)
    case Restart => g.(open := {}, reqs := map[])
    case OtherPut(digest, bytes) => if Matches(h, digest, bytes) then g.(blobs := PutBlob(g.blobs, digest, bytes)) else g
  }

  function Exec(h: Hashes, max: nat, g: Reg, events: seq<Event>): Reg {
    if events == [] then g else Next(h, max, Exec(h, max, g, events[..|events| - 1]), events[|events| - 1])
  }

  // ---- The invariant ----

  /** The body of the last completed write of a tag. */
  function LastTagBody(writes: seq<TagWrite>, repo: string, tag: string): Option<Bytes> {
    if writes == [] then None
    else
      var last := writes[|writes| - 1];
      if last.repo == repo && last.tag == tag then Some(last.body) else LastTagBody(writes[..|writes| - 1], repo, tag)
  }

  ghost predicate BlobsMatch(h: Hashes, g: Reg) {
    forall d | d in g.blobs :: Matches(h, d, g.blobs[d])
  }

  /** Some bytes pushed into the repository under this kind have this digest. */
  ghost predicate WasPushed(h: Hashes, pushed: set<Pushed>, repo: string, kind: Kind, digest: Digest) {
    exists p :: p in pushed && p.repo == repo && p.kind == kind && Matches(h, digest, p.bytes)
  }

  ghost predicate MembersBacked(h: Hashes, g: Reg) {
    forall m | m in g.members :: m.digest in g.blobs && WasPushed(h, g.pushed, m.repo, m.kind, m.digest)
  }

  ghost predicate TagsFollowWrites(h: Hashes, g: Reg) {
    forall repo: string, tag: string ::
      var body := LastTagBody(g.tagWrites, repo, tag);
      && ((repo, tag) in g.tags <==> body.Some?)
      && (body.Some? ==> g.tags[(repo, tag)] == h.sha(body.value)
                         && Member(repo, h.sha(body.value), ManifestKind) in g.members)
  }

  ghost predicate SessionsMeasured(g: Reg, max: nat) {
    forall u | u in g.sessions :: Measured(g.sessions[u], max)
  }

  /** The first `snapshot` chunks of a session, in append order. */
  ghost predicate IsSnapshot(sessions: map<nat, Session>, uuid: nat, snapshot: nat, bytes: Bytes) {
    uuid in sessions && snapshot <= |sessions[uuid].chunks| && bytes == Flatten(sessions[uuid].chunks[..snapshot])
  }

  ghost predicate WriteOk(h: Hashes, g: Reg, w: Req)
    requires w.Writing?
  {
    && Matches(h, w.key, w.bytes) && Pushed(w.repo, w.kind, w.bytes) in g.pushed
    && (w.tag.Some? ==> w.kind == ManifestKind && w.key == h.sha(w.bytes) && w.session.None?)
    && (!w.stage.NeedPut? ==> w.key in g.blobs)
    && (w.stage.NeedTag? ==> w.tag.Some? && Member(w.repo, w.key, w.kind) in g.members)
    && (w.session.Some? ==> IsSnapshot(g.sessions, w.session.value, w.snapshot, w.bytes))
  }

  ghost predicate TagReadOk(h: Hashes, writes: seq<TagWrite>, repo: string, digest: Digest, tag: Option<string>, time: nat) {
    tag.Some? ==> time <= |writes| && var body := LastTagBody(writes[..time], repo, tag.value);
                                      body.Some? && digest == h.sha(body.value)
  }

  ghost predicate ReqOk(h: Hashes, g: Reg, r: Req) {
    match r
    case Writing(_, _, _, _, _, _, _, _) => WriteOk(h, g, r)
    case Pulling(repo, kind, digest, tag, time, member) =>
      (member ==> Member(repo, digest, kind) in g.members) && TagReadOk(h, g.tagWrites, repo, digest, tag, time)
    case _ => true
  }

  ghost predicate ReqsOk(h: Hashes, g: Reg) {
    forall q | q in g.reqs :: ReqOk(h, g, g.reqs[q])
  }

  ghost predicate ServedOk(h: Hashes, g: Reg, s: Served) {
    && Member(s.repo, s.digest, s.kind) in g.members && s.digest in g.blobs && g.blobs[s.digest] == s.bytes
    && TagReadOk(h, g.tagWrites, s.repo, s.digest, s.tag, s.tagTime)
  }

  ghost predicate FinalizedOk(h: Hashes, g: Reg, f: Finalized) {
    f.digest in g.blobs && Matches(h, f.digest, f.bytes) && IsSnapshot(g.sessions, f.uuid, f.snapshot, f.bytes)
  }

  ghost predicate LogsOk(h: Hashes, g: Reg) {
    (forall s | s in g.served :: ServedOk(h, g, s)) && (forall f | f in g.finalized :: FinalizedOk(h, g, f))
  }

  ghost predicate Inv(h: Hashes, max: nat, g: Reg) {
    && BlobsMatch(h, g) && MembersBacked(h, g) && TagsFollowWrites(h, g) && SessionsMeasured(g, max)
    && ReqsOk(h, g) && LogsOk(h, g)
  }
}
