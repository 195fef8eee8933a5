/**
 Every step of the registry machine keeps its invariant and takes nothing back: one
 lemma per step, joined in NextKeeps.
 */
module RegistryInvariant {
  import opened Wrappers
  import opened Hashing
  import opened Sequences
  import opened Uploads
  import opened Registry

  // ---- Nothing that has been promised is taken back ----

  ghost predicate Grew(g: Reg, g': Reg) {
    && (forall d | d in g.blobs :: d in g'.blobs && g'.blobs[d] == g.blobs[d])
    && g.members <= g'.members && g.pushed <= g'.pushed && g.tagWrites <= g'.tagWrites
    && (forall u | u in g.sessions :: u in g'.sessions && g.sessions[u].name == g'.sessions[u].name
                                      && g.sessions[u].chunks <= g'.sessions[u].chunks)
  }

  lemma SnapshotGrows(g: Reg, g': Reg, uuid: nat, snapshot: nat, bytes: Bytes)
    requires Grew(g, g') && IsSnapshot(g.sessions, uuid, snapshot, bytes)
    ensures IsSnapshot(g'.sessions, uuid, snapshot, bytes)
  {
    assert g'.sessions[uuid].chunks[..snapshot] == g.sessions[uuid].chunks[..snapshot];
  }

  lemma TagReadGrows(h: Hashes, g: Reg, g': Reg, repo: string, digest: Digest, tag: Option<string>, time: nat)
    requires Grew(g, g') && TagReadOk(h, g.tagWrites, repo, digest, tag, time)
    ensures TagReadOk(h, g'.tagWrites, repo, digest, tag, time)
  {
    if tag.Some? { assert g'.tagWrites[..time] == g.tagWrites[..time]; }
  }

  lemma ReqGrows(h: Hashes, g: Reg, g': Reg, r: Req)
    requires Grew(g, g') && ReqOk(h, g, r)
    ensures ReqOk(h, g', r)
  {
    match r
    case Writing(_, _, _, bytes, _, session, snapshot, _) =>
      if session.Some? { SnapshotGrows(g, g', session.value, snapshot, bytes); }
    case Pulling(repo, _, digest, tag, time, _) => TagReadGrows(h, g, g', repo, digest, tag, time);
    case _ =>
  }

  lemma LogsGrow(h: Hashes, g: Reg, g': Reg)
    requires Grew(g, g') && LogsOk(h, g)
    ensures forall s | s in g.served :: ServedOk(h, g', s)
    ensures forall f | f in g.finalized :: FinalizedOk(h, g', f)
  {
    forall s | s in g.served ensures ServedOk(h, g', s) {
      TagReadGrows(h, g, g', s.repo, s.digest, s.tag, s.tagTime);
    }
    forall f | f in g.finalized ensures FinalizedOk(h, g', f) {
      SnapshotGrows(g, g', f.uuid, f.snapshot, f.bytes);
    }
  }

  lemma PushedGrows(h: Hashes, g: Reg, g': Reg)
    requires Grew(g, g')
    ensures forall repo: string, kind: Kind, d: Digest ::
              WasPushed(h, g.pushed, repo, kind, d) ==> WasPushed(h, g'.pushed, repo, kind, d)
  {
    forall repo: string, kind: Kind, d: Digest | WasPushed(h, g.pushed, repo, kind, d)
      ensures WasPushed(h, g'.pushed, repo, kind, d)
    {
      var p :| p in g.pushed && p.repo == repo && p.kind == kind && Matches(h, d, p.bytes);
      assert p in g'.pushed;
    }
  }

  /** A step changes at most one request; the rest of the invariant follows from growth. */
  lemma StepKeeps(h: Hashes, max: nat, g: Reg, g': Reg, req: nat)
    requires Inv(h, max, g) && Grew(g, g')
    requires BlobsMatch(h, g') && SessionsMeasured(g', max)
    requires forall q | q in g'.reqs && q != req :: q in g.reqs && g'.reqs[q] == g.reqs[q]
    requires req in g'.reqs ==> ReqOk(h, g', g'.reqs[req])
    requires forall m | m in g'.members && m !in g.members ::
               m.digest in g'.blobs && WasPushed(h, g'.pushed, m.repo, m.kind, m.digest)
    requires g'.tagWrites == g.tagWrites && g'.tags == g.tags
    requires forall s | s in g'.served && s !in g.served :: ServedOk(h, g', s)
    requires forall f | f in g'.finalized && f !in g.finalized :: FinalizedOk(h, g', f)
    ensures Inv(h, max, g')
  {
    PushedGrows(h, g, g');
    LogsGrow(h, g, g');
    forall q | q in g'.reqs ensures ReqOk(h, g', g'.reqs[q]) {
      if q != req { ReqGrows(h, g, g', g.reqs[q]); }
    }
  }

  lemma BeginSessionKeeps(h: Hashes, max: nat, g: Reg, uuid: nat, repo: string, seed: Bytes)
    requires Inv(h, max, g)
    ensures var g' := NextBeginSession(g, max, uuid, repo, seed); Inv(h, max, g') && Grew(g, g')
  {
    var g' := NextBeginSession(g, max, uuid, repo, seed);
    if !(uuid in g.sessions || |seed| > max) {
      OpenedMeasured(repo, seed, max);
      assert SessionsMeasured(g', max);
      NoReqChange(h, max, g, g');
    }
  }

  lemma NoReqChange(h: Hashes, max: nat, g: Reg, g': Reg)
    requires Inv(h, max, g) && Grew(g, g') && BlobsMatch(h, g') && SessionsMeasured(g', max)
    requires forall q | q in g'.reqs :: q in g.reqs && g'.reqs[q] == g.reqs[q]
    requires g'.members == g.members && g'.tagWrites == g.tagWrites && g'.tags == g.tags
    requires g'.served == g.served && g'.finalized == g.finalized
    ensures Inv(h, max, g')
  {
    if q :| q in g'.reqs {
      ReqGrows(h, g, g', g.reqs[q]);
      StepKeeps(h, max, g, g', q);
    } else {
      StepKeeps(h, max, g, g', 0);
    }
  }

  /** A body that matches its key, entering the write pipeline. */
  lemma StartWriteKeeps(h: Hashes, max: nat, g: Reg, req: nat, repo: string, kind: Kind, key: Digest, bytes: Bytes,
                        tag: Option<string>, session: Option<nat>, snapshot: nat)
    requires Inv(h, max, g) && Matches(h, key, bytes)
    requires tag.Some? ==> kind == ManifestKind && key == h.sha(bytes) && session.None?
    requires session.Some? ==> IsSnapshot(g.sessions, session.value, snapshot, bytes)
    ensures var g' := StartWrite(g, req, repo, kind, key, bytes, tag, session, snapshot); Inv(h, max, g') && Grew(g, g')
  {
    var g' := StartWrite(g, req, repo, kind, key, bytes, tag, session, snapshot);
    assert WriteOk(h, g', g'.reqs[req]);
    StepKeeps(h, max, g, g', req);
  }

  lemma MonolithicKeeps(h: Hashes, max: nat, g: Reg, req: nat, repo: string, claimed: string, body: Bytes)
    requires Inv(h, max, g)
    ensures var g' := NextBeginMonolithic(h, max, g, req, repo, claimed, body); Inv(h, max, g') && Grew(g, g')
  {
    var key := VerifyClaimedDigest(h, body, claimed);
    if !(req in g.reqs || |body| > max || key.None?) {
      ClaimAcceptedExactly(h, body, claimed, key.value);
      StartWriteKeeps(h, max, g, req, repo, BlobKind, key.value, body, None, None, 0);
    }
  }

  lemma ManifestPutKeeps(h: Hashes, max: nat, g: Reg, req: nat, repo: string, reference: string,
                         header: Option<string>, body: Bytes)
    requires Inv(h, max, g)
    ensures var g' := NextManifestPut(h, max, g, req, repo, reference, header, body); Inv(h, max, g') && Grew(g, g')
  {
    var key := ManifestKey(h, reference, body);
    if NextManifestPut(h, max, g, req, repo, reference, header, body) != g {
      if SHA256_PREFIX <= reference { ClaimAcceptedExactly(h, body, reference, key.value); }
      StartWriteKeeps(h, max, g, req, repo, ManifestKind, key.value, body,
                      if SHA256_PREFIX <= reference then None else Some(reference), None, 0);
    }
  }

  /** A session grew by one accepted body. */
  lemma ExtendKeeps(h: Hashes, max: nat, g: Reg, uuid: nat, body: Bytes)
    requires Inv(h, max, g) && uuid in g.sessions && Extended(g.sessions[uuid], body, max).Some?
    ensures var s := Extended(g.sessions[uuid], body, max).value;
            var g' := g.(sessions := g.sessions[uuid := s]);
            Inv(h, max, g') && Grew(g, g') && IsSnapshot(g'.sessions, uuid, |s.chunks|, Flatten(s.chunks))
  {
    var s := Extended(g.sessions[uuid], body, max).value;
    ExtendedKeeps(g.sessions[uuid], body, max);
    assert s.chunks[..|s.chunks|] == s.chunks;
    NoReqChange(h, max, g, g.(sessions := g.sessions[uuid := s]));
  }

  lemma DropKeeps(h: Hashes, max: nat, g: Reg, req: nat)
    requires Inv(h, max, g)
    ensures Inv(h, max, Drop(g, req)) && Grew(g, Drop(g, req))
  {
    NoReqChange(h, max, g, Drop(g, req));
  }

  lemma GrewTransitive(a: Reg, b: Reg, c: Reg)
    requires Grew(a, b) && Grew(b, c)
    ensures Grew(a, c)
  {
  }

  lemma PatchBodyKeeps(h: Hashes, max: nat, g: Reg, req: nat, chunk: Bytes)
    requires Inv(h, max, g)
    ensures var g' := NextPatchBody(g, max, req, chunk); Inv(h, max, g') && Grew(g, g')
  {
    if req in g.reqs && g.reqs[req].Patching? && g.reqs[req].uuid in g.sessions {
      var uuid := g.reqs[req].uuid;
      var s := Extended(g.sessions[uuid], chunk, max);
      if s.None? {
        DropKeeps(h, max, g, req);
      } else {
        var g1 := g.(sessions := g.sessions[uuid := s.value]);
        ExtendKeeps(h, max, g, uuid, chunk);
        DropKeeps(h, max, g1, req);
        GrewTransitive(g, g1, Drop(g1, req));
      }
    }
  }

  lemma FinalizeBodyKeeps(h: Hashes, max: nat, g: Reg, req: nat, trailing: Bytes)
    requires Inv(h, max, g)
    ensures var g' := NextFinalizeBody(h, max, g, req, trailing); Inv(h, max, g') && Grew(g, g')
  {
    if req in g.reqs && g.reqs[req].Finalizing? && g.reqs[req].uuid in g.sessions {
      var uuid := g.reqs[req].uuid;
      var s := Extended(g.sessions[uuid], trailing, max);
      if s.None? {
        DropKeeps(h, max, g, req);
      } else {
        var g1 := g.(sessions := g.sessions[uuid := s.value]);
        var full := Flatten(s.value.chunks);
        var key := VerifyClaimedDigest(h, full, g.reqs[req].claimed);
        ExtendKeeps(h, max, g, uuid, trailing);
        if key.None? {
          DropKeeps(h, max, g1, req);
        } else {
          ClaimAcceptedExactly(h, full, g.reqs[req].claimed, key.value);
          StartWriteKeeps(h, max, g1, req, s.value.name, BlobKind, key.value, full, None, Some(uuid), |s.value.chunks|);
        }
        GrewTransitive(g, g1, NextFinalizeBody(h, max, g, req, trailing));
      }
    }
  }

  lemma PutStepKeeps(h: Hashes, max: nat, g: Reg, req: nat)
    requires Inv(h, max, g) && req in g.reqs && g.reqs[req].Writing? && g.reqs[req].stage.NeedPut?
    ensures Inv(h, max, NextWriteStep(g, req)) && Grew(g, NextWriteStep(g, req))
  {
    var g', w := NextWriteStep(g, req), g.reqs[req];
    assert ReqOk(h, g, w);
    ReqGrows(h, g, g', w);
    StepKeeps(h, max, g, g', req);
  }

  lemma OwnPush(h: Hashes, pushed: set<Pushed>, w: Req)
    requires w.Writing? && Pushed(w.repo, w.kind, w.bytes) in pushed && Matches(h, w.key, w.bytes)
    ensures WasPushed(h, pushed, w.repo, w.kind, w.key)
  {
    var p := Pushed(w.repo, w.kind, w.bytes);
    assert p in pushed && p.repo == w.repo && p.kind == w.kind && Matches(h, w.key, p.bytes);
  }

  lemma MemberStepGrew(h: Hashes, g: Reg, req: nat)
    requires req in g.reqs && g.reqs[req].Writing? && g.reqs[req].stage.NeedMember? && WriteOk(h, g, g.reqs[req])
    ensures var g', w := NextWriteStep(g, req), g.reqs[req];
      && Grew(g, g') && g'.members == g.members + {Member(w.repo, w.key, w.kind)}
      && g'.blobs == g.blobs && g'.pushed == g.pushed && g'.sessions == g.sessions && g'.served == g.served
      && (req in g'.reqs ==> g'.reqs[req] == w.(stage := NeedTag) && w.tag.Some?)
      && (forall f | f in g'.finalized && f !in g.finalized :: FinalizedOk(h, g', f))
  {
  }

  lemma MemberStepKeeps(h: Hashes, max: nat, g: Reg, req: nat)
    requires Inv(h, max, g) && req in g.reqs && g.reqs[req].Writing? && g.reqs[req].stage.NeedMember?
    ensures Inv(h, max, NextWriteStep(g, req)) && Grew(g, NextWriteStep(g, req))
  {
    var g', w := NextWriteStep(g, req), g.reqs[req];
    assert ReqOk(h, g, w);
    OwnPush(h, g.pushed, w);
    MemberStepGrew(h, g, req);
    ReqGrows(h, g, g', w);
    assert req in g'.reqs ==> WriteOk(h, g', g'.reqs[req]);
    StepKeeps(h, max, g, g', req);
  }

  lemma LastTagBodySnoc(writes: seq<TagWrite>, w: TagWrite, repo: string, tag: string)
    ensures LastTagBody(writes + [w], repo, tag)
            == if w.repo == repo && w.tag == tag then Some(w.body) else LastTagBody(writes, repo, tag)
  {
    assert (writes + [w])[..|writes|] == writes;
  }

  lemma TagStepTags(h: Hashes, max: nat, g: Reg, req: nat)
    requires Inv(h, max, g) && req in g.reqs && g.reqs[req].Writing? && g.reqs[req].stage.NeedTag?
    ensures TagsFollowWrites(h, NextWriteStep(g, req))
  {
    var g', w := NextWriteStep(g, req), g.reqs[req];
    assert ReqOk(h, g, w);
    var write := TagWrite(w.repo, w.tag.value, w.bytes);
    forall repo: string, tag: string
      ensures LastTagBody(g'.tagWrites, repo, tag)
              == if write.repo == repo && write.tag == tag then Some(w.bytes) else LastTagBody(g.tagWrites, repo, tag)
    {
      LastTagBodySnoc(g.tagWrites, write, repo, tag);
    }
  }

  lemma TagStepKeeps(h: Hashes, max: nat, g: Reg, req: nat)
    requires Inv(h, max, g) && req in g.reqs && g.reqs[req].Writing? && g.reqs[req].stage.NeedTag?
    ensures Inv(h, max, NextWriteStep(g, req)) && Grew(g, NextWriteStep(g, req))
  {
    var g', w := NextWriteStep(g, req), g.reqs[req];
    assert ReqOk(h, g, w);
    TagStepTags(h, max, g, req);
    PushedGrows(h, g, g');
    LogsGrow(h, g, g');
    forall q | q in g'.reqs ensures ReqOk(h, g', g'.reqs[q]) { ReqGrows(h, g, g', g.reqs[q]); }
  }

  lemma PullStepKeeps(h: Hashes, max: nat, g: Reg, req: nat)
    requires Inv(h, max, g)
    ensures Inv(h, max, NextPullStep(g, req)) && Grew(g, NextPullStep(g, req))
  {
    if req in g.reqs && g.reqs[req].Pulling? {
      assert ReqOk(h, g, g.reqs[req]);
      StepKeeps(h, max, g, NextPullStep(g, req), req);
    }
  }

  lemma PullTagKeeps(h: Hashes, max: nat, g: Reg, req: nat, repo: string, tag: string)
    requires Inv(h, max, g)
    ensures Inv(h, max, NextPullTag(g, req, repo, tag)) && Grew(g, NextPullTag(g, req, repo, tag))
  {
    if req !in g.reqs && (repo, tag) in g.tags {
      assert LastTagBody(g.tagWrites, repo, tag).Some?;
      assert g.tagWrites[..|g.tagWrites|] == g.tagWrites;
      StepKeeps(h, max, g, NextPullTag(g, req, repo, tag), req);
    }
  }

  lemma AdmitKeeps(h: Hashes, max: nat, g: Reg, req: nat, r: Req)
    requires Inv(h, max, g) && ReqOk(h, g, r)
    ensures Inv(h, max, With(g, req, r)) && Grew(g, With(g, req, r))
  {
    ReqGrows(h, g, With(g, req, r), r);
    StepKeeps(h, max, g, With(g, req, r), req);
  }

  lemma RestartKeeps(h: Hashes, max: nat, g: Reg)
    requires Inv(h, max, g)
    ensures var g' := g.(open := {}, reqs := map[]); Inv(h, max, g') && Grew(g, g')
  {
    NoReqChange(h, max, g, g.(open := {}, reqs := map[]));
  }

  lemma OtherPutKeeps(h: Hashes, max: nat, g: Reg, digest: Digest, bytes: Bytes)
    requires Inv(h, max, g) && Matches(h, digest, bytes)
    ensures var g' := g.(blobs := PutBlob(g.blobs, digest, bytes)); Inv(h, max, g') && Grew(g, g')
  {
    NoReqChange(h, max, g, g.(blobs := PutBlob(g.blobs, digest, bytes)));
  }

  lemma WriteStepKeeps(h: Hashes, max: nat, g: Reg, req: nat)
    requires Inv(h, max, g)
    ensures Inv(h, max, NextWriteStep(g, req)) && Grew(g, NextWriteStep(g, req))
  {
    if req in g.reqs && g.reqs[req].Writing? {
      match g.reqs[req].stage
      case NeedPut => PutStepKeeps(h, max, g, req);
      case NeedMember => MemberStepKeeps(h, max, g, req);
      case NeedTag => TagStepKeeps(h, max, g, req);
    }
  }

  predicate IsPush(e: Event) {
    || e.BeginSession? || e.BeginMonolithic? || e.PatchStart? || e.PatchBody?
    || e.FinalizeStart? || e.FinalizeBody? || e.ManifestPut?
  }

  lemma PushKeeps(h: Hashes, max: nat, g: Reg, e: Event)
    requires Inv(h, max, g) && IsPush(e)
    ensures Inv(h, max, Next(h, max, g, e)) && Grew(g, Next(h, max, g, e))
  {
    match e
    case BeginSession(uuid, repo, seed) => BeginSessionKeeps(h, max, g, uuid, repo, seed);
    case BeginMonolithic(req, repo, claimed, body) => MonolithicKeeps(h, max, g, req, repo, claimed, body);
    case PatchStart(req, uuid, repo) => AdmitKeeps(h, max, g, req, Patching(uuid));
    case PatchBody(req, chunk) => PatchBodyKeeps(h, max, g, req, chunk);
    case FinalizeStart(req, uuid, repo, claimed) => AdmitKeeps(h, max, g, req, Finalizing(uuid, claimed));
    case FinalizeBody(req, trailing) => FinalizeBodyKeeps(h, max, g, req, trailing);
    case ManifestPut(req, repo, reference, header, body) => ManifestPutKeeps(h, max, g, req, repo, reference, header, body);
  }

  lemma PullOrStepKeeps(h: Hashes, max: nat, g: Reg, e: Event)
    requires Inv(h, max, g) && !IsPush(e)
    ensures Inv(h, max, Next(h, max, g, e)) && Grew(g, Next(h, max, g, e))
  {
    match e
    case WriteStep(req) => WriteStepKeeps(h, max, g, req);
    case PullDigest(req, repo, kind, digest) => AdmitKeeps(h, max, g, req, Pulling(repo, kind, digest, None, 0, false));
    case PullTag(req, repo, tag) => PullTagKeeps(h, max, g, req, repo, tag);
    case PullStep(req) => PullStepKeeps(h, max, g, req);
    case Abandon(req) => DropKeeps(h, max, g, req);
    case Restart => RestartKeeps(h, max, g);
    case OtherPut(digest, bytes) => if Matches(h, digest, bytes) { OtherPutKeeps(h, max, g, digest, bytes); }
  }

  /** Every step of every handler preserves the invariant and takes nothing back. */
  lemma NextKeeps(h: Hashes, max: nat, g: Reg, e: Event)
    requires Inv(h, max, g)
    ensures Inv(h, max, Next(h, max, g, e)) && Grew(g, Next(h, max, g, e))
  {
    if IsPush(e) { PushKeeps(h, max, g, e); } else { PullOrStepKeeps(h, max, g, e); }
  }
}
