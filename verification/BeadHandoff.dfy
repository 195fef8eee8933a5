/**
 The cross-store handoff of `bead_create` (src/routes/bead-create-orchestrator.ts:285-423)
 against the blob store, the bead stores and the trust store, with any number of runs
 and drains interleaved step by step. A step's reply may be delivered, lost after the
 write landed, or the call may fail before writing; a run or a drain may stop anywhere.
 */
module BeadHandoff {
  import opened Wrappers
  import opened Hashing
  import opened TrustTables
  import opened TrustStore

  /** Bead rows are keyed by repository (one store each) and id. */
  datatype Key = Key(repo: Name, id: Name)

  datatype Request = Request(peer: Peer, key: Key, bytes: Bytes, evidence: Evidence, nowMs: int,
                             origins: Option<string>)

  datatype Step = PutStep | InsertStep | HeadStep | EnqueueStep

  datatype Stage =
    | Started | Stored | Inserted | HeadRead(head: Option<Digest>) | AppendFailed
    | Succeeded | Failed(at: Step) | Crashed(was: Stage)

  /** The flags are history: which of the run's statements a store has executed, whatever reply arrived. */
  datatype Run = Run(req: Request, stage: Stage, inserted: bool, appended: bool, queued: bool)

  function NewRun(req: Request): Run { Run(req, Started, false, false, false) }

  datatype Phase = Idle | HeadTaken(head: Option<Digest>) | Gated(ok: bool)

  datatype Drain = Drain(todo: seq<Pending>, phase: Phase, nowMs: int, contentType: string)

  datatype Global = Global(
    blobs: map<Digest, Bytes>, beads: map<Key, Option<Digest>>, trust: Tables,
    runs: map<nat, Run>, drains: map<nat, Drain>)

  datatype Fate = Delivered | Lost | Dropped

  datatype Event =
    | Begin(run: nat, req: Request)
    | Put(run: nat, fate: Fate)
    | Insert(run: nat, fate: Fate)
    | ReadHead(run: nat, fate: Fate)
    | Append(run: nat, fate: Fate)
    | Defer(run: nat, fate: Fate)
    | CrashRun(run: nat)
    | DrainStart(drain: nat, nowMs: int, contentType: string, limit: nat)
    | DrainHead(drain: nat)
    | DrainGate(drain: nat, throws: bool)
    | DrainSettle(drain: nat)
    | DrainCrash(drain: nat)
    | OtherPut(digest: Digest, bytes: Bytes)
    | OtherBead(key: Key, hash: Option<Digest>)

  function Empty(): Global { Global(map[], map[], Tables([], []), map[], map[]) }

  function DigestOf(h: Hashes, req: Request): Digest { h.sha(req.bytes) }

  function AppendClaim(h: Hashes, r: nat, req: Request): Claim {
    Claim(req.peer, DigestOf(h, req), "bead/v1", req.evidence, req.nowMs, Some(req.key.id), req.origins, r)
  }

  predicate At(g: Global, r: nat, stage: Stage) { r in g.runs && g.runs[r].stage == stage }

  function Moved(g: Global, r: nat, stage: Stage): map<nat, Run>
    requires r in g.runs
  {
    g.runs[r := g.runs[r].(stage := stage)]
  }

  /** Steps 1 to 4 of the orchestrator; an event that does not apply changes nothing. */
  function NextPut(h: Hashes, g: Global, r: nat, fate: Fate): Global {
    if !At(g, r, Started) then g
    else
      var req := g.runs[r].req;
      match fate
      case Dropped => g.(runs := Moved(g, r, Failed(PutStep)))
      case Lost => g.(blobs := PutBlob(g.blobs, DigestOf(h, req), req.bytes), runs := Moved(g, r, Failed(PutStep)))
      case Delivered => g.(blobs := PutBlob(g.blobs, DigestOf(h, req), req.bytes), runs := Moved(g, r, Stored))
  }

  /** A taken primary key is an error response, which the orchestrator turns into a failure. */
  function NextInsert(h: Hashes, g: Global, r: nat, fate: Fate): Global {
    if !At(g, r, Stored) then g
    else
      var req := g.runs[r].req;
      if fate.Dropped? || req.key in g.beads then g.(runs := Moved(g, r, Failed(InsertStep)))
      else g.(beads := g.beads[req.key := Some(DigestOf(h, req))],
              runs := g.runs[r := g.runs[r].(stage := if fate.Lost? then Failed(InsertStep) else Inserted,
                                             inserted := true)])
  }

  /** The head read is outside the orchestrator's try block: a failed read fails the run. */
  function NextReadHead(g: Global, r: nat, fate: Fate): Global {
    if !At(g, r, Inserted) then g
    else if fate.Delivered? then g.(runs := Moved(g, r, HeadRead(HeadHash(g.trust.attestations, g.runs[r].req.peer))))
    else g.(runs := Moved(g, r, Failed(HeadStep)))
  }

  function NextAppend(h: Hashes, g: Global, r: nat, fate: Fate): Global {
    if r !in g.runs || !g.runs[r].stage.HeadRead? then g
    else
      var c, head := AppendClaim(h, r, g.runs[r].req), g.runs[r].stage.head;
      if fate.Dropped? then g.(runs := Moved(g, r, AppendFailed))
      else
        var ok := Apply(g.trust.attestations, c, head).Ok?;
        g.(trust := g.trust.(attestations := Applied(g.trust.attestations, c, head)),
           runs := g.runs[r := g.runs[r].(stage := if fate.Delivered? && ok then Succeeded else AppendFailed,
                                          appended := ok)])
  }

  function NextDefer(h: Hashes, g: Global, r: nat, fate: Fate): Global {
    if !At(g, r, AppendFailed) then g
    else if fate.Dropped? then g.(runs := Moved(g, r, Failed(EnqueueStep)))
    else g.(trust := g.trust.(pending := Enqueue(g.trust.pending, AppendClaim(h, r, g.runs[r].req))),
            runs := g.runs[r := g.runs[r].(stage := if fate.Lost? then Failed(EnqueueStep) else Succeeded,
                                           queued := true)])
  }

  predicate Running(stage: Stage) { !stage.Succeeded? && !stage.Failed? && !stage.Crashed? }

  function NextCrash(g: Global, r: nat): Global {
    if r !in g.runs || !Running(g.runs[r].stage) then g else g.(runs := Moved(g, r, Crashed(g.runs[r].stage)))
  }

  function NextDrainStart(g: Global, k: nat, nowMs: int, contentType: string, limit: nat): Global {
    if k in g.drains then g
    else g.(drains := g.drains[k := Drain(ClaimBatch(g.trust.pending, nowMs, limit), Idle, nowMs, contentType)])
  }

  predicate Draining(g: Global, k: nat) { k in g.drains && g.drains[k].todo != [] }

  function NextDrainHead(g: Global, k: nat): Global {
    if !Draining(g, k) || !g.drains[k].phase.Idle? then g
    else
      var d := g.drains[k];
      g.(drains := g.drains[k := d.(phase := HeadTaken(HeadHash(g.trust.attestations, d.todo[0].peer)))])
  }

  function NextDrainGate(g: Global, k: nat, throws: bool): Global {
    if !Draining(g, k) || !g.drains[k].phase.HeadTaken? then g
    else
      var d := g.drains[k];
      var c := RetryClaim(d.todo[0], d.nowMs, d.contentType);
      if throws then g.(drains := g.drains[k := d.(phase := Gated(false))])
      else g.(trust := g.trust.(attestations := Applied(g.trust.attestations, c, d.phase.head)),
              drains := g.drains[k := d.(phase := Gated(Apply(g.trust.attestations, c, d.phase.head).Ok?))])
  }

  function NextDrainSettle(g: Global, k: nat): Global {
    if !Draining(g, k) || !g.drains[k].phase.Gated? then g
    else
      var d := g.drains[k];
      var row := d.todo[0];
      g.(trust := g.trust.(pending := if d.phase.ok then Commit(g.trust.pending, row.peer, row.contentHash)
                                      else RecordFailed(g.trust.pending, row.peer, row.contentHash, d.nowMs)),
         drains := g.drains[k := d.(todo := d.todo[1..], phase := Idle)])
  }

  function NextDrainCrash(g: Global, k: nat): Global { g.(drains := g.drains - {k}) }

  /** Other callers of the shared blob store prove their key by either hash. */
  function NextOtherPut(h: Hashes, g: Global, key: Digest, bytes: Bytes): Global {
    if Matches(h, key, bytes) then g.(blobs := PutBlob(g.blobs, key, bytes)) else g
  }

  function Next(h: Hashes, g: Global, e: Event): Global {
    match e
    case Begin(r, req) => if r in g.runs then g else g.(runs := g.runs[r := NewRun(req)])
    case Put(r, fate) => NextPut(h, g, r, fate)
    case Insert(r, fate) => NextInsert(h, g, r, fate)
    case ReadHead(r, fate) => NextReadHead(g, r, fate)
    case Append(r, fate) => NextAppend(h, g, r, fate)
    case Defer(r, fate) => NextDefer(h, g, r, fate)
    case CrashRun(r) => NextCrash(g, r)
    case DrainStart(k, nowMs, contentType, limit) => NextDrainStart(g, k, nowMs, contentType, limit)
    case DrainHead(k) => NextDrainHead(g, k)
    case DrainGate(k, throws) => NextDrainGate(g, k, throws)
    case DrainSettle(k) => NextDrainSettle(g, k)
    case DrainCrash(k) => NextDrainCrash(g, k)
    case OtherPut(key, bytes) => NextOtherPut(h, g, key, bytes)
    case OtherBead(key, hash) => if key in g.beads then g else g.(beads := g.beads[key := hash])
  }

  function Exec(h: Hashes, g: Global, events: seq<Event>): Global {
    if events == [] then g else Next(h, Exec(h, g, events[..|events| - 1]), events[|events| - 1])
  }

  // ---- What a stage implies ----

  predicate HasBlob(stage: Stage) {
    match stage
    case Started => false
    case Failed(at) => !at.PutStep?
    case Crashed(was) => HasBlob(was)
    case _ => true
  }

  predicate HasBead(stage: Stage) {
    match stage
    case Started => false
    case Stored => false
    case Failed(at) => !at.PutStep? && !at.InsertStep?
    case Crashed(was) => HasBead(was)
    case _ => true
  }

  /** Only from here on can a trust row carry the run's evidence. */
  predicate MayHaveRows(stage: Stage) {
    match stage
    case AppendFailed => true
    case Succeeded => true
    case Failed(at) => at.EnqueueStep?
    case Crashed(was) => MayHaveRows(was)
    case _ => false
  }

  /** The trust store executed the run's append with a matching head, or its enqueue. */
  predicate Landed(run: Run) { run.appended || run.queued }

  predicate RunConsistent(run: Run) {
    && (HasBead(run.stage) ==> run.inserted) && (run.inserted ==> HasBlob(run.stage))
    && (Landed(run) ==> MayHaveRows(run.stage)) && (run.stage.Succeeded? ==> Landed(run))
    && (MayHaveRows(run.stage) ==> HasBead(run.stage)) && (run.stage.AppendFailed? || run.stage.Crashed? ==> !run.queued)
    && (run.stage.Crashed? ==> Running(run.stage.was))
  }

  ghost predicate RunAdvances(a: Run, b: Run) {
    && b.req == a.req && (!Running(a.stage) ==> b == a)
    && (HasBlob(a.stage) ==> HasBlob(b.stage)) && (a.inserted ==> b.inserted)
    && (a.appended ==> b.appended) && (a.queued ==> b.queued)
  }

  ghost predicate Grew(g: Global, g': Global) {
    && (forall d | d in g.blobs :: d in g'.blobs && g'.blobs[d] == g.blobs[d])
    && (forall k | k in g.beads :: k in g'.beads && g'.beads[k] == g.beads[k])
    && g.trust.attestations <= g'.trust.attestations
    && (forall r | r in g.runs :: r in g'.runs && RunAdvances(g.runs[r], g'.runs[r]))
  }

  // ---- The invariant ----

  ghost predicate BlobsHashed(h: Hashes, g: Global) {
    forall d | d in g.blobs :: Matches(h, d, g.blobs[d])
  }

  ghost predicate RunBacked(h: Hashes, g: Global, run: Run) {
    && RunConsistent(run)
    && (HasBlob(run.stage) ==> DigestOf(h, run.req) in g.blobs)
    && (run.inserted ==> run.req.key in g.beads && g.beads[run.req.key] == Some(DigestOf(h, run.req)))
  }

  ghost predicate RunsBacked(h: Hashes, g: Global) {
    forall r | r in g.runs :: RunBacked(h, g, g.runs[r])
  }

  /** The row's digest and peer are those of a run whose trust statement was executed. */
  ghost predicate Backed(h: Hashes, g: Global, peer: Peer, hash: Digest, writer: nat) {
    && writer in g.runs && Landed(g.runs[writer])
    && g.runs[writer].req.peer == peer && DigestOf(h, g.runs[writer].req) == hash
  }

  ghost predicate AttestationsBacked(h: Hashes, g: Global) {
    forall a | a in g.trust.attestations :: Backed(h, g, a.peer, a.contentHash, a.writer)
  }

  ghost predicate PendingBacked(h: Hashes, g: Global, rows: seq<Pending>) {
    forall p | p in rows :: Backed(h, g, p.peer, p.contentHash, p.writer) && g.runs[p.writer].queued
  }

  ghost predicate Recorded(t: Tables, peer: Peer, hash: Digest) {
    Attested(t, peer, hash) || HasPending(t.pending, peer, hash)
  }

  ghost predicate LandedRecorded(h: Hashes, g: Global) {
    forall r | r in g.runs && Landed(g.runs[r]) ::
      Recorded(g.trust, g.runs[r].req.peer, DigestOf(h, g.runs[r].req))
  }

  ghost predicate DrainOk(h: Hashes, g: Global, d: Drain) {
    && PendingBacked(h, g, d.todo)
    && (d.phase == Gated(true) ==> d.todo != [] && Attested(g.trust, d.todo[0].peer, d.todo[0].contentHash))
  }

  ghost predicate DrainsOk(h: Hashes, g: Global) {
    forall k | k in g.drains :: DrainOk(h, g, g.drains[k])
  }

  ghost predicate Inv(h: Hashes, g: Global) {
    && BlobsHashed(h, g) && RunsBacked(h, g) && Sound(g.trust) && AttestationsBacked(h, g)
    && PendingBacked(h, g, g.trust.pending) && LandedRecorded(h, g) && DrainsOk(h, g)
  }
}
