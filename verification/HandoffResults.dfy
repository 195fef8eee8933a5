/**
 What holds over every run of the `bead_create` handoff, and what the code does not
 promise (src/routes/bead-create-orchestrator.ts:285-423, src/trust-store.ts:696-736).
 */
module HandoffResults {
  import opened Wrappers
  import opened Hashing
  import opened TrustTables
  import opened TrustStore
  import opened BeadHandoff
  import opened HandoffInvariant

  // ---- All runs ----

  lemma {:induction false} ReachableInv(h: Hashes, events: seq<Event>)
    ensures Inv(h, Exec(h, Empty(), events))
  {
    if events != [] {
      ReachableInv(h, events[..|events| - 1]);
      NextKeeps(h, Exec(h, Empty(), events[..|events| - 1]), events[|events| - 1]);
    }
  }

  lemma {:induction false} ExecAppend(h: Hashes, g: Global, a: seq<Event>, b: seq<Event>)
    ensures Exec(h, g, a + b) == Exec(h, Exec(h, g, a), b)
    decreases |b|
  {
    if b == [] {
      assert a + b == a;
    } else {
      ExecAppend(h, g, a, b[..|b| - 1]);
      assert (a + b)[..|a + b| - 1] == a + b[..|b| - 1];
    }
  }

  lemma GrewTransitive(a: Global, b: Global, c: Global)
    requires Grew(a, b) && Grew(b, c)
    ensures Grew(a, c)
  {
  }

  lemma {:induction false} ExecGrew(h: Hashes, g: Global, more: seq<Event>)
    requires Inv(h, g)
    ensures Inv(h, Exec(h, g, more)) && Grew(g, Exec(h, g, more))
  {
    if more != [] {
      var mid := Exec(h, g, more[..|more| - 1]);
      ExecGrew(h, g, more[..|more| - 1]);
      NextKeeps(h, mid, more[|more| - 1]);
      GrewTransitive(g, mid, Exec(h, g, more));
    }
  }

  /** A run that returned success has its attestation in the chain or the pending table, then and forever. */
  lemma SuccessIsRecordedForever(h: Hashes, events: seq<Event>, more: seq<Event>, r: nat)
    requires At(Exec(h, Empty(), events), r, Succeeded)
    ensures var req := Exec(h, Empty(), events).runs[r].req;
            Recorded(Exec(h, Empty(), events + more).trust, req.peer, DigestOf(h, req))
  {
    ReachableInv(h, events);
    ExecAppend(h, Empty(), events, more);
    ExecGrew(h, Exec(h, Empty(), events), more);
  }

  ghost predicate Committed(h: Hashes, g: Global, peer: Peer, hash: Digest, writer: nat) {
    && writer in g.runs && g.runs[writer].req.peer == peer && DigestOf(h, g.runs[writer].req) == hash
    && hash in g.blobs
    && g.runs[writer].req.key in g.beads && g.beads[g.runs[writer].req.key] == Some(hash)
  }

  lemma BackedIsCommitted(h: Hashes, g: Global, peer: Peer, hash: Digest, writer: nat)
    requires RunsBacked(h, g) && Backed(h, g, peer, hash, writer)
    ensures Committed(h, g, peer, hash, writer)
  {
    assert RunBacked(h, g, g.runs[writer]);
  }

  /** No attestation or pending row ever names a digest whose blob and bead row are not committed. */
  lemma RowsNameCommittedBeads(h: Hashes, events: seq<Event>)
    ensures var g := Exec(h, Empty(), events);
      && (forall a | a in g.trust.attestations :: Committed(h, g, a.peer, a.contentHash, a.writer))
      && (forall p | p in g.trust.pending :: Committed(h, g, p.peer, p.contentHash, p.writer))
  {
    var g := Exec(h, Empty(), events);
    ReachableInv(h, events);
    forall a | a in g.trust.attestations ensures Committed(h, g, a.peer, a.contentHash, a.writer) {
      BackedIsCommitted(h, g, a.peer, a.contentHash, a.writer);
    }
    forall p | p in g.trust.pending ensures Committed(h, g, p.peer, p.contentHash, p.writer) {
      BackedIsCommitted(h, g, p.peer, p.contentHash, p.writer);
    }
  }

  ghost predicate NoRowsOf(g: Global, r: nat) {
    && (forall a | a in g.trust.attestations :: a.writer != r)
    && (forall p | p in g.trust.pending :: p.writer != r)
  }

  /** A run that failed at the blob, bead or head step never leaves a trust row, whatever happens later. */
  lemma EarlyFailureLeavesNoRows(h: Hashes, events: seq<Event>, more: seq<Event>, r: nat)
    requires var g := Exec(h, Empty(), events);
      r in g.runs && g.runs[r].stage.Failed? && !g.runs[r].stage.at.EnqueueStep?
    ensures NoRowsOf(Exec(h, Empty(), events + more), r)
  {
    EndedRunStays(h, events, more, r);
    ReachableInv(h, events + more);
    NotLandedNoRows(h, Exec(h, Empty(), events + more), r);
  }

  lemma NotLandedNoRows(h: Hashes, g: Global, r: nat)
    requires Inv(h, g) && r in g.runs && RunBacked(h, g, g.runs[r])
    ensures Landed(g.runs[r]) || NoRowsOf(g, r)
  {
  }

  lemma EndedRunStays(h: Hashes, events: seq<Event>, more: seq<Event>, r: nat)
    requires var g := Exec(h, Empty(), events); r in g.runs && !Running(g.runs[r].stage)
    ensures var g, later := Exec(h, Empty(), events), Exec(h, Empty(), events + more);
      && r in later.runs && later.runs[r] == g.runs[r] && Inv(h, later) && RunBacked(h, later, later.runs[r])
  {
    ReachableInv(h, events);
    ExecAppend(h, Empty(), events, more);
    ExecGrew(h, Exec(h, Empty(), events), more);
  }

  lemma LaterTables(h: Hashes, events: seq<Event>, more: seq<Event>)
    ensures var early, late := Exec(h, Empty(), events), Exec(h, Empty(), events + more);
      Sound(early.trust) && Sound(late.trust) && early.trust.attestations <= late.trust.attestations
  {
    ReachableInv(h, events);
    ReachableInv(h, events + more);
    ExecAppend(h, Empty(), events, more);
    ExecGrew(h, Exec(h, Empty(), events), more);
  }

  /** Every peer's chain is numbered and linked, and earlier chains are prefixes of later ones. */
  lemma ChainsNeverFork(h: Hashes, events: seq<Event>, more: seq<Event>, peer: Peer)
    ensures var early, late := Exec(h, Empty(), events), Exec(h, Empty(), events + more);
      && Linked(ChainOf(early.trust.attestations, peer)) && Linked(ChainOf(late.trust.attestations, peer))
      && ChainOf(early.trust.attestations, peer) <= ChainOf(late.trust.attestations, peer)
  {
    var early, late := Exec(h, Empty(), events), Exec(h, Empty(), events + more);
    LaterTables(h, events, more);
    ChainLinks(early.trust.attestations, peer);
    ChainLinks(late.trust.attestations, peer);
    ChainsExtend(early.trust.attestations, late.trust.attestations, peer);
  }

  /** The blob an attestation names holds exactly the canonical bytes its run signed. */
  lemma AttestedBlobIsTheBead(h: Hashes, events: seq<Event>, a: Attestation)
    requires CollisionFree(h) && a in Exec(h, Empty(), events).trust.attestations
    ensures var g := Exec(h, Empty(), events);
      a.contentHash in g.blobs && a.writer in g.runs && g.blobs[a.contentHash] == g.runs[a.writer].req.bytes
  {
    var g := Exec(h, Empty(), events);
    ReachableInv(h, events);
    BackedIsCommitted(h, g, a.peer, a.contentHash, a.writer);
    OneContent(h, a.contentHash, g.blobs[a.contentHash], g.runs[a.writer].req.bytes);
  }

  /** Three undisturbed drain steps are one iteration of the trust store's drain loop, whether or not the gate throws. */
  lemma DrainStepsAreOneRow(h: Hashes, g: Global, k: nat, throws: bool)
    requires Draining(g, k) && g.drains[k].phase.Idle?
    ensures var d := g.drains[k];
      var after := Exec(h, g, [DrainHead(k), DrainGate(k, throws), DrainSettle(k)]);
      after == g.(trust := DrainRow(g.trust, d.todo[0], Turn([], throws, []), d.nowMs, d.contentType),
                  drains := g.drains[k := d.(todo := d.todo[1..])])
  {
    var d := g.drains[k];
    var e1, e2, e3 := DrainHead(k), DrainGate(k, throws), DrainSettle(k);
    var g1 := NextDrainHead(g, k);
    var g2 := NextDrainGate(g1, k, throws);
    var g3 := NextDrainSettle(g2, k);
    ThreeEvents(h, g, e1, e2, e3);
    assert g3.drains == g.drains[k := d.(todo := d.todo[1..])];
    assert AfterWrites(g.trust, []) == g.trust;
  }

  lemma ThreeEvents(h: Hashes, g: Global, e1: Event, e2: Event, e3: Event)
    ensures Exec(h, g, [e1, e2, e3]) == Next(h, Next(h, Next(h, g, e1), e2), e3)
  {
    assert [e1, e2, e3][..2] == [e1, e2] && [e1, e2][..1] == [e1] && [e1][..0] == [];
    assert Exec(h, g, []) == g;
    assert Exec(h, g, [e1]) == Next(h, g, e1);
    assert Exec(h, g, [e1, e2]) == Next(h, Next(h, g, e1), e2);
  }

  lemma ExecOne(h: Hashes, g: Global, e: Event)
    ensures Exec(h, g, [e]) == Next(h, g, e)
  {
    assert [e][..0] == [];
  }

  // ---- Which committed beads are recorded ----

  predicate SameClaim(h: Hashes, run: Run, peer: Peer, hash: Digest) {
    run.req.peer == peer && DigestOf(h, run.req) == hash
  }

  ghost predicate LandedFor(h: Hashes, g: Global, peer: Peer, hash: Digest) {
    exists r :: r in g.runs && SameClaim(h, g.runs[r], peer, hash) && Landed(g.runs[r])
  }

  lemma RecordedNeedsLanding(h: Hashes, g: Global, peer: Peer, hash: Digest)
    requires Inv(h, g) && Recorded(g.trust, peer, hash)
    ensures LandedFor(h, g, peer, hash)
  {
    if Attested(g.trust, peer, hash) {
      var a :| a in g.trust.attestations && a.peer == peer && a.contentHash == hash;
      assert SameClaim(h, g.runs[a.writer], peer, hash);
    } else {
      var i :| 0 <= i < |g.trust.pending| && IsKey(g.trust.pending[i], peer, hash);
      assert g.trust.pending[i] in g.trust.pending;
      assert SameClaim(h, g.runs[g.trust.pending[i].writer], peer, hash);
    }
  }

  /** A digest is recorded for a peer exactly when the trust store executed an append or enqueue of such a run. */
  lemma RecordedExactly(h: Hashes, events: seq<Event>, peer: Peer, hash: Digest)
    ensures var g := Exec(h, Empty(), events); Recorded(g.trust, peer, hash) <==> LandedFor(h, g, peer, hash)
  {
    ReachableInv(h, events);
    var g := Exec(h, Empty(), events);
    if Recorded(g.trust, peer, hash) { RecordedNeedsLanding(h, g, peer, hash); }
  }

  /**
   The endings that leave a committed bead unrecorded: the insert's reply was lost, the
   head read failed, or the run failed or stopped before a trust statement was executed.
   */
  predicate Gap(run: Run) {
    match run.stage
    case Failed(at) => at.InsertStep? || at.HeadStep? || (at.EnqueueStep? && !run.appended && !run.queued)
    case Crashed(was) => !was.AppendFailed? || !run.appended
    case _ => false
  }

  /** No other run that reached the trust tables claims the same bytes for the same peer. */
  ghost predicate Sole(h: Hashes, g: Global, r: nat)
    requires r in g.runs
  {
    forall q | q in g.runs && Landed(g.runs[q]) && SameClaim(h, g.runs[q], g.runs[r].req.peer, DigestOf(h, g.runs[r].req)) ::
      q == r
  }

  lemma GapIsNotLanded(h: Hashes, g: Global, run: Run)
    requires RunBacked(h, g, run) && run.inserted && !Running(run.stage)
    ensures Gap(run) <==> !Landed(run)
  {
    match run.stage
    case Crashed(was) =>
      assert MayHaveRows(run.stage) == MayHaveRows(was);
      assert MayHaveRows(was) ==> was.AppendFailed?;
    case _ =>
  }

  /**
   Every ended run with a committed bead, then and forever: the bead is unrecorded
   exactly when the run ended in a gap and so did every other run of the same claim.
   */
  lemma GapExactly(h: Hashes, events: seq<Event>, more: seq<Event>, r: nat)
    requires var g := Exec(h, Empty(), events); r in g.runs && !Running(g.runs[r].stage) && g.runs[r].inserted
    ensures var run, later := Exec(h, Empty(), events).runs[r], Exec(h, Empty(), events + more);
      var peer, hash := run.req.peer, DigestOf(h, run.req);
      && Committed(h, later, peer, hash, r)
      && (!Recorded(later.trust, peer, hash)
          <==> Gap(run) && forall q | q in later.runs && SameClaim(h, later.runs[q], peer, hash) :: !Landed(later.runs[q]))
      && (Sole(h, later, r) ==> (NoRowsOf(later, r) <==> Gap(run)))
  {
    var run, later := Exec(h, Empty(), events).runs[r], Exec(h, Empty(), events + more);
    var peer, hash := run.req.peer, DigestOf(h, run.req);
    EndedRunStays(h, events, more, r);
    GapIsNotLanded(h, later, run);
    RecordedExactly(h, events + more, peer, hash);
    NotLandedNoRows(h, later, r);
    assert SameClaim(h, later.runs[r], peer, hash);
    if Sole(h, later, r) && Landed(run) { SoleHasRow(h, later, r); }
  }

  lemma SoleHasRow(h: Hashes, g: Global, r: nat)
    requires Inv(h, g) && r in g.runs && Sole(h, g, r) && Landed(g.runs[r])
    ensures !NoRowsOf(g, r)
  {
    var peer, hash := g.runs[r].req.peer, DigestOf(h, g.runs[r].req);
    assert Recorded(g.trust, peer, hash);
    if Attested(g.trust, peer, hash) {
      var a :| a in g.trust.attestations && a.peer == peer && a.contentHash == hash;
      assert SameClaim(h, g.runs[a.writer], peer, hash);
    } else {
      var i :| 0 <= i < |g.trust.pending| && IsKey(g.trust.pending[i], peer, hash);
      var p := g.trust.pending[i];
      assert p in g.trust.pending;
      assert SameClaim(h, g.runs[p.writer], peer, hash);
    }
  }

  // ---- Each gap is reachable ----

  lemma ExecSnoc(h: Hashes, g: Global, events: seq<Event>, e: Event)
    ensures Exec(h, g, events + [e]) == Next(h, Exec(h, g, events), e)
  {
    assert (events + [e])[..|events|] == events;
  }

  function StoreSteps(r: nat, req: Request, insertFate: Fate): seq<Event> {
    [Begin(r, req), Put(r, Delivered), Insert(r, insertFate)]
  }

  /** One run whose blob and bead are stored, and nothing else. */
  function BeadStored(h: Hashes, r: nat, req: Request, run: Run): Global {
    Global(map[DigestOf(h, req) := req.bytes], map[req.key := Some(DigestOf(h, req))], Tables([], []), map[r := run], map[])
  }

  lemma AfterStoreSteps(h: Hashes, r: nat, req: Request, insertFate: Fate)
    requires !insertFate.Dropped?
    ensures Exec(h, Empty(), StoreSteps(r, req, insertFate))
            == BeadStored(h, r, req, Run(req, if insertFate.Lost? then Failed(InsertStep) else Inserted, true, false, false))
  {
    ThreeEvents(h, Empty(), Begin(r, req), Put(r, Delivered), Insert(r, insertFate));
    var begun := Empty().(runs := map[r := NewRun(req)]);
    var stored := NextPut(h, begun, r, Delivered);
    assert stored.runs[r] == NewRun(req).(stage := Stored);
  }

  ghost predicate UnrecordedBead(h: Hashes, g: Global, r: nat) {
    && r in g.runs && g.runs[r].inserted && !Running(g.runs[r].stage) && g.runs[r].req.key in g.beads
    && !Recorded(g.trust, g.runs[r].req.peer, DigestOf(h, g.runs[r].req))
  }

  /** A bead insert that commits but whose reply is lost. */
  lemma LostInsertReplyIsGap(h: Hashes, r: nat, req: Request)
    ensures var g := Exec(h, Empty(), StoreSteps(r, req, Lost)); UnrecordedBead(h, g, r) && At(g, r, Failed(InsertStep))
  {
    AfterStoreSteps(h, r, req, Lost);
  }

  /** A head read that fails, and a process that stops, right after the insert. */
  lemma FailedHeadReadIsGap(h: Hashes, r: nat, req: Request)
    ensures var g := Exec(h, Empty(), StoreSteps(r, req, Delivered) + [ReadHead(r, Dropped)]);
      UnrecordedBead(h, g, r) && At(g, r, Failed(HeadStep))
    ensures var g := Exec(h, Empty(), StoreSteps(r, req, Delivered) + [CrashRun(r)]);
      UnrecordedBead(h, g, r) && At(g, r, Crashed(Inserted))
  {
    AfterStoreSteps(h, r, req, Delivered);
    ExecSnoc(h, Empty(), StoreSteps(r, req, Delivered), ReadHead(r, Dropped));
    ExecSnoc(h, Empty(), StoreSteps(r, req, Delivered), CrashRun(r));
  }

  function AppendDropped(r: nat, req: Request): seq<Event> {
    StoreSteps(r, req, Delivered) + [ReadHead(r, Delivered), Append(r, Dropped)]
  }

  lemma AfterAppendDropped(h: Hashes, r: nat, req: Request)
    ensures Exec(h, Empty(), AppendDropped(r, req)) == BeadStored(h, r, req, Run(req, AppendFailed, true, false, false))
  {
    AfterStoreSteps(h, r, req, Delivered);
    var s := StoreSteps(r, req, Delivered);
    ExecSnoc(h, Empty(), s, ReadHead(r, Delivered));
    ExecSnoc(h, Empty(), s + [ReadHead(r, Delivered)], Append(r, Dropped));
    assert s + [ReadHead(r, Delivered)] + [Append(r, Dropped)] == AppendDropped(r, req);
    assert HeadHash([], req.peer) == None;
  }

  /** Neither the append nor the enqueue reaches the trust store. */
  lemma FailedEnqueueIsGap(h: Hashes, r: nat, req: Request)
    ensures var g := Exec(h, Empty(), AppendDropped(r, req) + [Defer(r, Dropped)]);
      UnrecordedBead(h, g, r) && At(g, r, Failed(EnqueueStep))
    ensures var g := Exec(h, Empty(), AppendDropped(r, req) + [CrashRun(r)]);
      UnrecordedBead(h, g, r) && At(g, r, Crashed(AppendFailed))
  {
    AfterAppendDropped(h, r, req);
    ExecSnoc(h, Empty(), AppendDropped(r, req), Defer(r, Dropped));
    ExecSnoc(h, Empty(), AppendDropped(r, req), CrashRun(r));
  }
}
