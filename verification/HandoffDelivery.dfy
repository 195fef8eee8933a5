/**
 What an undisturbed request gets: the steps that see the head they were promised, and
 what foreign steps in between can change (src/routes/bead-create-orchestrator.ts:313-422).
 */
module HandoffDelivery {
  import opened Wrappers
  import opened Hashing
  import opened TrustTables
  import opened TrustStore
  import opened BeadHandoff
  import opened HandoffInvariant
  import opened HandoffResults

  /** An event of somebody else's run, drain or store call. */
  predicate Foreign(e: Event, r: nat) {
    match e
    case Begin(q, _) => q != r
    case Put(q, _) => q != r
    case Insert(q, _) => q != r
    case ReadHead(q, _) => q != r
    case Append(q, _) => q != r
    case Defer(q, _) => q != r
    case CrashRun(q) => q != r
    case _ => true
  }

  lemma ForeignLeavesRun(h: Hashes, g: Global, e: Event, r: nat)
    requires Foreign(e, r) && r in g.runs
    ensures r in Next(h, g, e).runs && Next(h, g, e).runs[r] == g.runs[r]
  {
    if !OfRun(e) { OthersLeaveRuns(h, g, e); }
  }

  lemma OthersLeaveRuns(h: Hashes, g: Global, e: Event)
    requires !OfRun(e)
    ensures Next(h, g, e).runs == g.runs
  {
  }

  lemma {:induction false} ForeignersLeaveRun(h: Hashes, g: Global, others: seq<Event>, r: nat)
    requires r in g.runs && forall e | e in others :: Foreign(e, r)
    ensures r in Exec(h, g, others).runs && Exec(h, g, others).runs[r] == g.runs[r]
  {
    if others != [] {
      var front := others[..|others| - 1];
      ForeignersLeaveRun(h, g, front, r);
      ForeignLeavesRun(h, Exec(h, g, front), others[|others| - 1], r);
    }
  }

  lemma ExecTwo(h: Hashes, g: Global, e1: Event, e2: Event)
    ensures Exec(h, g, [e1, e2]) == Next(h, Next(h, g, e1), e2)
  {
    ExecSnoc(h, g, [e1], e2);
    ExecOne(h, g, e1);
    assert [e1] + [e2] == [e1, e2];
  }

  /** The end of the peer's chain. */
  function HeadOf(g: Global, peer: Peer): Option<Digest> { ChainHead(ChainOf(g.trust.attestations, peer)) }

  /** The content hashes of the peer's chain. */
  function HashesFor(g: Global, peer: Peer): seq<Digest> { HashesOf(ChainOf(g.trust.attestations, peer)) }

  /** The row a run's own append writes. */
  predicate DirectRow(h: Hashes, a: Attestation, req: Request, r: nat) {
    && a.writer == r && a.peer == req.peer && a.contentHash == DigestOf(h, req)
    && a.evidence == req.evidence && a.contentType == "bead/v1" && a.createdAt == req.nowMs
    && a.beadId == Some(req.key.id) && a.origins == req.origins && a.prevPeer == None
  }

  /** One more row, on this run's chain only, and nothing else in the trust store. */
  ghost predicate AppendedOnly(h: Hashes, g: Global, after: Global, req: Request, r: nat) {
    && after.trust.pending == g.trust.pending
    && |after.trust.attestations| == |g.trust.attestations| + 1
    && g.trust.attestations <= after.trust.attestations
    && DirectRow(h, after.trust.attestations[|g.trust.attestations|], req, r)
    && HashesFor(after, req.peer) == HashesFor(g, req.peer) + [DigestOf(h, req)]
    && forall peer | peer != req.peer :: HashesFor(after, peer) == HashesFor(g, peer)
  }

  lemma AppendOnHead(h: Hashes, g: Global, r: nat, fate: Fate)
    requires Sound(g.trust) && r in g.runs && g.runs[r].stage.HeadRead? && !fate.Dropped?
    ensures var req, after := g.runs[r].req, NextAppend(h, g, r, fate);
      var same := g.runs[r].stage.head == HeadOf(g, req.peer);
      && r in after.runs && after.runs[r].req == req && after.runs[r].appended == same
      && after.runs[r].stage == (if same && fate.Delivered? then Succeeded else AppendFailed)
      && (same ==> AppendedOnly(h, g, after, req, r)) && (!same ==> after.trust == g.trust)
  {
    var req, head, after := g.runs[r].req, g.runs[r].stage.head, NextAppend(h, g, r, fate);
    var c := AppendClaim(h, r, req);
    HeadIsChainHead(g.trust.attestations, c, head);
    if head == HeadOf(g, req.peer) { MatchingAppend(h, g, after, r, head); }
  }

  lemma MatchingAppend(h: Hashes, g: Global, after: Global, r: nat, head: Option<Digest>)
    requires Sound(g.trust) && r in g.runs && HeadHash(g.trust.attestations, g.runs[r].req.peer) == head
    requires after.trust == g.trust.(attestations := Applied(g.trust.attestations, AppendClaim(h, r, g.runs[r].req), head))
    ensures AppendedOnly(h, g, after, g.runs[r].req, r)
  {
    var c := AppendClaim(h, r, g.runs[r].req);
    AppendedAfter(g.trust.attestations, c, head);
    ApplyKeepsChains(g.trust.attestations, c, head);
  }

  lemma HeadReadIsChainEnd(h: Hashes, g: Global, r: nat)
    requires Sound(g.trust) && At(g, r, Inserted)
    ensures var after := NextReadHead(g, r, Delivered);
      after.trust == g.trust && At(after, r, HeadRead(HeadOf(g, g.runs[r].req.peer))) && after.runs[r].req == g.runs[r].req
  {
    HeadIsChainHead(g.trust.attestations, AppendClaim(h, r, g.runs[r].req), None);
  }

  lemma ReachableSound(h: Hashes, events: seq<Event>)
    ensures Sound(Exec(h, Empty(), events).trust)
  {
    ReachableInv(h, events);
  }

  lemma ReadThenAppend(h: Hashes, g: Global, r: nat)
    requires Sound(g.trust) && At(g, r, Inserted)
    ensures var after := NextAppend(h, NextReadHead(g, r, Delivered), r, Delivered);
      At(after, r, Succeeded) && after.runs[r].appended && AppendedOnly(h, g, after, g.runs[r].req, r)
      && after.runs[r].req == g.runs[r].req && after.beads == g.beads && after.blobs == g.blobs
  {
    HeadReadIsChainEnd(h, g, r);
    AppendOnHead(h, NextReadHead(g, r, Delivered), r, Delivered);
  }

  /**
   From every reachable state, whatever the peer's chain holds: a delivered head read
   followed at once by a delivered append puts the digest at the end of the peer's chain,
   and the pending table is not touched.
   */
  lemma UndisturbedAppendSucceeds(h: Hashes, events: seq<Event>, r: nat)
    requires At(Exec(h, Empty(), events), r, Inserted)
    ensures var g := Exec(h, Empty(), events);
      var after := Exec(h, g, [ReadHead(r, Delivered), Append(r, Delivered)]);
      At(after, r, Succeeded) && after.runs[r].appended && AppendedOnly(h, g, after, g.runs[r].req, r)
  {
    hide Sound, AppendedOnly, Exec, NextAppend, NextReadHead;
    var g := Exec(h, Empty(), events);
    ReachableSound(h, events);
    ExecTwo(h, g, ReadHead(r, Delivered), Append(r, Delivered));
    ReadThenAppend(h, g, r);
  }

  /**
   With anything foreign between the two: the append is executed exactly when the peer's
   chain ends, at the append, where it ended at the read; refused, it changes no table.
   */
  lemma AppendedExactlyOnSameHead(h: Hashes, events: seq<Event>, others: seq<Event>, r: nat, fate: Fate)
    requires At(Exec(h, Empty(), events), r, Inserted) && !fate.Dropped? && forall e | e in others :: Foreign(e, r)
    ensures var g := Exec(h, Empty(), events);
      var req, mid := g.runs[r].req, Exec(h, Empty(), events + [ReadHead(r, Delivered)] + others);
      var after := Exec(h, Empty(), events + [ReadHead(r, Delivered)] + others + [Append(r, fate)]);
      var same := HeadOf(mid, req.peer) == HeadOf(g, req.peer);
      && r in after.runs && after.runs[r].appended == same
      && after.runs[r].stage == (if same && fate.Delivered? then Succeeded else AppendFailed)
      && (same ==> AppendedOnly(h, mid, after, req, r)) && (!same ==> after.trust == mid.trust)
  {
    hide Sound, AppendedOnly, Exec, HeadOf, NextAppend, NextReadHead;
    var g := Exec(h, Empty(), events);
    var read := events + [ReadHead(r, Delivered)];
    ReachableSound(h, events);
    ReachableSound(h, read + others);
    ExecSnoc(h, Empty(), events, ReadHead(r, Delivered));
    HeadReadIsChainEnd(h, g, r);
    ExecAppend(h, Empty(), read, others);
    ForeignersLeaveRun(h, Exec(h, Empty(), read), others, r);
    ExecSnoc(h, Empty(), read + others, Append(r, fate));
    AppendOnHead(h, Exec(h, Empty(), read + others), r, fate);
  }

  /** The row a run's enqueue writes when the key is free. */
  predicate QueuedRow(h: Hashes, p: Pending, req: Request, r: nat) {
    && p.writer == r && p.peer == req.peer && p.contentHash == DigestOf(h, req) && p.evidence == req.evidence
    && p.attempts == 0 && p.createdAt == req.nowMs && p.nextRetryAt == req.nowMs + 30000 && p.lastAttemptAt == None
  }

  /**
   A delivered enqueue after a failed append succeeds: one pending row with the signed
   evidence, due half a minute later, unless the key is already queued; no chain changes.
   */
  lemma UndisturbedDeferSucceeds(h: Hashes, g: Global, r: nat)
    requires At(g, r, AppendFailed)
    ensures var req, after := g.runs[r].req, Exec(h, g, [Defer(r, Delivered)]);
      var rows := g.trust.pending;
      && At(after, r, Succeeded) && after.runs[r].queued && after.trust.attestations == g.trust.attestations
      && (HasPending(rows, req.peer, DigestOf(h, req)) ==> after.trust == g.trust)
      && (!HasPending(rows, req.peer, DigestOf(h, req)) ==>
            && |after.trust.pending| == |rows| + 1 && rows <= after.trust.pending
            && QueuedRow(h, after.trust.pending[|rows|], req, r))
  {
    ExecOne(h, g, Defer(r, Delivered));
  }

  function CreateSteps(r: nat, req: Request): seq<Event> {
    [Begin(r, req), Put(r, Delivered), Insert(r, Delivered), ReadHead(r, Delivered), Append(r, Delivered)]
  }

  lemma ExecCreate(h: Hashes, g: Global, r: nat, req: Request)
    ensures var g1 := Exec(h, g, StoreSteps(r, req, Delivered));
      Exec(h, g, CreateSteps(r, req)) == Exec(h, g1, [ReadHead(r, Delivered), Append(r, Delivered)])
  {
    ExecAppend(h, g, StoreSteps(r, req, Delivered), [ReadHead(r, Delivered), Append(r, Delivered)]);
    assert StoreSteps(r, req, Delivered) + [ReadHead(r, Delivered), Append(r, Delivered)] == CreateSteps(r, req);
  }

  lemma AfterStore(h: Hashes, g: Global, r: nat, req: Request)
    requires r !in g.runs && req.key !in g.beads
    ensures Exec(h, g, StoreSteps(r, req, Delivered))
            == g.(blobs := PutBlob(g.blobs, DigestOf(h, req), req.bytes), beads := g.beads[req.key := Some(DigestOf(h, req))],
                  runs := g.runs[r := Run(req, Inserted, true, false, false)])
  {
    ThreeEvents(h, g, Begin(r, req), Put(r, Delivered), Insert(r, Delivered));
    var begun := g.(runs := g.runs[r := NewRun(req)]);
    var stored := NextPut(h, begun, r, Delivered);
    assert stored.runs[r] == NewRun(req).(stage := Stored);
    assert NextInsert(h, stored, r, Delivered).runs == g.runs[r := Run(req, Inserted, true, false, false)];
  }

  /**
   The whole request from every reachable state, for a free primary key: blob and bead are
   stored under its digest, and its digest is the new end of the peer's chain.
   */
  lemma UndisturbedCreateSucceeds(h: Hashes, events: seq<Event>, r: nat, req: Request)
    requires var g := Exec(h, Empty(), events); r !in g.runs && req.key !in g.beads
    ensures var g := Exec(h, Empty(), events);
      var after := Exec(h, g, CreateSteps(r, req));
      && At(after, r, Succeeded) && after.runs[r].req == req && AppendedOnly(h, g, after, req, r)
      && after.beads == g.beads[req.key := Some(DigestOf(h, req))]
      && DigestOf(h, req) in after.blobs && Matches(h, DigestOf(h, req), after.blobs[DigestOf(h, req)])
  {
    hide Sound, AppendedOnly, Exec, NextAppend, NextReadHead;
    var g := Exec(h, Empty(), events);
    ExecCreate(h, g, r, req);
    var g1 := Exec(h, g, StoreSteps(r, req, Delivered));
    AfterStore(h, g, r, req);
    ReachableSound(h, events);
    ExecTwo(h, g1, ReadHead(r, Delivered), Append(r, Delivered));
    ReadThenAppend(h, g1, r);
    AppendedOnlySees(h, g, g1, Exec(h, g, CreateSteps(r, req)), req, r);
    ReachableInv(h, events);
    BlobIsHashed(h, g, req);
  }

  lemma AppendedOnlySees(h: Hashes, g: Global, g1: Global, after: Global, req: Request, r: nat)
    requires AppendedOnly(h, g1, after, req, r) && g1.trust == g.trust
    ensures AppendedOnly(h, g, after, req, r)
  {
  }

  lemma BlobIsHashed(h: Hashes, g: Global, req: Request)
    requires BlobsHashed(h, g)
    ensures var blobs := PutBlob(g.blobs, DigestOf(h, req), req.bytes);
      DigestOf(h, req) in blobs && Matches(h, DigestOf(h, req), blobs[DigestOf(h, req)])
  {
  }

  // ---- Lost replies and failed calls ----

  /** The three stores hold the same. */
  predicate SameStores(g: Global, g': Global) { g.blobs == g'.blobs && g.beads == g'.beads && g.trust == g'.trust }

  /** A lost reply changes nothing about what the store wrote, and a failed call writes nothing: put and insert. */
  lemma StoreCallFates(h: Hashes, g: Global, r: nat)
    ensures SameStores(NextPut(h, g, r, Lost), NextPut(h, g, r, Delivered)) && SameStores(NextPut(h, g, r, Dropped), g)
    ensures At(g, r, Started) ==> At(NextPut(h, g, r, Lost), r, Failed(PutStep)) && At(NextPut(h, g, r, Dropped), r, Failed(PutStep))
    ensures SameStores(NextInsert(h, g, r, Lost), NextInsert(h, g, r, Delivered)) && SameStores(NextInsert(h, g, r, Dropped), g)
    ensures At(g, r, Stored) ==>
              At(NextInsert(h, g, r, Lost), r, Failed(InsertStep)) && At(NextInsert(h, g, r, Dropped), r, Failed(InsertStep))
  {
  }

  /** The same for the append and the enqueue: after either kind of failed append the run goes on to the enqueue. */
  lemma TrustCallFates(h: Hashes, g: Global, r: nat)
    ensures SameStores(NextAppend(h, g, r, Lost), NextAppend(h, g, r, Delivered)) && SameStores(NextAppend(h, g, r, Dropped), g)
    ensures r in g.runs && g.runs[r].stage.HeadRead? ==>
              At(NextAppend(h, g, r, Lost), r, AppendFailed) && At(NextAppend(h, g, r, Dropped), r, AppendFailed)
    ensures SameStores(NextDefer(h, g, r, Lost), NextDefer(h, g, r, Delivered)) && SameStores(NextDefer(h, g, r, Dropped), g)
    ensures At(g, r, AppendFailed) ==>
              At(NextDefer(h, g, r, Lost), r, Failed(EnqueueStep)) && At(NextDefer(h, g, r, Dropped), r, Failed(EnqueueStep))
  {
  }
}
