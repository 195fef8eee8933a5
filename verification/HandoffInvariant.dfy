/**
 Every step of the handoff machine keeps its invariant and takes nothing back: one
 lemma per step, joined in NextKeeps.
 */
module HandoffInvariant {
  import opened Wrappers
  import opened Hashing
  import opened TrustTables
  import opened TrustStore
  import opened BeadHandoff

  // ---- Growth carries the invariant's parts along ----

  lemma BackedGrows(h: Hashes, g: Global, g': Global)
    requires Grew(g, g')
    ensures forall p: Peer, d: Digest, w: nat :: Backed(h, g, p, d, w) ==> Backed(h, g', p, d, w)
    ensures forall rows :: PendingBacked(h, g, rows) ==> PendingBacked(h, g', rows)
  {
    forall rows: seq<Pending> | PendingBacked(h, g, rows) ensures PendingBacked(h, g', rows) {
      forall p | p in rows ensures Backed(h, g', p.peer, p.contentHash, p.writer) && g'.runs[p.writer].queued {
        assert RunAdvances(g.runs[p.writer], g'.runs[p.writer]);
      }
    }
  }

  lemma AttestedGrowsAll(t: Tables, u: Tables)
    requires t.attestations <= u.attestations
    ensures forall p: Peer, d: Digest :: Attested(t, p, d) ==> Attested(u, p, d)
  {
    forall p: Peer, d: Digest | Attested(t, p, d) ensures Attested(u, p, d) { AttestedGrows(t, u, p, d); }
  }

  /** Steps that leave the trust tables alone keep everything said about them. */
  lemma TrustPartsKept(h: Hashes, g: Global, g': Global)
    requires Inv(h, g) && Grew(g, g') && g'.trust == g.trust
    requires forall r | r in g'.runs && Landed(g'.runs[r]) :: r in g.runs && Landed(g.runs[r])
    requires forall k | k in g'.drains && !(k in g.drains && g'.drains[k] == g.drains[k]) :: DrainOk(h, g', g'.drains[k])
    requires BlobsHashed(h, g') && RunsBacked(h, g')
    ensures Inv(h, g')
  {
    BackedGrows(h, g, g');
  }

  lemma RunStepBacked(h: Hashes, g: Global, g': Global, r: nat)
    requires RunsBacked(h, g) && Grew(g, g') && r in g'.runs && RunBacked(h, g', g'.runs[r])
    requires forall q | q in g'.runs && q != r :: q in g.runs && g'.runs[q] == g.runs[q]
    ensures RunsBacked(h, g')
  {
    forall q | q in g'.runs ensures RunBacked(h, g', g'.runs[q]) {
      if q != r { assert RunBacked(h, g, g.runs[q]); }
    }
  }

  /** A run's step that touches no trust row. */
  lemma StoreStepKeeps(h: Hashes, g: Global, g': Global, r: nat)
    requires Inv(h, g) && r in g'.runs && RunBacked(h, g', g'.runs[r])
    requires Landed(g'.runs[r]) ==> r in g.runs && Landed(g.runs[r])
    requires g'.trust == g.trust && g'.drains == g.drains && BlobsHashed(h, g')
    requires g'.runs == g.runs[r := g'.runs[r]]
    requires r in g.runs ==> RunAdvances(g.runs[r], g'.runs[r])
    requires forall d | d in g.blobs :: d in g'.blobs && g'.blobs[d] == g.blobs[d]
    requires forall k | k in g.beads :: k in g'.beads && g'.beads[k] == g.beads[k]
    ensures Inv(h, g') && Grew(g, g')
  {
    RunReflexive(g);
    RunStepBacked(h, g, g', r);
    TrustPartsKept(h, g, g');
  }

  lemma RunReflexive(g: Global)
    ensures forall r | r in g.runs :: RunAdvances(g.runs[r], g.runs[r])
  {
  }

  lemma PutKeeps(h: Hashes, g: Global, r: nat, fate: Fate)
    requires Inv(h, g)
    ensures var g' := NextPut(h, g, r, fate); Inv(h, g') && Grew(g, g')
  {
    if At(g, r, Started) { StoreStepKeeps(h, g, NextPut(h, g, r, fate), r); }
  }

  lemma InsertKeeps(h: Hashes, g: Global, r: nat, fate: Fate)
    requires Inv(h, g)
    ensures var g' := NextInsert(h, g, r, fate); Inv(h, g') && Grew(g, g')
  {
    if At(g, r, Stored) {
      assert RunBacked(h, g, g.runs[r]);
      StoreStepKeeps(h, g, NextInsert(h, g, r, fate), r);
    }
  }

  lemma ReadHeadKeeps(h: Hashes, g: Global, r: nat, fate: Fate)
    requires Inv(h, g)
    ensures var g' := NextReadHead(g, r, fate); Inv(h, g') && Grew(g, g')
  {
    if At(g, r, Inserted) {
      assert RunBacked(h, g, g.runs[r]);
      StoreStepKeeps(h, g, NextReadHead(g, r, fate), r);
    }
  }

  lemma CrashKeeps(h: Hashes, g: Global, r: nat)
    requires Inv(h, g)
    ensures var g' := NextCrash(g, r); Inv(h, g') && Grew(g, g')
  {
    if r in g.runs && Running(g.runs[r].stage) {
      assert RunBacked(h, g, g.runs[r]);
      StoreStepKeeps(h, g, NextCrash(g, r), r);
    }
  }

  lemma BeginKeeps(h: Hashes, g: Global, r: nat, req: Request)
    requires Inv(h, g) && r !in g.runs
    ensures var g' := g.(runs := g.runs[r := NewRun(req)]); Inv(h, g') && Grew(g, g')
  {
    StoreStepKeeps(h, g, g.(runs := g.runs[r := NewRun(req)]), r);
  }

  // ---- Steps that write trust rows ----

  lemma AppendedBacked(h: Hashes, g: Global, g': Global, c: Claim, head: Option<Digest>)
    requires AttestationsBacked(h, g) && Grew(g, g')
    requires g'.trust.attestations == Applied(g.trust.attestations, c, head)
    requires Apply(g.trust.attestations, c, head).Ok? ==> Backed(h, g', c.peer, c.contentHash, c.writer)
    ensures AttestationsBacked(h, g')
    ensures Apply(g.trust.attestations, c, head).Ok? ==> Attested(g'.trust, c.peer, c.contentHash)
  {
    BackedGrows(h, g, g');
    var a := NewRow(g.trust.attestations, c, head);
    if Apply(g.trust.attestations, c, head).Ok? {
      assert a in g'.trust.attestations;
      assert a.peer == c.peer && a.contentHash == c.contentHash && a.writer == c.writer;
    }
    forall r | r in g'.trust.attestations ensures Backed(h, g', r.peer, r.contentHash, r.writer) {
      assert r in g.trust.attestations || (Apply(g.trust.attestations, c, head).Ok? && r == a);
    }
  }

  lemma DrainsGrow(h: Hashes, g: Global, g': Global)
    requires Grew(g, g')
    ensures forall d | DrainOk(h, g, d) :: DrainOk(h, g', d)
  {
    BackedGrows(h, g, g');
    AttestedGrowsAll(g.trust, g'.trust);
  }

  /** What an append must keep, whoever makes it. */
  lemma AppendKeepsRows(h: Hashes, g: Global, g': Global, c: Claim, head: Option<Digest>)
    requires Inv(h, g) && Grew(g, g')
    requires g'.trust == g.trust.(attestations := Applied(g.trust.attestations, c, head))
    requires Apply(g.trust.attestations, c, head).Ok? ==> Backed(h, g', c.peer, c.contentHash, c.writer)
    ensures Sound(g'.trust) && AttestationsBacked(h, g') && PendingBacked(h, g', g'.trust.pending)
    ensures Apply(g.trust.attestations, c, head).Ok? ==> Attested(g'.trust, c.peer, c.contentHash)
    ensures forall p: Peer, d: Digest :: Recorded(g.trust, p, d) ==> Recorded(g'.trust, p, d)
    ensures forall d | DrainOk(h, g, d) :: DrainOk(h, g', d)
  {
    ApplyKeepsChains(g.trust.attestations, c, head);
    AppendedBacked(h, g, g', c, head);
    DrainsGrow(h, g, g');
    BackedGrows(h, g, g');
    AttestedGrowsAll(g.trust, g'.trust);
  }

  /** Runs that had landed stay recorded, and the one that moved is recorded if it landed. */
  lemma LandedStays(h: Hashes, g: Global, g': Global, r: nat)
    requires LandedRecorded(h, g) && r in g.runs && r in g'.runs && g'.runs == g.runs[r := g'.runs[r]]
    requires g'.runs[r].req == g.runs[r].req
    requires forall p: Peer, d: Digest :: Recorded(g.trust, p, d) ==> Recorded(g'.trust, p, d)
    requires Landed(g'.runs[r]) ==> Recorded(g'.trust, g.runs[r].req.peer, DigestOf(h, g.runs[r].req))
    ensures LandedRecorded(h, g')
  {
    forall q | q in g'.runs && Landed(g'.runs[q])
      ensures Recorded(g'.trust, g'.runs[q].req.peer, DigestOf(h, g'.runs[q].req))
    {
      if q != r { assert g'.runs[q] == g.runs[q]; }
    }
  }

  lemma AppliedExtends(rows: seq<Attestation>, c: Claim, head: Option<Digest>)
    ensures rows <= Applied(rows, c, head)
  {
  }

  lemma AppendGrew(h: Hashes, g: Global, r: nat, fate: Fate)
    requires Inv(h, g) && r in g.runs && g.runs[r].stage.HeadRead?
    ensures Grew(g, NextAppend(h, g, r, fate))
    ensures RunBacked(h, NextAppend(h, g, r, fate), NextAppend(h, g, r, fate).runs[r])
  {
    var g' := NextAppend(h, g, r, fate);
    assert RunBacked(h, g, g.runs[r]);
    AppliedExtends(g.trust.attestations, AppendClaim(h, r, g.runs[r].req), g.runs[r].stage.head);
    assert RunAdvances(g.runs[r], g'.runs[r]);
  }

  lemma AppendKeeps(h: Hashes, g: Global, r: nat, fate: Fate)
    requires Inv(h, g)
    ensures var g' := NextAppend(h, g, r, fate); Inv(h, g') && Grew(g, g')
  {
    if r in g.runs && g.runs[r].stage.HeadRead? {
      AppendGrew(h, g, r, fate);
      if fate.Dropped? {
        AppendDroppedKeeps(h, g, r);
      } else {
        AppendRunKeeps(h, g, r, fate);
      }
    }
  }

  lemma AppendDroppedKeeps(h: Hashes, g: Global, r: nat)
    requires Inv(h, g) && r in g.runs && g.runs[r].stage.HeadRead?
    requires Grew(g, NextAppend(h, g, r, Dropped))
    requires RunBacked(h, NextAppend(h, g, r, Dropped), NextAppend(h, g, r, Dropped).runs[r])
    ensures Inv(h, NextAppend(h, g, r, Dropped))
  {
    var g' := NextAppend(h, g, r, Dropped);
    RunStepBacked(h, g, g', r);
    TrustPartsKept(h, g, g');
  }

  lemma AppendRunKeeps(h: Hashes, g: Global, r: nat, fate: Fate)
    requires Inv(h, g) && r in g.runs && g.runs[r].stage.HeadRead? && !fate.Dropped?
    requires Grew(g, NextAppend(h, g, r, fate))
    requires RunBacked(h, NextAppend(h, g, r, fate), NextAppend(h, g, r, fate).runs[r])
    ensures Inv(h, NextAppend(h, g, r, fate))
  {
    var g' := NextAppend(h, g, r, fate);
    assert RunConsistent(g.runs[r]) by { assert RunBacked(h, g, g.runs[r]); }
    AppendKeepsRows(h, g, g', AppendClaim(h, r, g.runs[r].req), g.runs[r].stage.head);
    RunStepBacked(h, g, g', r);
    LandedStays(h, g, g', r);
  }

  lemma DeferGrew(h: Hashes, g: Global, r: nat, fate: Fate)
    requires Inv(h, g) && At(g, r, AppendFailed)
    ensures Grew(g, NextDefer(h, g, r, fate))
    ensures RunBacked(h, NextDefer(h, g, r, fate), NextDefer(h, g, r, fate).runs[r])
  {
    assert RunBacked(h, g, g.runs[r]);
  }

  lemma DeferKeepsRows(h: Hashes, g: Global, g': Global, c: Claim)
    requires Inv(h, g) && Grew(g, g')
    requires g'.trust == g.trust.(pending := Enqueue(g.trust.pending, c))
    requires Backed(h, g', c.peer, c.contentHash, c.writer) && g'.runs[c.writer].queued
    ensures Sound(g'.trust) && AttestationsBacked(h, g') && PendingBacked(h, g', g'.trust.pending)
    ensures Recorded(g'.trust, c.peer, c.contentHash)
    ensures forall p: Peer, d: Digest :: Recorded(g.trust, p, d) ==> Recorded(g'.trust, p, d)
    ensures forall d | DrainOk(h, g, d) :: DrainOk(h, g', d)
  {
    EnqueueKeeps(g.trust.pending, c);
    BackedGrows(h, g, g');
    DrainsGrow(h, g, g');
    AttestedGrowsAll(g.trust, g'.trust);
  }

  lemma DeferKeeps(h: Hashes, g: Global, r: nat, fate: Fate)
    requires Inv(h, g)
    ensures var g' := NextDefer(h, g, r, fate); Inv(h, g') && Grew(g, g')
  {
    if At(g, r, AppendFailed) {
      var g' := NextDefer(h, g, r, fate);
      DeferGrew(h, g, r, fate);
      if fate.Dropped? {
        RunStepBacked(h, g, g', r);
        TrustPartsKept(h, g, g');
      } else {
        DeferKeepsRows(h, g, g', AppendClaim(h, r, g.runs[r].req));
        RunStepBacked(h, g, g', r);
        LandedStays(h, g, g', r);
      }
    }
  }

  lemma DrainStartKeeps(h: Hashes, g: Global, k: nat, nowMs: int, contentType: string, limit: nat)
    requires Inv(h, g)
    ensures var g' := NextDrainStart(g, k, nowMs, contentType, limit); Inv(h, g') && Grew(g, g')
  {
    if k !in g.drains {
      ClaimBatchExactly(g.trust.pending, nowMs, limit);
      TrustPartsKept(h, g, NextDrainStart(g, k, nowMs, contentType, limit));
    }
  }

  lemma DrainHeadKeeps(h: Hashes, g: Global, k: nat)
    requires Inv(h, g)
    ensures var g' := NextDrainHead(g, k); Inv(h, g') && Grew(g, g')
  {
    if Draining(g, k) && g.drains[k].phase.Idle? {
      assert DrainOk(h, g, g.drains[k]);
      TrustPartsKept(h, g, NextDrainHead(g, k));
    }
  }

  lemma GateGrew(h: Hashes, g: Global, k: nat)
    requires Inv(h, g) && Draining(g, k) && g.drains[k].phase.HeadTaken?
    ensures Grew(g, NextDrainGate(g, k, false))
  {
    var d := g.drains[k];
    AppliedExtends(g.trust.attestations, RetryClaim(d.todo[0], d.nowMs, d.contentType), d.phase.head);
  }

  lemma DrainGateKeeps(h: Hashes, g: Global, k: nat, throws: bool)
    requires Inv(h, g)
    ensures var g' := NextDrainGate(g, k, throws); Inv(h, g') && Grew(g, g')
  {
    if Draining(g, k) && g.drains[k].phase.HeadTaken? {
      var g', d := NextDrainGate(g, k, throws), g.drains[k];
      assert DrainOk(h, g, d);
      if throws {
        TrustPartsKept(h, g, g');
      } else {
        GateGrew(h, g, k);
        GateAppendKeeps(h, g, k);
      }
    }
  }

  lemma GateAppendKeeps(h: Hashes, g: Global, k: nat)
    requires Inv(h, g) && Draining(g, k) && g.drains[k].phase.HeadTaken? && DrainOk(h, g, g.drains[k])
    requires Grew(g, NextDrainGate(g, k, false))
    ensures Inv(h, NextDrainGate(g, k, false))
  {
    var g', d := NextDrainGate(g, k, false), g.drains[k];
    var c := RetryClaim(d.todo[0], d.nowMs, d.contentType);
    assert d.todo[0] in d.todo;
    BackedGrows(h, g, g');
    AppendKeepsRows(h, g, g', c, d.phase.head);
    RunsCarryOver(h, g, g');
    assert DrainOk(h, g', g'.drains[k]);
    forall j | j in g'.drains ensures DrainOk(h, g', g'.drains[j]) {
      if j != k { assert DrainOk(h, g, g.drains[j]); }
    }
  }

  lemma RunsCarryOver(h: Hashes, g: Global, g': Global)
    requires RunsBacked(h, g) && g'.blobs == g.blobs && g'.beads == g.beads && g'.runs == g.runs
    ensures RunsBacked(h, g')
  {
    forall r | r in g'.runs ensures RunBacked(h, g', g'.runs[r]) { assert RunBacked(h, g, g.runs[r]); }
  }

  lemma DrainSettleKeeps(h: Hashes, g: Global, k: nat)
    requires Inv(h, g)
    ensures var g' := NextDrainSettle(g, k); Inv(h, g') && Grew(g, g')
  {
    if Draining(g, k) && g.drains[k].phase.Gated? {
      var g', d := NextDrainSettle(g, k), g.drains[k];
      var row := d.todo[0];
      assert DrainOk(h, g, d);
      SettledPending(g.trust.pending, row, d.phase.ok, d.nowMs);
      BackedGrows(h, g, g');
      AttestedGrowsAll(g.trust, g'.trust);
      forall p: Peer, hash: Digest | Recorded(g.trust, p, hash) ensures Recorded(g'.trust, p, hash) {
      }
    }
  }

  predicate SameOrigin(p: Pending, q: Pending) {
    q.peer == p.peer && q.contentHash == p.contentHash && q.writer == p.writer
  }

  lemma SettledPending(rows: seq<Pending>, row: Pending, ok: bool, nowMs: int)
    requires KeysUnique(rows)
    ensures var r := if ok then Commit(rows, row.peer, row.contentHash)
                     else RecordFailed(rows, row.peer, row.contentHash, nowMs);
      && KeysUnique(r)
      && (forall p | p in r :: exists q :: q in rows && SameOrigin(p, q))
      && (forall p: Peer, d: Digest :: HasPending(rows, p, d) ==>
            HasPending(r, p, d) || (ok && p == row.peer && d == row.contentHash))
  {
    CommitKeepsUnique(rows, row.peer, row.contentHash);
    CommitKeepsOthers(rows, row.peer, row.contentHash);
    RecordFailedKeepsKeys(rows, row.peer, row.contentHash, nowMs);
    var r := RecordFailed(rows, row.peer, row.contentHash, nowMs);
    forall p | p in r ensures exists q :: q in rows && SameOrigin(p, q) {
      var i :| 0 <= i < |r| && r[i] == p;
      assert rows[i] in rows;
    }
  }

  lemma DrainCrashKeeps(h: Hashes, g: Global, k: nat)
    requires Inv(h, g)
    ensures var g' := NextDrainCrash(g, k); Inv(h, g') && Grew(g, g')
  {
    var g' := NextDrainCrash(g, k);
    RunsCarryOver(h, g, g');
    TrustPartsKept(h, g, g');
  }

  lemma OtherPutKeeps(h: Hashes, g: Global, digest: Digest, bytes: Bytes)
    requires Inv(h, g)
    ensures var g' := NextOtherPut(h, g, digest, bytes); Inv(h, g') && Grew(g, g')
  {
    OtherStoreKeeps(h, g, NextOtherPut(h, g, digest, bytes));
  }

  lemma OtherBeadKeeps(h: Hashes, g: Global, key: Key, hash: Option<Digest>)
    requires Inv(h, g) && key !in g.beads
    ensures var g' := g.(beads := g.beads[key := hash]); Inv(h, g') && Grew(g, g')
  {
    OtherStoreKeeps(h, g, g.(beads := g.beads[key := hash]));
  }

  lemma GrewReflexive(g: Global)
    ensures Grew(g, g)
  {
  }

  predicate OfRun(e: Event) {
    e.Begin? || e.Put? || e.Insert? || e.ReadHead? || e.Append? || e.Defer? || e.CrashRun?
  }

  lemma RunEventKeeps(h: Hashes, g: Global, e: Event)
    requires Inv(h, g) && OfRun(e)
    ensures Inv(h, Next(h, g, e)) && Grew(g, Next(h, g, e))
  {
    GrewReflexive(g);
    match e
    case Begin(r, req) => if r !in g.runs { BeginKeeps(h, g, r, req); }
    case Put(r, fate) => PutKeeps(h, g, r, fate);
    case Insert(r, fate) => InsertKeeps(h, g, r, fate);
    case ReadHead(r, fate) => ReadHeadKeeps(h, g, r, fate);
    case Append(r, fate) => AppendKeeps(h, g, r, fate);
    case Defer(r, fate) => DeferKeeps(h, g, r, fate);
    case CrashRun(r) => CrashKeeps(h, g, r);
  }

  lemma DrainEventKeeps(h: Hashes, g: Global, e: Event)
    requires Inv(h, g) && !OfRun(e)
    ensures Inv(h, Next(h, g, e)) && Grew(g, Next(h, g, e))
  {
    GrewReflexive(g);
    match e
    case DrainStart(k, nowMs, contentType, limit) => DrainStartKeeps(h, g, k, nowMs, contentType, limit);
    case DrainHead(k) => DrainHeadKeeps(h, g, k);
    case DrainGate(k, throws) => DrainGateKeeps(h, g, k, throws);
    case DrainSettle(k) => DrainSettleKeeps(h, g, k);
    case DrainCrash(k) => DrainCrashKeeps(h, g, k);
    case OtherPut(digest, bytes) => OtherPutKeeps(h, g, digest, bytes);
    case OtherBead(key, hash) => if key !in g.beads { OtherBeadKeeps(h, g, key, hash); }
  }

  /** Every step of anybody preserves the invariant and takes nothing back. */
  lemma NextKeeps(h: Hashes, g: Global, e: Event)
    requires Inv(h, g)
    ensures Inv(h, Next(h, g, e)) && Grew(g, Next(h, g, e))
  {
    if OfRun(e) { RunEventKeeps(h, g, e); } else { DrainEventKeeps(h, g, e); }
  }

  lemma OtherStoreKeeps(h: Hashes, g: Global, g': Global)
    requires Inv(h, g) && Grew(g, g') && BlobsHashed(h, g')
    requires g'.trust == g.trust && g'.runs == g.runs && g'.drains == g.drains
    ensures Inv(h, g')
  {
    forall r | r in g'.runs ensures RunBacked(h, g', g'.runs[r]) { assert RunBacked(h, g, g.runs[r]); }
    TrustPartsKept(h, g, g');
  }
}
