/**
 What the signed evidence goes through on its way to an attestation row: stored by the
 enqueue, claimed by a drain and written by either append (src/trust-store.ts:512-552,
 668-736, src/routes/bead-create-orchestrator.ts:331-422).
 */
module HandoffEvidence {
  import opened Wrappers
  import opened Order
  import opened Hashing
  import opened TrustTables
  import opened TrustStore
  import opened BeadHandoff
  import opened HandoffInvariant
  import opened HandoffResults
  import opened HandoffDelivery

  ghost predicate DrainStarted(events: seq<Event>, nowMs: int, contentType: string) {
    exists e :: e in events && e.DrainStart? && e.nowMs == nowMs && e.contentType == contentType
  }

  /** The row a drain writes: the request's evidence, no bead id or origins, stamped by the drain. */
  ghost predicate DrainedRow(h: Hashes, a: Attestation, req: Request, events: seq<Event>) {
    && a.peer == req.peer && a.contentHash == DigestOf(h, req) && a.evidence == req.evidence
    && a.beadId == None && a.origins == None && a.prevPeer == None
    && DrainStarted(events, a.createdAt, a.contentType)
  }

  ghost predicate RowTrue(h: Hashes, g: Global, events: seq<Event>, a: Attestation) {
    && a.writer in g.runs
    && (DirectRow(h, a, g.runs[a.writer].req, a.writer) || DrainedRow(h, a, g.runs[a.writer].req, events))
  }

  /** A pending row, in the table or in a drain's hands, as its request signed it. */
  predicate PendingTrue(h: Hashes, g: Global, p: Pending) {
    && p.writer in g.runs && p.peer == g.runs[p.writer].req.peer && p.contentHash == DigestOf(h, g.runs[p.writer].req)
    && p.evidence == g.runs[p.writer].req.evidence && p.createdAt == g.runs[p.writer].req.nowMs
  }

  ghost predicate RowsTrue(h: Hashes, g: Global, events: seq<Event>) {
    forall a | a in g.trust.attestations :: RowTrue(h, g, events, a)
  }

  ghost predicate AllPendingTrue(h: Hashes, g: Global, rows: seq<Pending>) {
    forall p | p in rows :: PendingTrue(h, g, p)
  }

  ghost predicate DrainTrue(h: Hashes, g: Global, events: seq<Event>, d: Drain) {
    AllPendingTrue(h, g, d.todo) && DrainStarted(events, d.nowMs, d.contentType)
  }

  ghost predicate DrainsTrue(h: Hashes, g: Global, events: seq<Event>) {
    forall k | k in g.drains :: DrainTrue(h, g, events, g.drains[k])
  }

  ghost predicate EvidenceKept(h: Hashes, g: Global, events: seq<Event>) {
    RowsTrue(h, g, events) && AllPendingTrue(h, g, g.trust.pending) && DrainsTrue(h, g, events)
  }

  // ---- More runs and more events keep what was true ----

  ghost predicate RequestsStay(g: Global, g': Global) {
    forall r | r in g.runs :: r in g'.runs && g'.runs[r].req == g.runs[r].req
  }

  lemma RowsStayTrue(h: Hashes, g: Global, g': Global, events: seq<Event>, e: Event)
    requires RowsTrue(h, g, events) && RequestsStay(g, g') && g'.trust.attestations == g.trust.attestations
    ensures RowsTrue(h, g', events + [e])
  {
    forall a | a in g'.trust.attestations ensures RowTrue(h, g', events + [e], a) {
      RowStaysTrue(h, g, g', events, e, a);
    }
  }

  lemma RowStaysTrue(h: Hashes, g: Global, g': Global, events: seq<Event>, e: Event, a: Attestation)
    requires RowTrue(h, g, events, a) && RequestsStay(g, g')
    ensures RowTrue(h, g', events + [e], a)
  {
    if DrainStarted(events, a.createdAt, a.contentType) { StartStays(events, e, a.createdAt, a.contentType); }
  }

  lemma StartStays(events: seq<Event>, e: Event, nowMs: int, contentType: string)
    requires DrainStarted(events, nowMs, contentType)
    ensures DrainStarted(events + [e], nowMs, contentType)
  {
    var s :| s in events && s.DrainStart? && s.nowMs == nowMs && s.contentType == contentType;
    assert s in events + [e];
  }

  lemma PendingStaysTrue(h: Hashes, g: Global, g': Global, rows: seq<Pending>)
    requires AllPendingTrue(h, g, rows) && RequestsStay(g, g')
    ensures AllPendingTrue(h, g', rows)
  {
  }

  lemma DrainStaysTrue(h: Hashes, g: Global, g': Global, events: seq<Event>, e: Event, d: Drain)
    requires DrainTrue(h, g, events, d) && RequestsStay(g, g')
    ensures DrainTrue(h, g', events + [e], d)
  {
    PendingStaysTrue(h, g, g', d.todo);
    StartStays(events, e, d.nowMs, d.contentType);
  }

  /** A step that leaves the drains alone, or only shortens what they hold. */
  lemma DrainsStayTrue(h: Hashes, g: Global, g': Global, events: seq<Event>, e: Event)
    requires DrainsTrue(h, g, events) && RequestsStay(g, g')
    requires forall k | k in g'.drains :: k in g.drains && SameDrain(g.drains[k], g'.drains[k])
    ensures DrainsTrue(h, g', events + [e])
  {
    forall k | k in g'.drains ensures DrainTrue(h, g', events + [e], g'.drains[k]) {
      DrainStaysTrue(h, g, g', events, e, g.drains[k]);
    }
  }

  ghost predicate SameDrain(d: Drain, d': Drain) {
    && d'.nowMs == d.nowMs && d'.contentType == d.contentType && forall p | p in d'.todo :: p in d.todo
  }

  /** A step that writes no trust row and takes no drain on. */
  lemma QuietStepKeeps(h: Hashes, g: Global, g': Global, events: seq<Event>, e: Event)
    requires EvidenceKept(h, g, events) && RequestsStay(g, g') && g'.trust == g.trust
    requires forall k | k in g'.drains :: k in g.drains && SameDrain(g.drains[k], g'.drains[k])
    ensures EvidenceKept(h, g', events + [e])
  {
    RowsStayTrue(h, g, g', events, e);
    PendingStaysTrue(h, g, g', g.trust.pending);
    DrainsStayTrue(h, g, g', events, e);
  }

  // ---- Steps that write rows ----

  /** Whoever appends: a true claim makes a true row. */
  lemma ApplyStaysTrue(h: Hashes, g: Global, g': Global, events: seq<Event>, e: Event, c: Claim, head: Option<Digest>)
    requires RowsTrue(h, g, events) && RequestsStay(g, g')
    requires g'.trust.attestations == Applied(g.trust.attestations, c, head)
    requires RowTrue(h, g', events + [e], NewRow(g.trust.attestations, c, head))
    ensures RowsTrue(h, g', events + [e])
  {
    var a := NewRow(g.trust.attestations, c, head);
    forall x | x in g'.trust.attestations ensures RowTrue(h, g', events + [e], x) {
      assert x in g.trust.attestations || x == a;
      if x in g.trust.attestations { RowStaysTrue(h, g, g', events, e, x); }
    }
  }

  lemma AppendKeepsEvidence(h: Hashes, g: Global, r: nat, fate: Fate, events: seq<Event>)
    requires EvidenceKept(h, g, events)
    ensures EvidenceKept(h, NextAppend(h, g, r, fate), events + [Append(r, fate)])
  {
    var g', e := NextAppend(h, g, r, fate), Append(r, fate);
    if r !in g.runs || !g.runs[r].stage.HeadRead? || fate.Dropped? {
      QuietStepKeeps(h, g, g', events, e);
    } else {
      var req, head := g.runs[r].req, g.runs[r].stage.head;
      assert g'.runs[r].req == req;
      assert DirectRow(h, NewRow(g.trust.attestations, AppendClaim(h, r, req), head), req, r);
      ApplyStaysTrue(h, g, g', events, e, AppendClaim(h, r, req), head);
      PendingStaysTrue(h, g, g', g.trust.pending);
      DrainsStayTrue(h, g, g', events, e);
    }
  }

  lemma DeferKeepsEvidence(h: Hashes, g: Global, r: nat, fate: Fate, events: seq<Event>)
    requires EvidenceKept(h, g, events)
    ensures EvidenceKept(h, NextDefer(h, g, r, fate), events + [Defer(r, fate)])
  {
    var g', e := NextDefer(h, g, r, fate), Defer(r, fate);
    if !At(g, r, AppendFailed) || fate.Dropped? {
      QuietStepKeeps(h, g, g', events, e);
    } else {
      assert g'.runs[r].req == g.runs[r].req;
      RowsStayTrue(h, g, g', events, e);
      DrainsStayTrue(h, g, g', events, e);
      PendingStaysTrue(h, g, g', g.trust.pending);
      forall p | p in g'.trust.pending ensures PendingTrue(h, g', p) {
        assert p in g.trust.pending || p == FreshPending(AppendClaim(h, r, g.runs[r].req));
      }
    }
  }

  lemma StartKeepsEvidence(h: Hashes, g: Global, k: nat, nowMs: int, contentType: string, limit: nat, events: seq<Event>)
    requires EvidenceKept(h, g, events) && KeysUnique(g.trust.pending)
    ensures EvidenceKept(h, NextDrainStart(g, k, nowMs, contentType, limit), events + [DrainStart(k, nowMs, contentType, limit)])
  {
    var g', e := NextDrainStart(g, k, nowMs, contentType, limit), DrainStart(k, nowMs, contentType, limit);
    RowsStayTrue(h, g, g', events, e);
    assert e in events + [e];
    assert DrainStarted(events + [e], nowMs, contentType);
    ClaimBatchExactly(g.trust.pending, nowMs, limit);
    forall j | j in g'.drains ensures DrainTrue(h, g', events + [e], g'.drains[j]) {
      if j in g.drains { DrainStaysTrue(h, g, g', events, e, g.drains[j]); }
    }
  }

  lemma GateKeepsEvidence(h: Hashes, g: Global, k: nat, throws: bool, events: seq<Event>)
    requires EvidenceKept(h, g, events)
    ensures EvidenceKept(h, NextDrainGate(g, k, throws), events + [DrainGate(k, throws)])
  {
    var g', e := NextDrainGate(g, k, throws), DrainGate(k, throws);
    if !Draining(g, k) || !g.drains[k].phase.HeadTaken? || throws {
      QuietStepKeeps(h, g, g', events, e);
    } else {
      GateRowTrue(h, g, g.drains[k], events, e);
      ApplyStaysTrue(h, g, g', events, e, RetryClaim(g.drains[k].todo[0], g.drains[k].nowMs, g.drains[k].contentType),
                     g.drains[k].phase.head);
      DrainsStayTrue(h, g, g', events, e);
    }
  }

  lemma GateRowTrue(h: Hashes, g: Global, d: Drain, events: seq<Event>, e: Event)
    requires DrainTrue(h, g, events, d) && d.todo != [] && d.phase.HeadTaken?
    ensures RowTrue(h, g, events + [e], NewRow(g.trust.attestations, RetryClaim(d.todo[0], d.nowMs, d.contentType), d.phase.head))
  {
    StartStays(events, e, d.nowMs, d.contentType);
    assert d.todo[0] in d.todo;
    assert PendingTrue(h, g, d.todo[0]);
  }

  lemma SettleKeepsEvidence(h: Hashes, g: Global, k: nat, events: seq<Event>)
    requires EvidenceKept(h, g, events)
    ensures EvidenceKept(h, NextDrainSettle(g, k), events + [DrainSettle(k)])
  {
    var g', e := NextDrainSettle(g, k), DrainSettle(k);
    RowsStayTrue(h, g, g', events, e);
    DrainsStayTrue(h, g, g', events, e);
    if Draining(g, k) && g.drains[k].phase.Gated? {
      var row, nowMs := g.drains[k].todo[0], g.drains[k].nowMs;
      SettledTrue(h, g, Commit(g.trust.pending, row.peer, row.contentHash));
      FailedTrue(h, g, row, nowMs);
    }
  }

  lemma SettledTrue(h: Hashes, g: Global, rows: seq<Pending>)
    requires AllPendingTrue(h, g, g.trust.pending) && forall p | p in rows :: p in g.trust.pending
    ensures AllPendingTrue(h, g, rows)
  {
  }

  lemma FailedTrue(h: Hashes, g: Global, row: Pending, nowMs: int)
    requires AllPendingTrue(h, g, g.trust.pending)
    ensures AllPendingTrue(h, g, RecordFailed(g.trust.pending, row.peer, row.contentHash, nowMs))
  {
    var r := RecordFailed(g.trust.pending, row.peer, row.contentHash, nowMs);
    forall p | p in r ensures PendingTrue(h, g, p) {
      var i :| 0 <= i < |r| && r[i] == p;
      assert PendingTrue(h, g, g.trust.pending[i]);
    }
  }

  lemma DrainStepKeepsEvidence(h: Hashes, g: Global, e: Event, events: seq<Event>)
    requires EvidenceKept(h, g, events) && KeysUnique(g.trust.pending) && !OfRun(e)
    ensures EvidenceKept(h, Next(h, g, e), events + [e])
  {
    match e
    case DrainStart(k, nowMs, contentType, limit) => StartKeepsEvidence(h, g, k, nowMs, contentType, limit, events);
    case DrainGate(k, throws) => GateKeepsEvidence(h, g, k, throws, events);
    case DrainSettle(k) => SettleKeepsEvidence(h, g, k, events);
    case _ => QuietStepKeeps(h, g, Next(h, g, e), events, e);
  }

  ghost predicate TrustUntouched(g: Global, g': Global) {
    RequestsStay(g, g') && g'.trust == g.trust && g'.drains == g.drains
  }

  lemma PutTouchesNoTrust(h: Hashes, g: Global, r: nat, fate: Fate)
    ensures TrustUntouched(g, NextPut(h, g, r, fate))
  {
  }

  lemma InsertTouchesNoTrust(h: Hashes, g: Global, r: nat, fate: Fate)
    ensures TrustUntouched(g, NextInsert(h, g, r, fate))
  {
  }

  lemma ReadsTouchNoTrust(g: Global, r: nat, fate: Fate)
    ensures TrustUntouched(g, NextReadHead(g, r, fate)) && TrustUntouched(g, NextCrash(g, r))
  {
  }

  lemma BeginTouchesNoTrust(h: Hashes, g: Global, r: nat, req: Request)
    ensures TrustUntouched(g, Next(h, g, Begin(r, req)))
  {
  }

  lemma PlainRunStep(h: Hashes, g: Global, e: Event)
    requires OfRun(e) && !e.Append? && !e.Defer?
    ensures TrustUntouched(g, Next(h, g, e))
  {
    hide TrustUntouched, NextPut, NextInsert, NextReadHead, NextCrash;
    match e
    case Begin(r, req) => BeginTouchesNoTrust(h, g, r, req);
    case Put(r, fate) => PutTouchesNoTrust(h, g, r, fate);
    case Insert(r, fate) => InsertTouchesNoTrust(h, g, r, fate);
    case ReadHead(r, fate) => ReadsTouchNoTrust(g, r, fate);
    case CrashRun(r) => ReadsTouchNoTrust(g, r, Delivered);
  }

  lemma RunStepKeepsEvidence(h: Hashes, g: Global, e: Event, events: seq<Event>)
    requires EvidenceKept(h, g, events) && OfRun(e)
    ensures EvidenceKept(h, Next(h, g, e), events + [e])
  {
    match e
    case Append(r, fate) => AppendKeepsEvidence(h, g, r, fate, events);
    case Defer(r, fate) => DeferKeepsEvidence(h, g, r, fate, events);
    case _ =>
      hide Next, EvidenceKept, RequestsStay;
      PlainRunStep(h, g, e);
      QuietStepKeeps(h, g, Next(h, g, e), events, e);
  }

  /**
   In every reachable state each attestation and each pending row, also those a drain
   holds, carries exactly the evidence its request signed; an attestation is the request's
   own append or a drain's, with the columns of that one.
   */
  lemma {:induction false} EvidenceReachesRows(h: Hashes, events: seq<Event>)
    ensures EvidenceKept(h, Exec(h, Empty(), events), events)
  {
    if events != [] {
      var front, e := events[..|events| - 1], events[|events| - 1];
      var g := Exec(h, Empty(), front);
      EvidenceReachesRows(h, front);
      assert front + [e] == events;
      ReachableInv(h, front);
      if OfRun(e) { RunStepKeepsEvidence(h, g, e, front); } else { DrainStepKeepsEvidence(h, g, e, front); }
    }
  }

  // ---- The store alone ----

  /** The row the store appends for a claimed row. */
  predicate RetriedRow(a: Attestation, row: Pending, nowMs: int, contentType: string) {
    && a.peer == row.peer && a.contentHash == row.contentHash && a.evidence == row.evidence && a.writer == row.writer
    && a.contentType == contentType && a.createdAt == nowMs
    && a.beadId == None && a.origins == None && a.prevPeer == None
  }

  ghost predicate RowsAppended(t: Tables, u: Tables, batch: seq<Pending>, nowMs: int, contentType: string) {
    && |u.attestations| == |t.attestations| + |batch| && t.attestations <= u.attestations
    && forall i | 0 <= i < |batch| :: RetriedRow(u.attestations[|t.attestations| + i], batch[i], nowMs, contentType)
  }

  lemma QuietRowAppends(t: Tables, row: Pending, nowMs: int, contentType: string)
    ensures var u := DrainRow(t, row, Turn([], false, []), nowMs, contentType);
      && |u.attestations| == |t.attestations| + 1 && t.attestations <= u.attestations
      && RetriedRow(u.attestations[|t.attestations|], row, nowMs, contentType)
  {
    assert AfterWrites(t, []) == t;
  }

  lemma NoRowsAppended(t: Tables, nowMs: int, contentType: string)
    ensures RowsAppended(t, t, [], nowMs, contentType)
  {
  }

  lemma RowsAppendedSnoc(t: Tables, mid: Tables, u: Tables, batch: seq<Pending>, nowMs: int, contentType: string)
    requires batch != [] && RowsAppended(t, mid, batch[..|batch| - 1], nowMs, contentType)
    requires |u.attestations| == |mid.attestations| + 1 && mid.attestations <= u.attestations
    requires RetriedRow(u.attestations[|mid.attestations|], batch[|batch| - 1], nowMs, contentType)
    ensures RowsAppended(t, u, batch, nowMs, contentType)
  {
    var n, k := |batch| - 1, |t.attestations|;
    forall i | 0 <= i < |batch| ensures RetriedRow(u.attestations[k + i], batch[i], nowMs, contentType) {
      if i < n {
        assert u.attestations[k + i] == mid.attestations[k + i];
        assert RetriedRow(mid.attestations[k + i], batch[..n][i], nowMs, contentType);
      }
    }
  }

  /** An undisturbed drain appends one row for each claimed row, in claim order, with that row's evidence. */
  lemma {:induction false} QuietDrainAppendsRows(t: Tables, batch: seq<Pending>, turns: nat -> Turn,
                                                 nowMs: int, contentType: string)
    requires Quiet(turns)
    ensures RowsAppended(t, DrainAll(t, batch, turns, nowMs, contentType), batch, nowMs, contentType)
  {
    hide RowsAppended, DrainRow;
    if batch == [] {
      NoRowsAppended(t, nowMs, contentType);
    } else {
      var n := |batch| - 1;
      var mid := DrainAll(t, batch[..n], turns, nowMs, contentType);
      QuietDrainAppendsRows(t, batch[..n], turns, nowMs, contentType);
      assert turns(n) == Turn([], false, []);
      QuietRowAppends(mid, batch[n], nowMs, contentType);
      RowsAppendedSnoc(t, mid, DrainRow(mid, batch[n], turns(n), nowMs, contentType), batch, nowMs, contentType);
    }
  }

  // ---- A drain that nobody disturbs ----

  function RowSteps(k: nat, n: nat): seq<Event> {
    if n == 0 then [] else RowSteps(k, n - 1) + [DrainHead(k), DrainGate(k, false), DrainSettle(k)]
  }

  /** After `n` rows. */
  ghost predicate Drained(g: Global, g': Global, k: nat, batch: seq<Pending>, n: nat, turns: nat -> Turn,
                          nowMs: int, contentType: string)
    requires n <= |batch|
  {
    && k in g'.drains && g'.drains[k] == Drain(batch[n..], Idle, nowMs, contentType)
    && g'.trust == DrainAll(g.trust, batch[..n], turns, nowMs, contentType)
    && g'.blobs == g.blobs && g'.beads == g.beads && g'.runs == g.runs
  }

  lemma DrainedOneMore(h: Hashes, g: Global, g': Global, k: nat, batch: seq<Pending>, n: nat, turns: nat -> Turn,
                       nowMs: int, contentType: string)
    requires n < |batch| && Quiet(turns) && Drained(g, g', k, batch, n, turns, nowMs, contentType)
    ensures Drained(g, Exec(h, g', [DrainHead(k), DrainGate(k, false), DrainSettle(k)]), k, batch, n + 1, turns, nowMs, contentType)
  {
    hide Exec, DrainRow;
    DrainStepsAreOneRow(h, g', k, false);
    DrainOneMore(g.trust, batch, n, turns, nowMs, contentType);
    assert turns(n) == Turn([], false, []);
    assert batch[n..][0] == batch[n] && batch[n..][1..] == batch[n + 1..];
  }

  lemma {:induction false} DrainedAll(h: Hashes, g: Global, g': Global, k: nat, batch: seq<Pending>, n: nat, turns: nat -> Turn,
                                      nowMs: int, contentType: string)
    requires n <= |batch| && Quiet(turns) && Drained(g, g', k, batch, 0, turns, nowMs, contentType)
    ensures Drained(g, Exec(h, g', RowSteps(k, n)), k, batch, n, turns, nowMs, contentType)
    decreases n
  {
    hide Drained;
    if n == 0 {
      assert Exec(h, g', []) == g';
    } else {
      hide Exec;
      DrainedAll(h, g, g', k, batch, n - 1, turns, nowMs, contentType);
      ExecAppend(h, g', RowSteps(k, n - 1), [DrainHead(k), DrainGate(k, false), DrainSettle(k)]);
      DrainedOneMore(h, g, Exec(h, g', RowSteps(k, n - 1)), k, batch, n - 1, turns, nowMs, contentType);
    }
  }

  lemma DrainBegins(h: Hashes, g: Global, k: nat, turns: nat -> Turn, nowMs: int, contentType: string, limit: nat)
    requires k !in g.drains
    ensures Drained(g, Exec(h, g, [DrainStart(k, nowMs, contentType, limit)]), k, ClaimBatch(g.trust.pending, nowMs, limit), 0,
                    turns, nowMs, contentType)
  {
    ExecOne(h, g, DrainStart(k, nowMs, contentType, limit));
    var batch := ClaimBatch(g.trust.pending, nowMs, limit);
    assert batch[0..] == batch && batch[..0] == [];
  }

  /** The rows a drain takes: distinct due rows, earliest first, and no due row is passed over below the limit. */
  ghost predicate TakesDue(batch: seq<Pending>, rows: seq<Pending>, nowMs: int, limit: nat) {
    && |batch| <= limit && SortedBy(batch, EarlierRetry) && (forall p | p in batch :: p in rows && Due(p, nowMs))
    && (forall p | p in rows && Due(p, nowMs) && p !in batch :: |batch| == limit)
  }

  /**
   From every reachable state, a drain that runs to its end undisturbed attests all the due
   rows it may take: one row for each, in order, with its evidence, on its peer's chain;
   exactly those keys leave the pending table.
   */
  lemma UndisturbedDrain(h: Hashes, events: seq<Event>, k: nat, nowMs: int, contentType: string, limit: nat)
    requires k !in Exec(h, Empty(), events).drains
    ensures var g := Exec(h, Empty(), events);
      exists batch :: && TakesDue(batch, g.trust.pending, nowMs, limit)
        && var after := Exec(h, g, [DrainStart(k, nowMs, contentType, limit)] + RowSteps(k, |batch|));
           && RowsAppended(g.trust, after.trust, batch, nowMs, contentType)
           && ChainsExtended(g.trust, after.trust, batch) && KeysRemoved(g.trust, after.trust, batch)
           && after.runs == g.runs
  {
    var g, batch := Exec(h, Empty(), events), ClaimBatch(Exec(h, Empty(), events).trust.pending, nowMs, limit);
    var turns := (i: nat) => Turn([], false, []);
    ReachableSound(h, events);
    hide Exec, ClaimBatch, DrainAll, RowsAppended, ChainsExtended, KeysRemoved;
    DrainBegins(h, g, k, turns, nowMs, contentType, limit);
    ExecAppend(h, g, [DrainStart(k, nowMs, contentType, limit)], RowSteps(k, |batch|));
    DrainedAll(h, g, Exec(h, g, [DrainStart(k, nowMs, contentType, limit)]), k, batch, |batch|, turns, nowMs, contentType);
    assert batch[..|batch|] == batch;
    ClaimBatchExactly(g.trust.pending, nowMs, limit);
    ClaimedArePending(g.trust, nowMs, limit);
    QuietDrainCommitsAll(g.trust, batch, turns, nowMs, contentType);
    QuietDrainAppendsRows(g.trust, batch, turns, nowMs, contentType);
    assert TakesDue(batch, g.trust.pending, nowMs, limit);
  }
}
