/**
 How often the `bead_create` handoff attests one run's bead: the append of the run itself
 plus every drain turn that appends the run's pending row.
 */
module HandoffCounts {
  import opened Wrappers
  import opened Order
  import opened Hashing
  import opened TrustTables
  import opened TrustStore
  import opened BeadHandoff
  import opened HandoffInvariant
  import opened HandoffResults

  /** Attestation rows that carry run `r`'s evidence. */
  function RowsBy(rows: seq<Attestation>, r: nat): nat {
    if rows == [] then 0
    else RowsBy(rows[..|rows| - 1], r) + (if rows[|rows| - 1].writer == r then 1 else 0)
  }

  function AttestationsBy(g: Global, r: nat): nat { RowsBy(g.trust.attestations, r) }

  /** The drain turn appends a row of run `r`. */
  predicate GateHits(g: Global, e: Event, r: nat) {
    && e.DrainGate? && !e.throws && Draining(g, e.drain) && g.drains[e.drain].phase.HeadTaken?
    && var d := g.drains[e.drain];
       && d.todo[0].writer == r
       && Apply(g.trust.attestations, RetryClaim(d.todo[0], d.nowMs, d.contentType), d.phase.head).Ok?
  }

  function GateCount(h: Hashes, events: seq<Event>, r: nat): nat {
    if events == [] then 0
    else
      var front := events[..|events| - 1];
      GateCount(h, front, r) + (if GateHits(Exec(h, Empty(), front), events[|events| - 1], r) then 1 else 0)
  }

  function Appends(g: Global, r: nat): nat { if r in g.runs && g.runs[r].appended then 1 else 0 }

  // ---- The count ----

  lemma RowsByApplied(rows: seq<Attestation>, c: Claim, head: Option<Digest>, r: nat)
    ensures RowsBy(Applied(rows, c, head), r)
            == RowsBy(rows, r) + (if Apply(rows, c, head).Ok? && c.writer == r then 1 else 0)
  {
    assert (rows + [NewRow(rows, c, head)])[..|rows|] == rows;
  }

  ghost predicate CountedStep(h: Hashes, g: Global, e: Event, r: nat) {
    var g' := Next(h, g, e);
    AttestationsBy(g', r) + Appends(g, r) == AttestationsBy(g, r) + Appends(g', r) + (if GateHits(g, e, r) then 1 else 0)
  }

  lemma AppendTakes(h: Hashes, g: Global, q: nat, fate: Fate)
    requires q in g.runs && g.runs[q].stage.HeadRead? && !g.runs[q].appended && !fate.Dropped?
    ensures var g', c, head := NextAppend(h, g, q, fate), AppendClaim(h, q, g.runs[q].req), g.runs[q].stage.head;
      && g'.trust.attestations == Applied(g.trust.attestations, c, head)
      && forall r :: Appends(g', r) - Appends(g, r) == if Apply(g.trust.attestations, c, head).Ok? && r == q then 1 else 0
  {
  }

  lemma AppendCounts(h: Hashes, g: Global, q: nat, fate: Fate, r: nat)
    requires Inv(h, g)
    ensures CountedStep(h, g, Append(q, fate), r)
  {
    if q in g.runs && g.runs[q].stage.HeadRead? && !fate.Dropped? {
      assert !g.runs[q].appended by { assert RunBacked(h, g, g.runs[q]); }
      AppendTakes(h, g, q, fate);
      RowsByApplied(g.trust.attestations, AppendClaim(h, q, g.runs[q].req), g.runs[q].stage.head, r);
    } else {
      assert NextAppend(h, g, q, fate).trust == g.trust;
    }
  }

  lemma GateCounts(h: Hashes, g: Global, k: nat, throws: bool, r: nat)
    ensures CountedStep(h, g, DrainGate(k, throws), r)
  {
    if Draining(g, k) && g.drains[k].phase.HeadTaken? && !throws {
      var d := g.drains[k];
      RowsByApplied(g.trust.attestations, RetryClaim(d.todo[0], d.nowMs, d.contentType), d.phase.head, r);
    }
  }

  /** A step that leaves the trust store, the drains and the trust flags of run `r` alone. */
  ghost predicate TrustUntouched(g: Global, g': Global, r: nat) {
    && g'.trust == g.trust && g'.drains == g.drains
    && (r in g.runs ==> r in g'.runs && g'.runs[r].req == g.runs[r].req
                        && g'.runs[r].appended == g.runs[r].appended && g'.runs[r].queued == g.runs[r].queued)
    && (r in g'.runs && r !in g.runs ==> !g'.runs[r].appended && !g'.runs[r].queued)
  }

  lemma InsertLeavesTrust(h: Hashes, g: Global, q: nat, fate: Fate, r: nat)
    ensures TrustUntouched(g, NextInsert(h, g, q, fate), r)
  {
  }

  lemma PutLeavesTrust(h: Hashes, g: Global, q: nat, fate: Fate, r: nat)
    ensures TrustUntouched(g, NextPut(h, g, q, fate), r)
  {
  }

  lemma HeadAndCrashLeaveTrust(g: Global, q: nat, fate: Fate, r: nat)
    ensures TrustUntouched(g, NextReadHead(g, q, fate), r) && TrustUntouched(g, NextCrash(g, q), r)
  {
  }

  lemma StoreEventsLeaveTrust(h: Hashes, g: Global, e: Event, r: nat)
    requires OfRun(e) && !e.Append? && !e.Defer?
    ensures TrustUntouched(g, Next(h, g, e), r)
  {
    match e
    case Begin(q, req) =>
    case Put(q, fate) => PutLeavesTrust(h, g, q, fate, r);
    case Insert(q, fate) => InsertLeavesTrust(h, g, q, fate, r);
    case ReadHead(q, fate) => HeadAndCrashLeaveTrust(g, q, fate, r);
    case CrashRun(q) => HeadAndCrashLeaveTrust(g, q, Delivered, r);
  }

  lemma DeferDoesNotCount(h: Hashes, g: Global, q: nat, fate: Fate, r: nat)
    ensures CountedStep(h, g, Defer(q, fate), r)
  {
    assert NextDefer(h, g, q, fate).trust.attestations == g.trust.attestations;
  }

  lemma RunEventsDoNotCount(h: Hashes, g: Global, e: Event, r: nat)
    requires OfRun(e) && !e.Append?
    ensures CountedStep(h, g, e, r)
  {
    if e.Defer? { DeferDoesNotCount(h, g, e.run, e.fate, r); } else { StoreEventsLeaveTrust(h, g, e, r); }
  }

  lemma DrainEventsDoNotCount(h: Hashes, g: Global, e: Event, r: nat)
    requires !OfRun(e) && !e.DrainGate?
    ensures CountedStep(h, g, e, r)
  {
    var g' := Next(h, g, e);
    assert g'.trust.attestations == g.trust.attestations;
    assert g'.runs == g.runs;
  }

  lemma StepCounts(h: Hashes, g: Global, e: Event, r: nat)
    requires Inv(h, g)
    ensures CountedStep(h, g, e, r)
  {
    match e
    case Append(q, fate) => AppendCounts(h, g, q, fate, r);
    case DrainGate(k, throws) => GateCounts(h, g, k, throws, r);
    case _ => if OfRun(e) { RunEventsDoNotCount(h, g, e, r); } else { DrainEventsDoNotCount(h, g, e, r); }
  }

  /** Attestations of a run: its own executed append, plus the drain turns that appended its pending row. */
  lemma {:induction false} AttestationsCounted(h: Hashes, events: seq<Event>, r: nat)
    ensures AttestationsBy(Exec(h, Empty(), events), r) == Appends(Exec(h, Empty(), events), r) + GateCount(h, events, r)
  {
    if events != [] {
      var front := events[..|events| - 1];
      AttestationsCounted(h, front, r);
      ReachableInv(h, front);
      StepCounts(h, Exec(h, Empty(), front), events[|events| - 1], r);
    }
  }

  // ---- When the count is zero or one for good ----

  lemma GateNeedsQueued(h: Hashes, g: Global, e: Event, r: nat)
    requires Inv(h, g) && GateHits(g, e, r)
    ensures r in g.runs && g.runs[r].queued
  {
    assert DrainOk(h, g, g.drains[e.drain]);
    assert g.drains[e.drain].todo[0] in g.drains[e.drain].todo;
  }

  lemma {:induction false} UnqueuedIsNotRetried(h: Hashes, events: seq<Event>, r: nat)
    ensures var g := Exec(h, Empty(), events); GateCount(h, events, r) > 0 ==> r in g.runs && g.runs[r].queued
  {
    if events != [] {
      var front, last := events[..|events| - 1], events[|events| - 1];
      var g := Exec(h, Empty(), front);
      UnqueuedIsNotRetried(h, front, r);
      ReachableInv(h, front);
      NextKeeps(h, g, last);
      if GateHits(g, last, r) { GateNeedsQueued(h, g, last, r); }
    }
  }

  /** An ended run that never enqueued is attested once if its append was executed and never otherwise, for good. */
  lemma UnqueuedCount(h: Hashes, events: seq<Event>, more: seq<Event>, r: nat)
    requires var g := Exec(h, Empty(), events); r in g.runs && !Running(g.runs[r].stage) && !g.runs[r].queued
    ensures AttestationsBy(Exec(h, Empty(), events + more), r)
            == if Exec(h, Empty(), events).runs[r].appended then 1 else 0
  {
    EndedRunStays(h, events, more, r);
    AttestationsCounted(h, events + more, r);
    UnqueuedIsNotRetried(h, events + more, r);
  }

  // ---- Where the drain turns that appended a row end ----

  /** The drain has appended a row of run `r` and not yet deleted it. */
  predicate StandsOn(d: Drain, r: nat) { d.phase == Gated(true) && d.todo != [] && d.todo[0].writer == r }

  /** The drains that stand between their append and their delete. */
  function Standing(g: Global, r: nat): set<nat> { set k | k in g.drains && StandsOn(g.drains[k], r) }

  predicate Removes(g: Global, e: Event, r: nat) {
    e.DrainSettle? && e.drain in g.drains && StandsOn(g.drains[e.drain], r)
  }

  predicate Stops(g: Global, e: Event, r: nat) { e.DrainCrash? && e.drain in g.drains && StandsOn(g.drains[e.drain], r) }

  /** Drain turns that appended a row of run `r` and went on to delete it. */
  function RemovedCount(h: Hashes, events: seq<Event>, r: nat): nat {
    if events == [] then 0
    else
      var front := events[..|events| - 1];
      RemovedCount(h, front, r) + (if Removes(Exec(h, Empty(), front), events[|events| - 1], r) then 1 else 0)
  }

  /** Drains that stopped between the two. */
  function StoppedCount(h: Hashes, events: seq<Event>, r: nat): nat {
    if events == [] then 0
    else
      var front := events[..|events| - 1];
      StoppedCount(h, front, r) + (if Stops(Exec(h, Empty(), front), events[|events| - 1], r) then 1 else 0)
  }

  ghost predicate TurnsBalance(h: Hashes, g: Global, e: Event, r: nat) {
    |Standing(g, r)| + (if GateHits(g, e, r) then 1 else 0)
    == |Standing(Next(h, g, e), r)| + (if Removes(g, e, r) then 1 else 0) + (if Stops(g, e, r) then 1 else 0)
  }

  ghost predicate OnlyDrainMoves(g: Global, g': Global, k: nat) {
    forall j | j != k :: (j in g'.drains <==> j in g.drains) && (j in g.drains ==> g'.drains[j] == g.drains[j])
  }

  lemma StandingMoves(g: Global, g': Global, k: nat, r: nat)
    requires OnlyDrainMoves(g, g', k)
    ensures |Standing(g', r)| + (if k in Standing(g, r) then 1 else 0)
            == |Standing(g, r)| + (if k in Standing(g', r) then 1 else 0)
  {
    var s, s' := Standing(g, r), Standing(g', r);
    assert s - {k} == s' - {k};
    WithoutOne(s, k);
    WithoutOne(s', k);
  }

  lemma WithoutOne(s: set<nat>, k: nat)
    ensures |s| == |s - {k}| + (if k in s then 1 else 0)
  {
    if k in s { assert s == (s - {k}) + {k}; } else { assert s == s - {k}; }
  }

  lemma GateMovesOne(h: Hashes, g: Global, k: nat, throws: bool, r: nat)
    ensures var g' := NextDrainGate(g, k, throws);
      && OnlyDrainMoves(g, g', k)
      && (GateHits(g, DrainGate(k, throws), r) ==> k !in Standing(g, r) && k in Standing(g', r))
      && (!GateHits(g, DrainGate(k, throws), r) ==> (k in Standing(g, r) <==> k in Standing(g', r)))
  {
  }

  lemma SettleMovesOne(g: Global, k: nat, r: nat)
    ensures var g' := NextDrainSettle(g, k);
      OnlyDrainMoves(g, g', k) && k !in Standing(g', r) && (Removes(g, DrainSettle(k), r) <==> k in Standing(g, r))
  {
  }

  lemma CrashMovesOne(g: Global, k: nat, r: nat)
    ensures var g' := NextDrainCrash(g, k);
      OnlyDrainMoves(g, g', k) && k !in Standing(g', r) && (Stops(g, DrainCrash(k), r) <==> k in Standing(g, r))
  {
  }

  lemma LateDrainEvents(h: Hashes, g: Global, e: Event, r: nat)
    requires e.DrainGate? || e.DrainSettle? || e.DrainCrash?
    ensures TurnsBalance(h, g, e, r)
  {
    match e
    case DrainGate(k, throws) =>
      GateMovesOne(h, g, k, throws, r);
      StandingMoves(g, NextDrainGate(g, k, throws), k, r);
    case DrainSettle(k) =>
      SettleMovesOne(g, k, r);
      StandingMoves(g, NextDrainSettle(g, k), k, r);
    case DrainCrash(k) =>
      CrashMovesOne(g, k, r);
      StandingMoves(g, NextDrainCrash(g, k), k, r);
  }

  lemma OthersBalance(h: Hashes, g: Global, e: Event, r: nat)
    requires !e.DrainGate? && !e.DrainSettle? && !e.DrainCrash?
    ensures TurnsBalance(h, g, e, r)
  {
    if OfRun(e) { RunEventsLeaveDrains(h, g, e); } else { EarlyDrainEvents(h, g, e, r); }
  }

  lemma RunEventsLeaveDrains(h: Hashes, g: Global, e: Event)
    requires OfRun(e)
    ensures Next(h, g, e).drains == g.drains
  {
  }

  lemma EarlyDrainEvents(h: Hashes, g: Global, e: Event, r: nat)
    requires !OfRun(e) && !e.DrainGate? && !e.DrainSettle? && !e.DrainCrash?
    ensures Standing(Next(h, g, e), r) == Standing(g, r)
  {
    var g' := Next(h, g, e);
    forall k ensures k in Standing(g', r) <==> k in Standing(g, r) {
      assert k in g'.drains && g'.drains[k].phase.Gated? ==> k in g.drains && g'.drains[k] == g.drains[k];
      assert k in g.drains && g.drains[k].phase.Gated? ==> k in g'.drains && g'.drains[k] == g.drains[k];
    }
  }

  /** Every drain turn that appended a row of the run has deleted it, has stopped before that, or stands there now. */
  lemma {:induction false} GateTurnsEnd(h: Hashes, events: seq<Event>, r: nat)
    ensures GateCount(h, events, r)
            == RemovedCount(h, events, r) + StoppedCount(h, events, r) + |Standing(Exec(h, Empty(), events), r)|
  {
    if events == [] {
      assert Standing(Empty(), r) == {};
    } else {
      var front, last := events[..|events| - 1], events[|events| - 1];
      var g := Exec(h, Empty(), front);
      GateTurnsEnd(h, front, r);
      if last.DrainGate? || last.DrainSettle? || last.DrainCrash? {
        LateDrainEvents(h, g, last, r);
      } else {
        OthersBalance(h, g, last, r);
      }
    }
  }

  // ---- A queued row leaves the table only behind an append ----

  ghost predicate OnlyWriter(h: Hashes, g: Global, peer: Peer, hash: Digest, r: nat) {
    forall q | q in g.runs && Landed(g.runs[q]) && SameClaim(h, g.runs[q], peer, hash) :: q == r
  }

  ghost predicate QueuedFor(h: Hashes, g: Global, peer: Peer, hash: Digest, r: nat) {
    r in g.runs && g.runs[r].queued && SameClaim(h, g.runs[r], peer, hash)
  }

  /** The queued row is pending or was removed. */
  ghost predicate Accounted(h: Hashes, g: Global, peer: Peer, hash: Digest, r: nat, removed: bool) {
    removed || (QueuedFor(h, g, peer, hash, r) ==> HasPending(g.trust.pending, peer, hash))
  }

  lemma DeferAccounts(h: Hashes, g: Global, q: nat, fate: Fate, peer: Peer, hash: Digest, r: nat)
    requires Accounted(h, g, peer, hash, r, false)
    ensures Accounted(h, NextDefer(h, g, q, fate), peer, hash, r, false)
  {
    if At(g, q, AppendFailed) && !fate.Dropped? {
      EnqueueKeeps(g.trust.pending, AppendClaim(h, q, g.runs[q].req));
    }
  }

  lemma AppendAccounts(h: Hashes, g: Global, q: nat, fate: Fate, peer: Peer, hash: Digest, r: nat)
    requires Accounted(h, g, peer, hash, r, false)
    ensures Accounted(h, NextAppend(h, g, q, fate), peer, hash, r, false)
  {
    var g' := NextAppend(h, g, q, fate);
    assert g'.trust.pending == g.trust.pending;
    assert r in g'.runs ==> r in g.runs && g'.runs[r].queued == g.runs[r].queued && g'.runs[r].req == g.runs[r].req;
  }

  lemma RunEventAccounts(h: Hashes, g: Global, e: Event, peer: Peer, hash: Digest, r: nat)
    requires OfRun(e) && Accounted(h, g, peer, hash, r, false)
    ensures Accounted(h, Next(h, g, e), peer, hash, r, false)
  {
    match e
    case Defer(q, fate) => DeferAccounts(h, g, q, fate, peer, hash, r);
    case Append(q, fate) => AppendAccounts(h, g, q, fate, peer, hash, r);
    case _ => StoreEventsLeaveTrust(h, g, e, r);
  }

  /** A delete takes the row of the drain's own claim, and under one writer that is the run's. */
  lemma SettleAccounts(h: Hashes, g: Global, k: nat, peer: Peer, hash: Digest, r: nat)
    requires Inv(h, g) && OnlyWriter(h, g, peer, hash, r) && Accounted(h, g, peer, hash, r, false)
    ensures Accounted(h, NextDrainSettle(g, k), peer, hash, r, Removes(g, DrainSettle(k), r))
  {
    if Draining(g, k) && g.drains[k].phase.Gated? {
      var d := g.drains[k];
      var row := d.todo[0];
      SettledPending(g.trust.pending, row, d.phase.ok, d.nowMs);
      assert DrainOk(h, g, d) && row in d.todo;
      if d.phase.ok && row.peer == peer && row.contentHash == hash {
        assert SameClaim(h, g.runs[row.writer], peer, hash);
      }
    }
  }

  lemma OtherEventAccounts(h: Hashes, g: Global, e: Event, peer: Peer, hash: Digest, r: nat)
    requires !OfRun(e) && !e.DrainSettle? && Accounted(h, g, peer, hash, r, false)
    ensures Accounted(h, Next(h, g, e), peer, hash, r, false)
  {
    var g' := Next(h, g, e);
    assert g'.trust.pending == g.trust.pending && g'.runs == g.runs;
  }

  lemma StepAccounts(h: Hashes, g: Global, e: Event, peer: Peer, hash: Digest, r: nat, removed: bool)
    requires Inv(h, g) && OnlyWriter(h, g, peer, hash, r) && Accounted(h, g, peer, hash, r, removed)
    ensures Accounted(h, Next(h, g, e), peer, hash, r, removed || Removes(g, e, r))
  {
    if removed {
    } else if OfRun(e) {
      RunEventAccounts(h, g, e, peer, hash, r);
    } else {
      match e
      case DrainSettle(k) => SettleAccounts(h, g, k, peer, hash, r);
      case _ => OtherEventAccounts(h, g, e, peer, hash, r);
    }
  }

  lemma {:induction false} AllAccounted(h: Hashes, events: seq<Event>, peer: Peer, hash: Digest, r: nat)
    requires OnlyWriter(h, Exec(h, Empty(), events), peer, hash, r)
    ensures Accounted(h, Exec(h, Empty(), events), peer, hash, r, RemovedCount(h, events, r) > 0)
  {
    if events != [] {
      var front := events[..|events| - 1];
      var g := Exec(h, Empty(), front);
      ReachableInv(h, front);
      NextKeeps(h, g, events[|events| - 1]);
      EarlierOnlyWriter(h, g, Exec(h, Empty(), events), peer, hash, r);
      AllAccounted(h, front, peer, hash, r);
      StepAccounts(h, g, events[|events| - 1], peer, hash, r, RemovedCount(h, front, r) > 0);
    }
  }

  lemma EarlierOnlyWriter(h: Hashes, g: Global, g': Global, peer: Peer, hash: Digest, r: nat)
    requires Grew(g, g') && OnlyWriter(h, g', peer, hash, r)
    ensures OnlyWriter(h, g, peer, hash, r)
  {
    forall q | q in g.runs && Landed(g.runs[q]) && SameClaim(h, g.runs[q], peer, hash) ensures q == r {
      assert RunAdvances(g.runs[q], g'.runs[q]);
    }
  }

  /** The claim of run `r` is nobody else's and no longer pending. */
  ghost predicate Cleared(h: Hashes, g: Global, r: nat) {
    && r in g.runs && Sole(h, g, r)
    && !HasPending(g.trust.pending, g.runs[r].req.peer, DigestOf(h, g.runs[r].req))
  }

  /**
   At least once, and twice after a lost reply: a queued bead that is no longer pending was
   appended and removed by a drain, on top of the run's own append if that was executed too.
   */
  lemma QueuedCount(h: Hashes, events: seq<Event>, r: nat)
    requires var g := Exec(h, Empty(), events); Cleared(h, g, r) && g.runs[r].queued
    ensures var g := Exec(h, Empty(), events);
      RemovedCount(h, events, r) >= 1 && AttestationsBy(g, r) >= if g.runs[r].appended then 2 else 1
  {
    var g := Exec(h, Empty(), events);
    AllAccounted(h, events, g.runs[r].req.peer, DigestOf(h, g.runs[r].req), r);
    AttestationsCounted(h, events, r);
    GateTurnsEnd(h, events, r);
  }

  /**
   A run alone with its claim, once that is no longer pending, is attested exactly once if
   and only if it appended and never enqueued; or it enqueued after an append that was not
   executed, no drain has stopped or stands between its append and its delete of the row,
   and only one drain that had claimed the row got to delete it.
   */
  lemma AttestedOnceExactly(h: Hashes, events: seq<Event>, r: nat)
    requires Cleared(h, Exec(h, Empty(), events), r)
    ensures var g := Exec(h, Empty(), events);
      AttestationsBy(g, r) == 1
      <==> if !g.runs[r].queued then g.runs[r].appended
           else && !g.runs[r].appended && StoppedCount(h, events, r) == 0 && Standing(g, r) == {}
                && RemovedCount(h, events, r) == 1
  {
    AttestationsCounted(h, events, r);
    UnqueuedIsNotRetried(h, events, r);
    GateTurnsEnd(h, events, r);
    if Exec(h, Empty(), events).runs[r].queued { QueuedCount(h, events, r); }
  }

  // ---- Three ways to attest twice, from the empty state ----

  function AppendTried(r: nat, req: Request, appendFate: Fate): seq<Event> {
    StoreSteps(r, req, Delivered) + [ReadHead(r, Delivered)] + [Append(r, appendFate)]
  }

  /** A run that reaches its append and succeeds by enqueueing. */
  function Postponed(r: nat, req: Request, appendFate: Fate): seq<Event> {
    AppendTried(r, req, appendFate) + [Defer(r, Delivered)]
  }

  lemma AfterHeadRead(h: Hashes, r: nat, req: Request)
    ensures Exec(h, Empty(), StoreSteps(r, req, Delivered) + [ReadHead(r, Delivered)])
            == BeadStored(h, r, req, Run(req, HeadRead(None), true, false, false))
  {
    AfterStoreSteps(h, r, req, Delivered);
    ExecSnoc(h, Empty(), StoreSteps(r, req, Delivered), ReadHead(r, Delivered));
    assert HeadHash([], req.peer) == None;
  }

  lemma AppendNotDelivered(h: Hashes, r: nat, req: Request, appendFate: Fate)
    requires !appendFate.Delivered?
    ensures var g := NextAppend(h, BeadStored(h, r, req, Run(req, HeadRead(None), true, false, false)), r, appendFate);
      && At(g, r, AppendFailed) && g.runs[r].req == req && g.trust.pending == [] && g.drains == map[]
      && AttestationsBy(g, r) == if appendFate.Lost? then 1 else 0
  {
    assert HeadHash([], req.peer) == None;
    RowsByApplied([], AppendClaim(h, r, req), None, r);
  }

  lemma AfterAppendTried(h: Hashes, r: nat, req: Request, appendFate: Fate)
    requires !appendFate.Delivered?
    ensures var g := Exec(h, Empty(), AppendTried(r, req, appendFate));
      && At(g, r, AppendFailed) && g.runs[r].req == req && g.trust.pending == [] && g.drains == map[]
      && AttestationsBy(g, r) == if appendFate.Lost? then 1 else 0
  {
    AfterHeadRead(h, r, req);
    ExecSnoc(h, Empty(), StoreSteps(r, req, Delivered) + [ReadHead(r, Delivered)], Append(r, appendFate));
    AppendNotDelivered(h, r, req, appendFate);
  }

  lemma DeferDelivered(h: Hashes, g: Global, r: nat, req: Request)
    requires At(g, r, AppendFailed) && g.runs[r].req == req && g.trust.pending == []
    ensures var g' := NextDefer(h, g, r, Delivered);
      && At(g', r, Succeeded) && g'.trust.pending == [FreshPending(AppendClaim(h, r, req))]
      && g'.drains == g.drains && g'.trust.attestations == g.trust.attestations
  {
  }

  lemma AfterPostponed(h: Hashes, r: nat, req: Request, appendFate: Fate)
    requires !appendFate.Delivered?
    ensures var g := Exec(h, Empty(), Postponed(r, req, appendFate));
      && At(g, r, Succeeded) && g.trust.pending == [FreshPending(AppendClaim(h, r, req))] && g.drains == map[]
      && AttestationsBy(g, r) == if appendFate.Lost? then 1 else 0
  {
    AfterAppendTried(h, r, req, appendFate);
    ExecSnoc(h, Empty(), AppendTried(r, req, appendFate), Defer(r, Delivered));
    DeferDelivered(h, Exec(h, Empty(), AppendTried(r, req, appendFate)), r, req);
  }

  lemma ClaimOfOne(row: Pending, nowMs: int)
    requires Due(row, nowMs)
    ensures ClaimBatch([row], nowMs, 1) == [row]
  {
    assert DueRows([row], nowMs) == [row] + DueRows([], nowMs) == [row];
    assert SortBy([row], EarlierRetry) == [row];
  }

  lemma StartClaims(h: Hashes, g: Global, k: nat, row: Pending, nowMs: int, contentType: string)
    requires g.trust.pending == [row] && Due(row, nowMs) && k !in g.drains
    ensures Next(h, g, DrainStart(k, nowMs, contentType, 1))
            == g.(drains := g.drains[k := Drain([row], Idle, nowMs, contentType)])
  {
    ClaimOfOne(row, nowMs);
  }

  /** Head read and gate of one drain turn with nobody in between. */
  function DrainTurn(k: nat): seq<Event> { [DrainHead(k)] + [DrainGate(k, false)] }

  lemma TurnSteps(h: Hashes, g: Global, k: nat)
    ensures Exec(h, g, DrainTurn(k)) == NextDrainGate(NextDrainHead(g, k), k, false)
  {
    ExecOne(h, g, DrainHead(k));
    ExecSnoc(h, g, [DrainHead(k)], DrainGate(k, false));
  }

  lemma TakenHead(g: Global, k: nat, row: Pending, nowMs: int, contentType: string)
    requires k in g.drains && g.drains[k] == Drain([row], Idle, nowMs, contentType)
    ensures NextDrainHead(g, k)
            == g.(drains := g.drains[k := Drain([row], HeadTaken(HeadHash(g.trust.attestations, row.peer)), nowMs, contentType)])
  {
  }

  lemma GateOnHead(g: Global, k: nat, row: Pending, nowMs: int, contentType: string)
    requires k in g.drains
    requires g.drains[k] == Drain([row], HeadTaken(HeadHash(g.trust.attestations, row.peer)), nowMs, contentType)
    ensures var g' := NextDrainGate(g, k, false);
      && g'.trust.pending == g.trust.pending
      && g'.trust.attestations == Applied(g.trust.attestations, RetryClaim(row, nowMs, contentType),
                                          HeadHash(g.trust.attestations, row.peer))
      && g'.drains == g.drains[k := Drain([row], Gated(true), nowMs, contentType)]
  {
  }

  lemma TurnAppends(h: Hashes, g: Global, k: nat, row: Pending, nowMs: int, contentType: string)
    requires k in g.drains && g.drains[k] == Drain([row], Idle, nowMs, contentType)
    ensures var g' := Exec(h, g, DrainTurn(k));
      && g'.trust.pending == g.trust.pending
      && g'.drains == g.drains[k := Drain([row], Gated(true), nowMs, contentType)]
      && AttestationsBy(g', row.writer) == AttestationsBy(g, row.writer) + 1
  {
    TurnSteps(h, g, k);
    TakenHead(g, k, row, nowMs, contentType);
    GateOnHead(NextDrainHead(g, k), k, row, nowMs, contentType);
    RowsByApplied(g.trust.attestations, RetryClaim(row, nowMs, contentType),
                  HeadHash(g.trust.attestations, row.peer), row.writer);
  }

  /** A claim and its turn, from any state with one due row. */
  function Retry(k: nat, nowMs: int, contentType: string): seq<Event> {
    [DrainStart(k, nowMs, contentType, 1)] + DrainTurn(k)
  }

  lemma RetryAppends(h: Hashes, g: Global, k: nat, row: Pending, nowMs: int, contentType: string)
    requires g.trust.pending == [row] && Due(row, nowMs) && k !in g.drains
    ensures var g' := Exec(h, g, Retry(k, nowMs, contentType));
      && g'.trust.pending == [row] && g'.drains == g.drains[k := Drain([row], Gated(true), nowMs, contentType)]
      && AttestationsBy(g', row.writer) == AttestationsBy(g, row.writer) + 1
  {
    StartClaims(h, g, k, row, nowMs, contentType);
    ExecOne(h, g, DrainStart(k, nowMs, contentType, 1));
    ExecAppend(h, g, [DrainStart(k, nowMs, contentType, 1)], DrainTurn(k));
    TurnAppends(h, Next(h, g, DrainStart(k, nowMs, contentType, 1)), k, row, nowMs, contentType);
  }

  /** The append lands, its reply is lost, the run enqueues, and the retry appends again. */
  lemma LostReplyAttestsTwice(h: Hashes, r: nat, req: Request, nowMs: int, contentType: string)
    requires nowMs >= req.nowMs + 30000
    ensures var g := Exec(h, Empty(), Postponed(r, req, Lost) + Retry(0, nowMs, contentType));
      AttestationsBy(g, r) == 2
  {
    var row := FreshPending(AppendClaim(h, r, req));
    AfterPostponed(h, r, req, Lost);
    ExecAppend(h, Empty(), Postponed(r, req, Lost), Retry(0, nowMs, contentType));
    RetryAppends(h, Exec(h, Empty(), Postponed(r, req, Lost)), 0, row, nowMs, contentType);
  }

  /** A drain that stops between its append and its delete leaves the row to the next drain. */
  lemma DrainCrashAttestsTwice(h: Hashes, r: nat, req: Request, nowMs: int, contentType: string)
    requires nowMs >= req.nowMs + 30000
    ensures var g := Exec(h, Empty(), Postponed(r, req, Dropped) + Retry(0, nowMs, contentType) + [DrainCrash(0)]
                                      + Retry(0, nowMs, contentType));
      AttestationsBy(g, r) == 2
  {
    var row := FreshPending(AppendClaim(h, r, req));
    var s := Postponed(r, req, Dropped);
    AfterPostponed(h, r, req, Dropped);
    ExecAppend(h, Empty(), s, Retry(0, nowMs, contentType));
    RetryAppends(h, Exec(h, Empty(), s), 0, row, nowMs, contentType);
    var t := s + Retry(0, nowMs, contentType);
    ExecSnoc(h, Empty(), t, DrainCrash(0));
    ExecAppend(h, Empty(), t + [DrainCrash(0)], Retry(0, nowMs, contentType));
    RetryAppends(h, Exec(h, Empty(), t + [DrainCrash(0)]), 0, row, nowMs, contentType);
  }

  lemma SettleOfOne(h: Hashes, g: Global, k: nat, j: nat, row: Pending, d: Drain, nowMs: int, contentType: string)
    requires j != k && j in g.drains && g.drains[j] == d
    requires k in g.drains && g.drains[k] == Drain([row], Gated(true), nowMs, contentType)
    ensures var g' := NextDrainSettle(g, k); j in g'.drains && g'.drains[j] == d
    ensures var g' := NextDrainSettle(g, k); g'.trust.attestations == g.trust.attestations
    ensures g.trust.pending == [row] ==> NextDrainSettle(g, k).trust.pending == []
  {
    if g.trust.pending == [row] { assert Commit([row], row.peer, row.contentHash) == Commit([], row.peer, row.contentHash); }
  }

  /** Two drains that claimed the row before either removed it both append it. */
  lemma TwoDrainsAttestTwice(h: Hashes, r: nat, req: Request, nowMs: int, contentType: string)
    requires nowMs >= req.nowMs + 30000
    ensures var g := Exec(h, Empty(), Postponed(r, req, Dropped) + [DrainStart(1, nowMs, contentType, 1)]
                                      + Retry(0, nowMs, contentType) + [DrainSettle(0)] + DrainTurn(1));
      AttestationsBy(g, r) == 2 && g.trust.pending == []
  {
    var row := FreshPending(AppendClaim(h, r, req));
    var s := Postponed(r, req, Dropped) + [DrainStart(1, nowMs, contentType, 1)];
    AfterPostponed(h, r, req, Dropped);
    ExecSnoc(h, Empty(), Postponed(r, req, Dropped), DrainStart(1, nowMs, contentType, 1));
    StartClaims(h, Exec(h, Empty(), Postponed(r, req, Dropped)), 1, row, nowMs, contentType);
    ExecAppend(h, Empty(), s, Retry(0, nowMs, contentType));
    ExecSnoc(h, Empty(), s + Retry(0, nowMs, contentType), DrainSettle(0));
    ExecAppend(h, Empty(), s + Retry(0, nowMs, contentType) + [DrainSettle(0)], DrainTurn(1));
    SecondDrain(h, Exec(h, Empty(), s), row, nowMs, contentType);
  }

  lemma SecondDrain(h: Hashes, g: Global, row: Pending, nowMs: int, contentType: string)
    requires g.trust.pending == [row] && Due(row, nowMs)
    requires g.drains == map[1 := Drain([row], Idle, nowMs, contentType)]
    ensures var g' := Exec(h, Next(h, Exec(h, g, Retry(0, nowMs, contentType)), DrainSettle(0)), DrainTurn(1));
      g'.trust.pending == [] && AttestationsBy(g', row.writer) == AttestationsBy(g, row.writer) + 2
  {
    var first := Exec(h, g, Retry(0, nowMs, contentType));
    RetryAppends(h, g, 0, row, nowMs, contentType);
    SettleOfOne(h, first, 0, 1, row, Drain([row], Idle, nowMs, contentType), nowMs, contentType);
    TurnAppends(h, NextDrainSettle(first, 0), 1, row, nowMs, contentType);
  }
}
