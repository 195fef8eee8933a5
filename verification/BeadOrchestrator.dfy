/**
 `runBeadCreateOrchestrator` (src/routes/bead-create-orchestrator.ts:313-422) as it
 updates the three stores, one call at a time, while other requests run between the
 calls. Each call's effect is one step of the machine in BeadHandoff.
 */
module BeadOrchestrator {
  import opened Wrappers
  import opened Hashing
  import opened TrustTables
  import opened TrustStore
  import opened BeadHandoff
  import opened HandoffInvariant
  import opened HandoffResults
  import opened HandoffDelivery

  /** Every call is answered and nobody else runs. */
  ghost predicate Undisturbed(fates: Step -> Fate, appendFate: Fate, others: nat -> seq<Event>) {
    (forall s :: fates(s).Delivered?) && appendFate.Delivered? && forall i :: others(i) == []
  }

  class Cluster {
    const h: Hashes
    var blobs: map<Digest, Bytes>
    var beads: map<Key, Option<Digest>>
    var trust: Tables
    var runs: map<nat, Run>
    var drains: map<nat, Drain>

    function View(): Global reads this { Global(blobs, beads, trust, runs, drains) }

    constructor (h: Hashes)
      ensures this.h == h && View() == Empty()
    {
      this.h := h;
      blobs, beads, trust, runs, drains := map[], map[], Tables([], []), map[], map[];
    }

    /** Everybody else's steps while run `r` awaits a reply. */
    method Await(r: nat, others: seq<Event>)
      requires r in runs && forall e | e in others :: Foreign(e, r)
      modifies this
      ensures View() == Exec(h, old(View()), others) && (others == [] ==> View() == old(View()))
      ensures r in runs && runs[r] == old(runs[r])
    {
      for i := 0 to |others|
        invariant View() == Exec(h, old(View()), others[..i])
        invariant r in runs && runs[r] == old(runs[r])
      {
        assert others[..i + 1][..i] == others[..i];
        ForeignLeavesRun(h, View(), others[i], r);
        var g := Next(h, View(), others[i]);
        blobs, beads, trust, runs, drains := g.blobs, g.beads, g.trust, g.runs, g.drains;
      }
      assert others[..|others|] == others;
    }

    /** Step 1; the digest comes back unless the call failed or its reply was lost. */
    method StorePut(r: nat, fate: Fate) returns (digest: Option<Digest>)
      requires At(View(), r, Started)
      modifies this
      ensures View() == NextPut(h, old(View()), r, fate)
      ensures At(View(), r, if digest.Some? then Stored else Failed(PutStep)) && runs[r].req == old(runs[r].req)
      ensures digest.Some? ==> digest.value == DigestOf(h, runs[r].req)
      ensures (digest.Some? <==> fate.Delivered?) && trust == old(trust) && beads == old(beads)
    {
      var req := runs[r].req;
      var d := h.sha(req.bytes);
      if !fate.Dropped? && d !in blobs { blobs := blobs[d := req.bytes]; }
      if fate.Delivered? {
        digest := Some(d);
        runs := runs[r := runs[r].(stage := Stored)];
      } else {
        digest := None;
        runs := runs[r := runs[r].(stage := Failed(PutStep))];
      }
    }

    /** Step 2. */
    method InsertBead(r: nat, digest: Digest, fate: Fate) returns (ok: bool)
      requires At(View(), r, Stored) && digest == DigestOf(h, runs[r].req)
      modifies this
      ensures View() == NextInsert(h, old(View()), r, fate)
      ensures At(View(), r, if ok then Inserted else Failed(InsertStep)) && runs[r].req == old(runs[r].req)
      ensures (ok <==> fate.Delivered? && runs[r].req.key !in old(beads)) && trust == old(trust)
    {
      var req := runs[r].req;
      ok := false;
      if !fate.Dropped? && req.key !in beads {
        beads := beads[req.key := Some(digest)];
        runs := runs[r := runs[r].(inserted := true)];
        ok := fate.Delivered?;
      }
      runs := runs[r := runs[r].(stage := if ok then Inserted else Failed(InsertStep))];
    }

    /** Step 3: the append reports ok only when a positive reply arrives. */
    method Attest(r: nat, digest: Digest, head: Option<Digest>, fate: Fate) returns (applyOk: bool)
      requires At(View(), r, HeadRead(head)) && digest == DigestOf(h, runs[r].req)
      modifies this
      ensures View() == NextAppend(h, old(View()), r, fate)
      ensures At(View(), r, if applyOk then Succeeded else AppendFailed) && runs[r].req == old(runs[r].req)
    {
      var run := runs[r];
      var req := run.req;
      applyOk := false;
      if fate.Dropped? {
        runs := runs[r := run.(stage := AppendFailed)];
      } else {
        var c := Claim(req.peer, digest, "bead/v1", req.evidence, req.nowMs, Some(req.key.id), req.origins, r);
        var result := Apply(trust.attestations, c, head);
        if result.Ok? { trust := trust.(attestations := trust.attestations + [result.value]); }
        applyOk := fate.Delivered? && result.Ok?;
        runs := runs[r := run.(stage := if applyOk then Succeeded else AppendFailed, appended := result.Ok?)];
      }
    }

    /** Step 4. */
    method Postpone(r: nat, digest: Digest, fate: Fate) returns (ok: bool)
      requires At(View(), r, AppendFailed) && digest == DigestOf(h, runs[r].req)
      modifies this
      ensures View() == NextDefer(h, old(View()), r, fate)
      ensures At(View(), r, if ok then Succeeded else Failed(EnqueueStep)) && runs[r].req == old(runs[r].req)
    {
      var req := runs[r].req;
      if !fate.Dropped? {
        var c := Claim(req.peer, digest, "bead/v1", req.evidence, req.nowMs, Some(req.key.id), req.origins, r);
        trust := trust.(pending := Enqueue(trust.pending, c));
        runs := runs[r := runs[r].(queued := true)];
      }
      ok := fate.Delivered?;
      runs := runs[r := runs[r].(stage := if ok then Succeeded else Failed(EnqueueStep))];
    }

    /** Steps 1 and 2. */
    method StoreSteps(r: nat, req: Request, fates: Step -> Fate, others: nat -> seq<Event>,
                      ghost g0: Global, ghost before: seq<Event>)
      returns (result: Result<Digest, Step>, ghost trace: seq<Event>)
      requires At(View(), r, Started) && runs[r].req == req && View() == Exec(h, g0, before)
      requires forall i, e | e in others(i) :: Foreign(e, r)
      modifies this
      ensures View() == Exec(h, g0, trace) && At(View(), r, if result.Ok? then Inserted else Failed(result.error))
      ensures runs[r].req == req && (result.Ok? ==> result.value == DigestOf(h, req))
      ensures Undisturbed(fates, Delivered, others) ==>
                trust == old(trust) && result == if req.key in old(beads) then Err(InsertStep) else Ok(DigestOf(h, req))
    {
      hide Exec, NextPut, NextInsert;
      Await(r, others(0));
      trace := Extend(h, g0, before, others(0));
      ghost var g := View();
      var digest := StorePut(r, fates(PutStep));
      trace := Extend1(h, g0, trace, g, Put(r, fates(PutStep)));
      if digest.None? { return Err(PutStep), trace; }
      Await(r, others(1));
      trace := Extend(h, g0, trace, others(1));
      g := View();
      var inserted := InsertBead(r, digest.value, fates(InsertStep));
      trace := Extend1(h, g0, trace, g, Insert(r, fates(InsertStep)));
      result := if inserted then Ok(digest.value) else Err(InsertStep);
    }

    /** The head read of step 3, outside any try block. */
    method ReadChainHead(r: nat, fate: Fate) returns (head: Option<Option<Digest>>)
      requires At(View(), r, Inserted)
      modifies this
      ensures View() == NextReadHead(old(View()), r, fate)
      ensures At(View(), r, if head.Some? then HeadRead(head.value) else Failed(HeadStep)) && runs[r].req == old(runs[r].req)
      ensures head.Some? <==> fate.Delivered?
      ensures Sound(old(trust)) && fate.Delivered? ==> head.value == HeadOf(old(View()), runs[r].req.peer)
    {
      if Sound(trust) && fate.Delivered? { HeadReadIsChainEnd(h, View(), r); }
      var req := runs[r].req;
      if fate.Delivered? {
        head := Some(HeadHash(trust.attestations, req.peer));
        runs := runs[r := runs[r].(stage := HeadRead(head.value))];
      } else {
        head := None;
        runs := runs[r := runs[r].(stage := Failed(HeadStep))];
      }
    }

    method EnqueueLater(r: nat, digest: Digest, deferFate: Fate, others: nat -> seq<Event>,
                        ghost g0: Global, ghost before: seq<Event>)
      returns (recorded: bool, ghost trace: seq<Event>)
      requires At(View(), r, AppendFailed) && digest == DigestOf(h, runs[r].req)
      requires View() == Exec(h, g0, before) && forall i, e | e in others(i) :: Foreign(e, r)
      modifies this
      ensures View() == Exec(h, g0, trace) && At(View(), r, if recorded then Succeeded else Failed(EnqueueStep))
      ensures runs[r].req == old(runs[r].req)
    {
      Await(r, others(4));
      trace := Extend(h, g0, before, others(4));
      ghost var g := View();
      recorded := Postpone(r, digest, deferFate);
      trace := Extend1(h, g0, trace, g, Defer(r, deferFate));
    }

    /** The append, and the enqueue when no positive reply came. */
    method AppendOrDefer(r: nat, digest: Digest, head: Option<Digest>, appendFate: Fate, deferFate: Fate,
                         others: nat -> seq<Event>, ghost g0: Global, ghost before: seq<Event>)
      returns (recorded: bool, ghost trace: seq<Event>)
      requires At(View(), r, HeadRead(head)) && digest == DigestOf(h, runs[r].req)
      requires View() == Exec(h, g0, before) && forall i, e | e in others(i) :: Foreign(e, r)
      modifies this
      ensures View() == Exec(h, g0, trace) && At(View(), r, if recorded then Succeeded else Failed(EnqueueStep))
      ensures runs[r].req == old(runs[r].req)
      ensures At(NextAppend(h, old(View()), r, appendFate), r, Succeeded) ==>
                recorded && View() == NextAppend(h, old(View()), r, appendFate)
    {
      ghost var g := View();
      recorded := Attest(r, digest, head, appendFate);
      trace := Extend1(h, g0, before, g, Append(r, appendFate));
      if !recorded {
        recorded, trace := EnqueueLater(r, digest, deferFate, others, g0, trace);
      }
    }

    /** Steps 3 and 4. */
    method TrustSteps(r: nat, req: Request, digest: Digest, fates: Step -> Fate, appendFate: Fate,
                      others: nat -> seq<Event>, ghost g0: Global, ghost before: seq<Event>)
      returns (error: Option<Step>, ghost trace: seq<Event>)
      requires At(View(), r, Inserted) && runs[r].req == req && digest == DigestOf(h, req)
      requires View() == Exec(h, g0, before) && forall i, e | e in others(i) :: Foreign(e, r)
      modifies this
      ensures View() == Exec(h, g0, trace) && At(View(), r, if error.None? then Succeeded else Failed(error.value))
      ensures runs[r].req == req
      ensures Undisturbed(fates, appendFate, others) && Sound(old(trust)) ==>
                error.None? && AppendedOnly(h, old(View()), View(), req, r)
    {
      hide Exec, NextReadHead, NextAppend, AppendedOnly, Sound;
      ghost var g1 := View();
      Await(r, others(2));
      trace := Extend(h, g0, before, others(2));
      ghost var g := View();
      var head := ReadChainHead(r, fates(HeadStep));
      trace := Extend1(h, g0, trace, g, ReadHead(r, fates(HeadStep)));
      if head.None? { return Some(HeadStep), trace; }
      Await(r, others(3));
      trace := Extend(h, g0, trace, others(3));
      if Undisturbed(fates, appendFate, others) && Sound(g1.trust) { ReadThenAppend(h, g1, r); }
      var recorded;
      recorded, trace := AppendOrDefer(r, digest, head.value, appendFate, fates(EnqueueStep), others, g0, trace);
      error := if recorded then None else Some(EnqueueStep);
    }

    /**
     The whole request under arbitrary interference. Its effect is a run of the step
     machine; success means the digest is recorded, and an error before the trust store
     was asked leaves no row of this request. Undisturbed, it succeeds exactly when the
     primary key is free, and then the digest is the new end of the peer's chain.
     */
    method RunBeadCreate(r: nat, req: Request, fates: Step -> Fate, appendFate: Fate, others: nat -> seq<Event>)
      returns (result: Result<Digest, Step>, ghost trace: seq<Event>)
      requires Inv(h, View()) && r !in runs
      requires forall i, e | e in others(i) :: Foreign(e, r)
      modifies this
      ensures View() == Exec(h, old(View()), trace) && Inv(h, View())
      ensures r in runs && runs[r].req == req
      ensures runs[r].stage == if result.Ok? then Succeeded else Failed(result.error)
      ensures result.Ok? ==> result.value == DigestOf(h, req) && Recorded(trust, req.peer, result.value)
      ensures result.Ok? ==> Committed(h, View(), req.peer, result.value, r)
      ensures result.Err? && !result.error.EnqueueStep? ==> NoRowsOf(View(), r)
      ensures Undisturbed(fates, appendFate, others) ==>
                && (result.Ok? <==> req.key !in old(beads))
                && (result.Ok? ==> AppendedOnly(h, old(View()), View(), req, r))
                && (result.Err? ==> result.error == InsertStep && trust == old(trust))
    {
      hide Exec, AppendedOnly, RunsBacked, AttestationsBacked, PendingBacked, LandedRecorded, DrainsOk, BlobsHashed;
      hide NoRowsOf, Recorded, Committed;
      ghost var g0 := View();
      runs := runs[r := NewRun(req)];
      trace := [Begin(r, req)];
      ExecOne(h, g0, Begin(r, req));
      result, trace := StoreSteps(r, req, fates, others, g0, trace);
      if result.Ok? {
        ghost var g1 := View();
        var error;
        error, trace := TrustSteps(r, req, result.value, fates, appendFate, others, g0, trace);
        if error.Some? { result := Err(error.value); }
        if Undisturbed(fates, appendFate, others) { AppendedOnlySees(h, g0, g1, View(), req, r); }
      }
      Verdict(h, g0, trace, r);
    }
  }

  lemma Verdict(h: Hashes, g0: Global, trace: seq<Event>, r: nat)
    requires Inv(h, g0)
    ensures var g := Exec(h, g0, trace);
      && Inv(h, g)
      && (At(g, r, Succeeded) ==> Recorded(g.trust, g.runs[r].req.peer, DigestOf(h, g.runs[r].req)))
      && (At(g, r, Succeeded) ==> Committed(h, g, g.runs[r].req.peer, DigestOf(h, g.runs[r].req), r))
      && (r in g.runs && !MayHaveRows(g.runs[r].stage) ==> NoRowsOf(g, r))
  {
    var g := Exec(h, g0, trace);
    ExecGrew(h, g0, trace);
    if r in g.runs {
      assert RunBacked(h, g, g.runs[r]);
      NotLandedNoRows(h, g, r);
    }
  }

  ghost function Extend(h: Hashes, g0: Global, trace: seq<Event>, others: seq<Event>): (t: seq<Event>)
    ensures Exec(h, g0, t) == Exec(h, Exec(h, g0, trace), others)
  {
    ExecAppend(h, g0, trace, others);
    trace + others
  }

  ghost function Extend1(h: Hashes, g0: Global, trace: seq<Event>, g: Global, e: Event): (t: seq<Event>)
    requires g == Exec(h, g0, trace)
    ensures Exec(h, g0, t) == Next(h, g, e)
  {
    ExecAppend(h, g0, trace, [e]);
    ExecOne(h, g, e);
    trace + [e]
  }
}
