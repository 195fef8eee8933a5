/**
 What the handoff promises for requests that carry real beads: each request's bytes are
 the canonical bytes of the bead it inserts (src/routes/bead-create-orchestrator.ts:301-315,
 src/storage/bead-canonical.ts:47-64), whose id and repository are its primary key.
 */
module HandoffBeads {
  import opened Wrappers
  import opened Hashing
  import opened TrustTables
  import opened BeadHandoff
  import opened HandoffInvariant
  import opened HandoffResults
  import opened BeadCanonical

  /** The request inserts this bead and signs its bytes. */
  ghost predicate Carries(req: Request, bead: Bead) {
    BeadBytes(bead).Some? && BeadBytes(bead).value == req.bytes && req.key == Key(bead.repo, bead.id)
  }

  ghost predicate CarriesBead(req: Request) { exists bead :: Carries(req, bead) }

  ghost predicate AllCarryBeads(g: Global) { forall r | r in g.runs :: CarriesBead(g.runs[r].req) }

  /** Requests for beads with different ids or repositories never make the same claim. */
  lemma OtherKeyOtherClaim(h: Hashes, a: Request, b: Request)
    requires CollisionFree(h) && CarriesBead(a) && CarriesBead(b)
    ensures DigestOf(h, a) == DigestOf(h, b) ==> a.key == b.key
  {
    var x :| Carries(a, x);
    var y :| Carries(b, y);
    BeadBytesDecideBead(x, y);
    if DigestOf(h, a) == DigestOf(h, b) {
      assert a.bytes == b.bytes;
      assert SameBead(x, y);
      assert x.(labels := []).id == y.(labels := []).id && x.(labels := []).repo == y.(labels := []).repo;
    }
  }

  // ---- One insert per key ----

  ghost predicate InsertsDistinct(g: Global) {
    forall q, r | q in g.runs && r in g.runs && g.runs[q].inserted && g.runs[r].inserted
                  && g.runs[q].req.key == g.runs[r].req.key :: q == r
  }

  /** A step after which nobody has inserted who had not before. */
  ghost predicate NoInsert(g: Global, g': Global) {
    forall r | r in g'.runs && g'.runs[r].inserted :: r in g.runs && g.runs[r].inserted && g.runs[r].req == g'.runs[r].req
  }

  lemma BeginInsertsNothing(h: Hashes, g: Global, r: nat, req: Request)
    ensures NoInsert(g, Next(h, g, Begin(r, req)))
  {
  }

  lemma PutInsertsNothing(h: Hashes, g: Global, r: nat, fate: Fate)
    ensures NoInsert(g, NextPut(h, g, r, fate))
  {
  }

  lemma StepsAfterInsert(h: Hashes, g: Global, r: nat, fate: Fate)
    ensures NoInsert(g, NextReadHead(g, r, fate)) && NoInsert(g, NextCrash(g, r))
  {
  }

  lemma TrustStepsInsertNothing(h: Hashes, g: Global, r: nat, fate: Fate)
    ensures NoInsert(g, NextAppend(h, g, r, fate)) && NoInsert(g, NextDefer(h, g, r, fate))
  {
  }

  lemma DrainsInsertNothing(h: Hashes, g: Global, e: Event)
    requires !OfRun(e)
    ensures NoInsert(g, Next(h, g, e))
  {
    assert Next(h, g, e).runs == g.runs;
  }

  lemma OthersInsertNothing(h: Hashes, g: Global, e: Event)
    requires !e.Insert?
    ensures NoInsert(g, Next(h, g, e))
  {
    match e
    case Begin(r, req) => BeginInsertsNothing(h, g, r, req);
    case Put(r, fate) => PutInsertsNothing(h, g, r, fate);
    case ReadHead(r, fate) => StepsAfterInsert(h, g, r, fate);
    case CrashRun(r) => StepsAfterInsert(h, g, r, Delivered);
    case Append(r, fate) => TrustStepsInsertNothing(h, g, r, fate);
    case Defer(r, fate) => TrustStepsInsertNothing(h, g, r, fate);
    case _ => DrainsInsertNothing(h, g, e);
  }

  lemma InsertStaysDistinct(h: Hashes, g: Global, r: nat, fate: Fate)
    requires Inv(h, g) && InsertsDistinct(g)
    ensures InsertsDistinct(NextInsert(h, g, r, fate))
  {
    var g' := NextInsert(h, g, r, fate);
    forall q, p | q in g'.runs && p in g'.runs && g'.runs[q].inserted && g'.runs[p].inserted
                  && g'.runs[q].req.key == g'.runs[p].req.key
      ensures q == p
    {
      assert RunBacked(h, g, g.runs[q]) && RunBacked(h, g, g.runs[p]);
    }
  }

  lemma {:induction false} ReachableDistinct(h: Hashes, events: seq<Event>)
    ensures InsertsDistinct(Exec(h, Empty(), events))
  {
    if events != [] {
      var front, last := events[..|events| - 1], events[|events| - 1];
      ReachableDistinct(h, front);
      ReachableInv(h, front);
      if last.Insert? {
        InsertStaysDistinct(h, Exec(h, Empty(), front), last.run, last.fate);
      } else {
        OthersInsertNothing(h, Exec(h, Empty(), front), last);
      }
    }
  }

  // ---- So every claim is one run's ----

  /** Once a run has inserted its bead, no other run's trust rows can name it. */
  lemma InsertedIsSole(h: Hashes, events: seq<Event>, r: nat)
    requires var g := Exec(h, Empty(), events); CollisionFree(h) && AllCarryBeads(g) && r in g.runs && g.runs[r].inserted
    ensures Sole(h, Exec(h, Empty(), events), r)
  {
    var g := Exec(h, Empty(), events);
    ReachableInv(h, events);
    ReachableDistinct(h, events);
    forall q | q in g.runs && Landed(g.runs[q]) && SameClaim(h, g.runs[q], g.runs[r].req.peer, DigestOf(h, g.runs[r].req))
      ensures q == r
    {
      assert RunBacked(h, g, g.runs[q]);
      OtherKeyOtherClaim(h, g.runs[q].req, g.runs[r].req);
    }
  }

  /**
   For requests that carry beads the gap is the run's own: its committed bead is
   unrecorded, now and after anything that may follow, exactly when the run ended in a
   gap. A retry makes another bead and closes nothing.
   */
  lemma BeadGapExactly(h: Hashes, events: seq<Event>, more: seq<Event>, r: nat)
    requires var g := Exec(h, Empty(), events); r in g.runs && !Running(g.runs[r].stage) && g.runs[r].inserted
    requires CollisionFree(h) && AllCarryBeads(Exec(h, Empty(), events + more))
    ensures var run, later := Exec(h, Empty(), events).runs[r], Exec(h, Empty(), events + more);
      && (!Recorded(later.trust, run.req.peer, DigestOf(h, run.req)) <==> Gap(run))
      && (NoRowsOf(later, r) <==> Gap(run))
  {
    var run, later := Exec(h, Empty(), events).runs[r], Exec(h, Empty(), events + more);
    GapExactly(h, events, more, r);
    EndedRunStays(h, events, more, r);
    InsertedIsSole(h, events + more, r);
    GapIsNotLanded(h, later, run);
    assert SameClaim(h, later.runs[r], run.req.peer, DigestOf(h, run.req));
  }
}
