/**
 The trust store's attestation methods (src/trust-store.ts:512-552, 647-736). Each
 method is one turn of the single-threaded store; in the drain, other requests may
 run wherever the code awaits, and those statements arrive as parameters.
 */
module TrustStore {
  import opened Wrappers
  import opened Hashing
  import opened TrustTables

  datatype Tables = Tables(attestations: seq<Attestation>, pending: seq<Pending>)

  /** A statement another request gets in while the drain waits. */
  datatype Write = Direct(claim: Claim, prevSelf: Option<Digest>) | Deferred(claim: Claim)

  /** What happens around one claimed row: writes before the gate, a throw at the gate, writes after it. */
  datatype Turn = Turn(before: seq<Write>, throws: bool, after: seq<Write>)

  function AfterWrite(t: Tables, w: Write): Tables {
    match w
    case Direct(c, prevSelf) => t.(attestations := Applied(t.attestations, c, prevSelf))
    case Deferred(c) => t.(pending := Enqueue(t.pending, c))
  }

  function AfterWrites(t: Tables, ws: seq<Write>): Tables {
    if ws == [] then t else AfterWrite(AfterWrites(t, ws[..|ws| - 1]), ws[|ws| - 1])
  }

  function RetryClaim(row: Pending, nowMs: int, contentType: string): Claim {
    Claim(row.peer, row.contentHash, contentType, row.evidence, nowMs, None, None, row.writer)
  }

  /** The tables when the gate opens: the head was read before `turn.before` ran. */
  function AtGate(t: Tables, turn: Turn): Tables { AfterWrites(t, turn.before) }

  function GateApplies(t: Tables, row: Pending, turn: Turn): bool {
    !turn.throws && HeadHash(t.attestations, row.peer) == HeadHash(AtGate(t, turn).attestations, row.peer)
  }

  function AfterGate(t: Tables, row: Pending, turn: Turn, nowMs: int, contentType: string): Tables {
    var gate := AtGate(t, turn);
    if turn.throws then gate
    else AfterWrites(gate.(attestations := Applied(gate.attestations, RetryClaim(row, nowMs, contentType),
                                                   HeadHash(t.attestations, row.peer))), turn.after)
  }

  /** One iteration of the drain loop. */
  function DrainRow(t: Tables, row: Pending, turn: Turn, nowMs: int, contentType: string): Tables {
    var after := AfterGate(t, row, turn, nowMs, contentType);
    after.(pending := if GateApplies(t, row, turn) then Commit(after.pending, row.peer, row.contentHash)
                      else RecordFailed(after.pending, row.peer, row.contentHash, nowMs))
  }

  function DrainAll(t: Tables, batch: seq<Pending>, turns: nat -> Turn, nowMs: int, contentType: string): Tables {
    if batch == [] then t
    else
      var n := |batch| - 1;
      DrainRow(DrainAll(t, batch[..n], turns, nowMs, contentType), batch[n], turns(n), nowMs, contentType)
  }

  /** Whether row `i` of the batch is appended, given everything before it. */
  function Commits(t: Tables, batch: seq<Pending>, turns: nat -> Turn, nowMs: int, contentType: string, i: nat): bool
    requires i < |batch|
  {
    GateApplies(DrainAll(t, batch[..i], turns, nowMs, contentType), batch[i], turns(i))
  }

  function CommittedCount(t: Tables, batch: seq<Pending>, turns: nat -> Turn, nowMs: int, contentType: string): (n: nat)
    ensures n <= |batch|
  {
    if batch == [] then 0
    else
      var n := |batch| - 1;
      CommittedCount(t, batch[..n], turns, nowMs, contentType)
      + if GateApplies(DrainAll(t, batch[..n], turns, nowMs, contentType), batch[n], turns(n)) then 1 else 0
  }

  class TrustStore {
    var attestations: seq<Attestation>
    var pending: seq<Pending>

    function View(): Tables reads this { Tables(attestations, pending) }

    constructor ()
      ensures View() == Tables([], [])
    {
      attestations, pending := [], [];
    }

    method ApplyAttestation(c: Claim, prevSelf: Option<Digest>) returns (r: Result<Attestation, Mismatch>)
      modifies `attestations
      ensures r == Apply(old(attestations), c, prevSelf)
      ensures attestations == Applied(old(attestations), c, prevSelf)
    {
      var last := LastFor(attestations, c.peer);
      var expected := if last.None? then None else Some(last.value.contentHash);
      if prevSelf != expected { return Err(Mismatch(expected, prevSelf)); }
      var seqNo := (if last.None? then 0 else last.value.seqNo) + 1;
      var row := Attestation(c.peer, seqNo, prevSelf, None, c.contentHash, c.contentType, c.evidence, c.nowMs,
                             c.beadId, c.origins, c.writer);
      attestations := attestations + [row];
      r := Ok(row);
    }

    method EnqueuePendingAttestation(c: Claim) returns (enqueued: bool)
      modifies `pending
      ensures pending == Enqueue(old(pending), c)
      ensures enqueued <==> !HasPending(old(pending), c.peer, c.contentHash)
    {
      enqueued := true;
      for i := 0 to |pending|
        invariant enqueued && pending == old(pending)
        invariant forall k | 0 <= k < i :: !IsKey(pending[k], c.peer, c.contentHash)
      {
        if IsKey(pending[i], c.peer, c.contentHash) { return false; }
      }
      pending := pending + [FreshPending(c)];
    }

    /** Requests the store serves while the drain awaits. */
    method Serve(writes: seq<Write>)
      modifies this
      ensures View() == AfterWrites(old(View()), writes)
    {
      for i := 0 to |writes|
        invariant View() == AfterWrites(old(View()), writes[..i])
      {
        assert writes[..i + 1][..i] == writes[..i];
        match writes[i] {
          case Direct(c, prevSelf) => var _ := ApplyAttestation(c, prevSelf);
          case Deferred(c) => var _ := EnqueuePendingAttestation(c);
        }
      }
      assert writes[..|writes|] == writes;
    }

    method RetryRow(row: Pending, turn: Turn, nowMs: int, contentType: string) returns (ok: bool)
      modifies this
      ensures View() == DrainRow(old(View()), row, turn, nowMs, contentType)
      ensures ok <==> GateApplies(old(View()), row, turn)
    {
      var prevSelf := HeadHash(attestations, row.peer);
      Serve(turn.before);
      ok := false;
      if !turn.throws {
        var result := ApplyAttestation(RetryClaim(row, nowMs, contentType), prevSelf);
        ok := result.Ok?;
        Serve(turn.after);
      }
      if ok {
        pending := Commit(pending, row.peer, row.contentHash);
      } else {
        pending := RecordFailed(pending, row.peer, row.contentHash, nowMs);
      }
    }

    method DrainPendingRetries(nowMs: int, contentType: string, limit: nat, turns: nat -> Turn)
      returns (claimed: nat, committed: nat, failed: nat)
      modifies this
      ensures var batch := ClaimBatch(old(pending), nowMs, limit);
        && View() == DrainAll(old(View()), batch, turns, nowMs, contentType)
        && claimed == |batch| && claimed == committed + failed
        && committed == CommittedCount(old(View()), batch, turns, nowMs, contentType)
    {
      var batch := ClaimBatch(pending, nowMs, limit);
      committed, failed := 0, 0;
      for i := 0 to |batch|
        invariant View() == DrainAll(old(View()), batch[..i], turns, nowMs, contentType)
        invariant committed == CommittedCount(old(View()), batch[..i], turns, nowMs, contentType)
        invariant committed + failed == i
      {
        assert batch[..i + 1][..i] == batch[..i];
        var ok := RetryRow(batch[i], turns(i), nowMs, contentType);
        if ok { committed := committed + 1; } else { failed := failed + 1; }
      }
      assert batch[..|batch|] == batch;
      claimed := |batch|;
    }
  }

  // ---- What every write and every drain keeps ----

  ghost predicate Sound(t: Tables) { WellChained(t.attestations) && KeysUnique(t.pending) }

  ghost predicate Attested(t: Tables, peer: Peer, hash: Digest) {
    exists a :: a in t.attestations && a.peer == peer && a.contentHash == hash
  }

  ghost predicate Keeps(t: Tables, u: Tables) {
    && Sound(u)
    && t.attestations <= u.attestations
    && (forall peer, hash :: HasPending(t.pending, peer, hash) ==> HasPending(u.pending, peer, hash))
  }

  lemma EnqueueKeeps(rows: seq<Pending>, c: Claim)
    ensures forall peer, hash :: HasPending(rows, peer, hash) ==> HasPending(Enqueue(rows, c), peer, hash)
  {
    var r := Enqueue(rows, c);
    forall peer: Peer, hash: Digest | HasPending(rows, peer, hash) ensures HasPending(r, peer, hash) {
      var i :| 0 <= i < |rows| && IsKey(rows[i], peer, hash);
      assert IsKey(r[i], peer, hash);
    }
  }

  lemma {:induction false} WritesKeep(t: Tables, ws: seq<Write>)
    requires Sound(t)
    ensures Keeps(t, AfterWrites(t, ws))
  {
    if ws != [] {
      var mid, w := AfterWrites(t, ws[..|ws| - 1]), ws[|ws| - 1];
      WritesKeep(t, ws[..|ws| - 1]);
      match w
      case Direct(c, prevSelf) => ApplyKeepsChains(mid.attestations, c, prevSelf);
      case Deferred(c) => EnqueueKeeps(mid.pending, c);
    }
  }

  lemma GateKeeps(t: Tables, row: Pending, turn: Turn, nowMs: int, contentType: string)
    requires Sound(t)
    ensures Keeps(t, AfterGate(t, row, turn, nowMs, contentType))
    ensures GateApplies(t, row, turn) ==> Attested(AfterGate(t, row, turn, nowMs, contentType), row.peer, row.contentHash)
  {
    var gate, c, head := AtGate(t, turn), RetryClaim(row, nowMs, contentType), HeadHash(t.attestations, row.peer);
    WritesKeep(t, turn.before);
    if !turn.throws {
      var applied := gate.(attestations := Applied(gate.attestations, c, head));
      ApplyKeepsChains(gate.attestations, c, head);
      WritesKeep(applied, turn.after);
      if GateApplies(t, row, turn) {
        var a := NewRow(gate.attestations, c, head);
        assert applied.attestations[|gate.attestations|] == a;
        assert a in AfterGate(t, row, turn, nowMs, contentType).attestations;
      }
    }
  }

  /**
   One claimed row: if the head at the gate is the hash that was read, the row is
   appended and removed, otherwise nothing is appended for it and it stays pending;
   every other pending key stays.
   */
  lemma RowSettles(t: Tables, row: Pending, turn: Turn, nowMs: int, contentType: string)
    requires Sound(t) && HasPending(t.pending, row.peer, row.contentHash)
    ensures var u := DrainRow(t, row, turn, nowMs, contentType);
      && Sound(u) && t.attestations <= u.attestations
      && (GateApplies(t, row, turn) ==>
            Attested(u, row.peer, row.contentHash) && !HasPending(u.pending, row.peer, row.contentHash))
      && (!GateApplies(t, row, turn) ==> HasPending(u.pending, row.peer, row.contentHash))
      && (forall peer, hash :: HasPending(t.pending, peer, hash) && !(peer == row.peer && hash == row.contentHash)
            ==> HasPending(u.pending, peer, hash))
  {
    var after := AfterGate(t, row, turn, nowMs, contentType);
    GateKeeps(t, row, turn, nowMs, contentType);
    CommitKeepsUnique(after.pending, row.peer, row.contentHash);
    CommitKeepsOthers(after.pending, row.peer, row.contentHash);
    RecordFailedKeepsKeys(after.pending, row.peer, row.contentHash, nowMs);
  }

  lemma AttestedGrows(t: Tables, u: Tables, peer: Peer, hash: Digest)
    requires Attested(t, peer, hash) && t.attestations <= u.attestations
    ensures Attested(u, peer, hash)
  {
    var a :| a in t.attestations && a.peer == peer && a.contentHash == hash;
    assert a in u.attestations;
  }

  ghost predicate AllPending(t: Tables, batch: seq<Pending>) {
    forall i | 0 <= i < |batch| :: HasPending(t.pending, batch[i].peer, batch[i].contentHash)
  }

  /** Where a claimed row ends up once its turn has passed. */
  ghost predicate Settled(t: Tables, row: Pending, committed: bool) {
    if committed then Attested(t, row.peer, row.contentHash) else HasPending(t.pending, row.peer, row.contentHash)
  }

  lemma SettledStays(t: Tables, u: Tables, row: Pending, other: Pending, committed: bool)
    requires Settled(t, row, committed) && t.attestations <= u.attestations
    requires !IsKey(row, other.peer, other.contentHash)
    requires forall peer, hash :: HasPending(t.pending, peer, hash) && !(peer == other.peer && hash == other.contentHash)
               ==> HasPending(u.pending, peer, hash)
    ensures Settled(u, row, committed)
  {
    if committed { AttestedGrows(t, u, row.peer, row.contentHash); }
  }

  /** After `k` turns: those rows are settled, the others still pending, nothing lost. */
  ghost predicate SettledTo(t: Tables, u: Tables, batch: seq<Pending>, k: nat, turns: nat -> Turn,
                            nowMs: int, contentType: string)
    requires k <= |batch|
  {
    && Sound(u) && t.attestations <= u.attestations
    && (forall i | 0 <= i < k :: Settled(u, batch[i], Commits(t, batch, turns, nowMs, contentType, i)))
    && (forall i | k <= i < |batch| :: HasPending(u.pending, batch[i].peer, batch[i].contentHash))
  }

  lemma NothingDrainedYet(t: Tables, batch: seq<Pending>, turns: nat -> Turn, nowMs: int, contentType: string)
    requires Sound(t) && AllPending(t, batch)
    ensures SettledTo(t, DrainAll(t, batch[..0], turns, nowMs, contentType), batch, 0, turns, nowMs, contentType)
  {
    assert batch[..0] == [] && DrainAll(t, [], turns, nowMs, contentType) == t;
  }

  lemma DrainOneMore(t: Tables, batch: seq<Pending>, n: nat, turns: nat -> Turn, nowMs: int, contentType: string)
    requires n < |batch|
    ensures DrainAll(t, batch[..n + 1], turns, nowMs, contentType)
            == DrainRow(DrainAll(t, batch[..n], turns, nowMs, contentType), batch[n], turns(n), nowMs, contentType)
  {
    assert batch[..n + 1][..n] == batch[..n] && batch[..n + 1][n] == batch[n];
  }

  lemma SettleOneMore(t: Tables, mid: Tables, batch: seq<Pending>, n: nat, turns: nat -> Turn,
                      nowMs: int, contentType: string)
    requires n < |batch| && KeysUnique(batch) && mid == DrainAll(t, batch[..n], turns, nowMs, contentType)
    ensures SettledTo(t, mid, batch, n, turns, nowMs, contentType) ==>
      SettledTo(t, DrainRow(mid, batch[n], turns(n), nowMs, contentType), batch, n + 1, turns, nowMs, contentType)
  {
    if !SettledTo(t, mid, batch, n, turns, nowMs, contentType) { return; }
    var u := DrainRow(mid, batch[n], turns(n), nowMs, contentType);
    RowSettles(mid, batch[n], turns(n), nowMs, contentType);
    forall i | 0 <= i < n ensures Settled(u, batch[i], Commits(t, batch, turns, nowMs, contentType, i)) {
      assert !IsKey(batch[i], batch[n].peer, batch[n].contentHash);
      SettledStays(mid, u, batch[i], batch[n], Commits(t, batch, turns, nowMs, contentType, i));
    }
    forall i | n < i < |batch| ensures HasPending(u.pending, batch[i].peer, batch[i].contentHash) {
      assert !IsKey(batch[n], batch[i].peer, batch[i].contentHash);
    }
  }

  /**
   The whole batch, under any interference: every committed row is in its chain, every
   failed row is still pending, rows not yet reached are still pending, chains only grow.
   */
  lemma {:induction false} DrainSettlesEveryRow(t: Tables, batch: seq<Pending>, k: nat, turns: nat -> Turn,
                                                nowMs: int, contentType: string)
    requires Sound(t) && KeysUnique(batch) && AllPending(t, batch) && k <= |batch|
    ensures SettledTo(t, DrainAll(t, batch[..k], turns, nowMs, contentType), batch, k, turns, nowMs, contentType)
    decreases k
  {
    if k == 0 {
      NothingDrainedYet(t, batch, turns, nowMs, contentType);
    } else {
      var n := k - 1;
      DrainSettlesEveryRow(t, batch, n, turns, nowMs, contentType);
      DrainOneMore(t, batch, n, turns, nowMs, contentType);
      SettleOneMore(t, DrainAll(t, batch[..n], turns, nowMs, contentType), batch, n, turns, nowMs, contentType);
    }
  }

  /** What the store claims satisfies the premises above. */
  lemma ClaimedArePending(t: Tables, nowMs: int, limit: nat)
    requires Sound(t)
    ensures var batch := ClaimBatch(t.pending, nowMs, limit); KeysUnique(batch) && AllPending(t, batch)
  {
    ClaimBatchExactly(t.pending, nowMs, limit);
    var batch := ClaimBatch(t.pending, nowMs, limit);
    forall i | 0 <= i < |batch| ensures HasPending(t.pending, batch[i].peer, batch[i].contentHash) {
      assert batch[i] in batch && batch[i] in t.pending;
      var j :| 0 <= j < |t.pending| && t.pending[j] == batch[i];
      assert IsKey(t.pending[j], batch[i].peer, batch[i].contentHash);
    }
  }

  // ---- The undisturbed drain ----

  ghost predicate Quiet(turns: nat -> Turn) {
    forall i :: turns(i) == Turn([], false, [])
  }

  function HashesOf(chain: seq<Attestation>): (r: seq<Digest>)
    ensures |r| == |chain| && forall i | 0 <= i < |r| :: r[i] == chain[i].contentHash
  {
    seq(|chain|, i requires 0 <= i < |chain| => chain[i].contentHash)
  }

  /** The peer's claimed hashes, in claim order. */
  function ClaimedHashes(batch: seq<Pending>, peer: Peer): seq<Digest> {
    if batch == [] then []
    else
      var n := |batch| - 1;
      ClaimedHashes(batch[..n], peer) + (if batch[n].peer == peer then [batch[n].contentHash] else [])
  }

  lemma QuietRow(t: Tables, row: Pending, nowMs: int, contentType: string)
    requires Sound(t)
    ensures var turn := Turn([], false, []);
      var u := DrainRow(t, row, turn, nowMs, contentType);
      && GateApplies(t, row, turn)
      && u.pending == Commit(t.pending, row.peer, row.contentHash)
      && forall peer :: HashesOf(ChainOf(u.attestations, peer))
           == HashesOf(ChainOf(t.attestations, peer)) + (if row.peer == peer then [row.contentHash] else [])
  {
    var c, head := RetryClaim(row, nowMs, contentType), HeadHash(t.attestations, row.peer);
    HeadIsChainHead(t.attestations, c, head);
    ChainsAfterAppend(t.attestations, c, head);
    assert AfterWrites(t, []) == t;
  }

  lemma ChainAfterAppend(rows: seq<Attestation>, c: Claim, head: Option<Digest>, peer: Peer)
    requires WellChained(rows) && HeadHash(rows, c.peer) == head
    ensures HashesOf(ChainOf(Applied(rows, c, head), peer))
            == HashesOf(ChainOf(rows, peer)) + (if c.peer == peer then [c.contentHash] else [])
  {
    var a := NewRow(rows, c, head);
    ChainOfSnoc(rows, a, peer);
    if c.peer == peer { HashesSnoc(ChainOf(rows, peer), a); }
  }

  lemma ChainsAfterAppend(rows: seq<Attestation>, c: Claim, head: Option<Digest>)
    requires WellChained(rows) && HeadHash(rows, c.peer) == head
    ensures forall peer :: HashesOf(ChainOf(Applied(rows, c, head), peer))
                           == HashesOf(ChainOf(rows, peer)) + (if c.peer == peer then [c.contentHash] else [])
  {
    forall peer ensures HashesOf(ChainOf(Applied(rows, c, head), peer))
                        == HashesOf(ChainOf(rows, peer)) + (if c.peer == peer then [c.contentHash] else []) {
      ChainAfterAppend(rows, c, head, peer);
    }
  }

  ghost predicate ChainsExtended(t: Tables, u: Tables, batch: seq<Pending>) {
    forall peer :: HashesOf(ChainOf(u.attestations, peer))
                   == HashesOf(ChainOf(t.attestations, peer)) + ClaimedHashes(batch, peer)
  }

  ghost predicate KeysRemoved(t: Tables, u: Tables, batch: seq<Pending>) {
    forall p :: p in u.pending <==> p in t.pending && !HasPending(batch, p.peer, p.contentHash)
  }

  lemma QuietStepChain(t: Tables, mid: Tables, u: Tables, batch: seq<Pending>, peer: Peer)
    requires batch != [] && ChainsExtended(t, mid, batch[..|batch| - 1])
    requires var row := batch[|batch| - 1];
      HashesOf(ChainOf(u.attestations, peer))
      == HashesOf(ChainOf(mid.attestations, peer)) + (if row.peer == peer then [row.contentHash] else [])
    ensures HashesOf(ChainOf(u.attestations, peer)) == HashesOf(ChainOf(t.attestations, peer)) + ClaimedHashes(batch, peer)
  {
    var base, claimed := HashesOf(ChainOf(t.attestations, peer)), ClaimedHashes(batch[..|batch| - 1], peer);
    var row := batch[|batch| - 1];
    var added := if row.peer == peer then [row.contentHash] else [];
    assert HashesOf(ChainOf(mid.attestations, peer)) == base + claimed;
    assert base + claimed + added == base + (claimed + added);
  }

  lemma QuietStepKeys(t: Tables, mid: Tables, u: Tables, batch: seq<Pending>)
    requires batch != [] && KeysRemoved(t, mid, batch[..|batch| - 1])
    requires var row := batch[|batch| - 1]; u.pending == Commit(mid.pending, row.peer, row.contentHash)
    ensures KeysRemoved(t, u, batch)
  {
    forall p ensures p in u.pending <==> p in t.pending && !HasPending(batch, p.peer, p.contentHash) {
      BatchKeys(batch, p);
    }
  }

  lemma QuietStep(t: Tables, mid: Tables, u: Tables, batch: seq<Pending>, nowMs: int, contentType: string)
    requires batch != [] && Sound(mid)
    requires u == DrainRow(mid, batch[|batch| - 1], Turn([], false, []), nowMs, contentType)
    requires ChainsExtended(t, mid, batch[..|batch| - 1]) && KeysRemoved(t, mid, batch[..|batch| - 1])
    ensures ChainsExtended(t, u, batch) && KeysRemoved(t, u, batch)
  {
    QuietRow(mid, batch[|batch| - 1], nowMs, contentType);
    QuietStepKeys(t, mid, u, batch);
    forall peer ensures HashesOf(ChainOf(u.attestations, peer))
                        == HashesOf(ChainOf(t.attestations, peer)) + ClaimedHashes(batch, peer) {
      QuietStepChain(t, mid, u, batch, peer);
    }
  }

  /**
   With no concurrent writer the whole batch commits: each chain grows by exactly its
   claimed hashes in claim order, and exactly the claimed keys leave the pending table.
   */
  lemma {:induction false} QuietDrainCommitsAll(t: Tables, batch: seq<Pending>, turns: nat -> Turn,
                                                nowMs: int, contentType: string)
    requires Sound(t) && KeysUnique(batch) && AllPending(t, batch) && Quiet(turns)
    ensures var u := DrainAll(t, batch, turns, nowMs, contentType);
      CommittedCount(t, batch, turns, nowMs, contentType) == |batch|
      && ChainsExtended(t, u, batch) && KeysRemoved(t, u, batch)
  {
    if batch == [] {
      forall peer ensures HashesOf(ChainOf(t.attestations, peer))
                          == HashesOf(ChainOf(t.attestations, peer)) + ClaimedHashes([], peer) {
      }
    } else {
      var n := |batch| - 1;
      var front := batch[..n];
      assert AllPending(t, front);
      QuietDrainCommitsAll(t, front, turns, nowMs, contentType);
      DrainSettlesEveryRow(t, front, n, turns, nowMs, contentType);
      assert front[..n] == front;
      var mid := DrainAll(t, front, turns, nowMs, contentType);
      assert turns(n) == Turn([], false, []);
      QuietRow(mid, batch[n], nowMs, contentType);
      QuietStep(t, mid, DrainAll(t, batch, turns, nowMs, contentType), batch, nowMs, contentType);
    }
  }

  lemma BatchKeys(batch: seq<Pending>, p: Pending)
    requires batch != []
    ensures HasPending(batch, p.peer, p.contentHash)
            <==> HasPending(batch[..|batch| - 1], p.peer, p.contentHash)
                 || IsKey(p, batch[|batch| - 1].peer, batch[|batch| - 1].contentHash)
  {
    var n := |batch| - 1;
    if IsKey(p, batch[n].peer, batch[n].contentHash) { assert IsKey(batch[n], p.peer, p.contentHash); }
    if i :| 0 <= i < n && IsKey(batch[i], p.peer, p.contentHash) { assert IsKey(batch[..n][i], p.peer, p.contentHash); }
    if i :| 0 <= i < n && IsKey(batch[..n][i], p.peer, p.contentHash) { assert IsKey(batch[i], p.peer, p.contentHash); }
  }

  /**
   A stale head is accepted when it matches again: a direct write that re-attests the
   hash the drain read lets the append through, and both rows extend the chain's end.
   */
  lemma StaleHeadCanMatchAgain(t: Tables, x: Claim, row: Pending, nowMs: int, contentType: string)
    requires Sound(t) && x.peer == row.peer && HeadHash(t.attestations, row.peer) == Some(x.contentHash)
    ensures var turn := Turn([Direct(x, Some(x.contentHash))], false, []);
      var u := DrainRow(t, row, turn, nowMs, contentType);
      && GateApplies(t, row, turn)
      && HashesOf(ChainOf(u.attestations, row.peer))
         == HashesOf(ChainOf(t.attestations, row.peer)) + [x.contentHash] + [row.contentHash]
  {
    var head := Some(x.contentHash);
    var turn := Turn([Direct(x, head)], false, []);
    var mid := Applied(t.attestations, x, head);
    assert [Direct(x, head)][..0] == [];
    assert AtGate(t, turn) == AfterWrite(AfterWrites(t, []), Direct(x, head));
    AppendedAfter(t.attestations, x, head);
    AppendedAfter(mid, RetryClaim(row, nowMs, contentType), head);
  }

  lemma AppendedAfter(rows: seq<Attestation>, c: Claim, head: Option<Digest>)
    requires WellChained(rows) && HeadHash(rows, c.peer) == head
    ensures var after := Applied(rows, c, head);
      && WellChained(after) && HeadHash(after, c.peer) == Some(c.contentHash)
      && HashesOf(ChainOf(after, c.peer)) == HashesOf(ChainOf(rows, c.peer)) + [c.contentHash]
  {
    ApplyKeepsChains(rows, c, head);
    HeadIsChainHead(rows, c, head);
    var after, chain, a := Applied(rows, c, head), ChainOf(rows, c.peer), NewRow(rows, c, head);
    assert ChainOf(after, c.peer) == chain + [a];
    HashesSnoc(chain, a);
    HeadIsChainHead(after, c, head);
  }

  lemma HashesSnoc(chain: seq<Attestation>, a: Attestation)
    ensures HashesOf(chain + [a]) == HashesOf(chain) + [a.contentHash]
    ensures ChainHead(chain + [a]) == Some(a.contentHash)
  {
  }
}
