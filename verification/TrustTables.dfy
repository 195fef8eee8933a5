/**
 The two attestation tables of the trust store and the statements that touch them
 (src/storage/peer-attestations.ts, src/storage/pending-attestations.ts).
 */
module TrustTables {
  import opened Wrappers
  import opened Order
  import opened Hashing
  import Utf8

  type Peer = string

  /** Bead ids and repository names, as UTF-16 code units. */
  type Name = seq<Utf8.Unit>

  /** What the signer supplied; the tables store it verbatim. */
  datatype Evidence = Evidence(scope: string, cert: seq<int>, sig: seq<int>)

  /** `writer` is a history variable, not a column: the request the evidence came from. */
  datatype Attestation = Attestation(
    peer: Peer, seqNo: nat, prevSelf: Option<Digest>, prevPeer: Option<Digest>, contentHash: Digest,
    contentType: string, evidence: Evidence, createdAt: int, beadId: Option<Name>, origins: Option<string>,
    writer: nat)

  datatype Pending = Pending(
    peer: Peer, contentHash: Digest, evidence: Evidence, attempts: nat, nextRetryAt: int, createdAt: int,
    lastAttemptAt: Option<int>, writer: nat)

  /** Arguments of `applyAttestation` apart from the claimed head. */
  datatype Claim = Claim(
    peer: Peer, contentHash: Digest, contentType: string, evidence: Evidence, nowMs: int,
    beadId: Option<Name>, origins: Option<string>, writer: nat)

  datatype Mismatch = Mismatch(expected: Option<Digest>, got: Option<Digest>)

  // ---- peer_attestations ----

  /** `WHERE peer_fingerprint = ? ORDER BY seq DESC LIMIT 1`. */
  function LastFor(rows: seq<Attestation>, peer: Peer): (r: Option<Attestation>)
    ensures r.Some? ==> r.value in rows && r.value.peer == peer
    ensures forall a | a in rows && a.peer == peer :: r.Some? && a.seqNo <= r.value.seqNo
  {
    if rows == [] then None
    else
      var last := rows[|rows| - 1];
      var best := LastFor(rows[..|rows| - 1], peer);
      if last.peer == peer && (best.None? || last.seqNo > best.value.seqNo) then Some(last) else best
  }

  function HeadHash(rows: seq<Attestation>, peer: Peer): Option<Digest> {
    var last := LastFor(rows, peer);
    if last.None? then None else Some(last.value.contentHash)
  }

  function NewRow(rows: seq<Attestation>, c: Claim, prevSelf: Option<Digest>): Attestation {
    var last := LastFor(rows, c.peer);
    Attestation(c.peer, (if last.None? then 0 else last.value.seqNo) + 1, prevSelf, None, c.contentHash,
                c.contentType, c.evidence, c.nowMs, c.beadId, c.origins, c.writer)
  }

  /** Append only when the claimed head is the actual one. */
  function Apply(rows: seq<Attestation>, c: Claim, prevSelf: Option<Digest>): (r: Result<Attestation, Mismatch>) {
    var expected := HeadHash(rows, c.peer);
    if prevSelf != expected then Err(Mismatch(expected, prevSelf)) else Ok(NewRow(rows, c, prevSelf))
  }

  function Applied(rows: seq<Attestation>, c: Claim, prevSelf: Option<Digest>): seq<Attestation> {
    var r := Apply(rows, c, prevSelf);
    if r.Ok? then rows + [r.value] else rows
  }

  /** One peer's rows in insertion order. */
  function ChainOf(rows: seq<Attestation>, peer: Peer): (r: seq<Attestation>)
    ensures forall a :: a in r <==> a in rows && a.peer == peer
  {
    if rows == [] then []
    else
      var front, last := rows[..|rows| - 1], rows[|rows| - 1];
      assert rows == front + [last];
      if last.peer == peer then ChainOf(front, peer) + [last] else ChainOf(front, peer)
  }

  /** Content hash of the row before position `i`, null at genesis. */
  function HashBefore(chain: seq<Attestation>, i: nat): Option<Digest>
    requires i <= |chain|
  {
    if i == 0 then None else Some(chain[i - 1].contentHash)
  }

  function ChainHead(chain: seq<Attestation>): Option<Digest> { HashBefore(chain, |chain|) }

  /** Each row was numbered and linked against its peer's chain at the time. */
  ghost predicate WellChained(rows: seq<Attestation>) {
    rows == [] ||
    var front, last := rows[..|rows| - 1], rows[|rows| - 1];
    && WellChained(front)
    && last.seqNo == |ChainOf(front, last.peer)| + 1
    && last.prevSelf == ChainHead(ChainOf(front, last.peer))
  }

  lemma ChainOfSnoc(rows: seq<Attestation>, a: Attestation, peer: Peer)
    ensures ChainOf(rows + [a], peer) == ChainOf(rows, peer) + (if a.peer == peer then [a] else [])
  {
    assert (rows + [a])[..|rows|] == rows;
  }

  /** Sequence numbers run 1..n and every row points at its predecessor's content hash. */
  ghost predicate Linked(chain: seq<Attestation>) {
    forall i | 0 <= i < |chain| ::
      chain[i].seqNo == i + 1 && chain[i].prevSelf == HashBefore(chain, i)
  }

  lemma LinkedSnoc(chain: seq<Attestation>, a: Attestation)
    requires Linked(chain) && a.seqNo == |chain| + 1 && a.prevSelf == ChainHead(chain)
    ensures Linked(chain + [a])
  {
    var longer := chain + [a];
    forall i | 0 <= i < |longer| ensures longer[i].seqNo == i + 1 && longer[i].prevSelf == HashBefore(longer, i) {
      assert HashBefore(longer, i) == HashBefore(chain, i);
    }
  }

  lemma {:induction false} ChainLinks(rows: seq<Attestation>, peer: Peer)
    requires WellChained(rows)
    ensures Linked(ChainOf(rows, peer))
  {
    if rows != [] {
      var front, last := rows[..|rows| - 1], rows[|rows| - 1];
      ChainLinks(front, peer);
      if last.peer == peer { LinkedSnoc(ChainOf(front, peer), last); }
    }
  }

  /** The SQL head is the end of the chain. */
  lemma {:induction false} LastForIsChainEnd(rows: seq<Attestation>, peer: Peer)
    requires WellChained(rows)
    ensures var chain := ChainOf(rows, peer);
      LastFor(rows, peer) == if chain == [] then None else Some(chain[|chain| - 1])
  {
    if rows != [] {
      var front, last := rows[..|rows| - 1], rows[|rows| - 1];
      var chain := ChainOf(front, peer);
      LastForIsChainEnd(front, peer);
      ChainLinks(front, peer);
      if last.peer == peer { assert ChainOf(rows, peer) == chain + [last]; }
    }
  }

  /** The new row's key (peer, seq) is not taken, so the insert cannot fail on it. */
  lemma NewKeyIsFree(rows: seq<Attestation>, c: Claim, prevSelf: Option<Digest>)
    ensures forall a | a in rows && a.peer == c.peer :: a.seqNo < NewRow(rows, c, prevSelf).seqNo
  {
  }

  lemma AppendLinkedRow(rows: seq<Attestation>, a: Attestation)
    requires WellChained(rows)
    requires a.seqNo == |ChainOf(rows, a.peer)| + 1 && a.prevSelf == ChainHead(ChainOf(rows, a.peer))
    ensures WellChained(rows + [a])
  {
    assert (rows + [a])[..|rows|] == rows;
  }

  lemma HeadIsChainHead(rows: seq<Attestation>, c: Claim, prevSelf: Option<Digest>)
    requires WellChained(rows)
    ensures HeadHash(rows, c.peer) == ChainHead(ChainOf(rows, c.peer))
    ensures NewRow(rows, c, prevSelf).seqNo == |ChainOf(rows, c.peer)| + 1
  {
    var chain := ChainOf(rows, c.peer);
    LastForIsChainEnd(rows, c.peer);
    ChainLinks(rows, c.peer);
    assert chain != [] ==> chain[|chain| - 1].seqNo == |chain|;
  }

  /** Whatever head the caller read, and however stale, the table stays a set of chains and only grows. */
  lemma ApplyKeepsChains(rows: seq<Attestation>, c: Claim, prevSelf: Option<Digest>)
    requires WellChained(rows)
    ensures WellChained(Applied(rows, c, prevSelf))
    ensures rows <= Applied(rows, c, prevSelf)
    ensures Apply(rows, c, prevSelf).Ok? <==> prevSelf == ChainHead(ChainOf(rows, c.peer))
    ensures forall peer :: ChainOf(Applied(rows, c, prevSelf), peer) ==
              ChainOf(rows, peer)
              + (if peer == c.peer && Apply(rows, c, prevSelf).Ok? then [NewRow(rows, c, prevSelf)] else [])
  {
    HeadIsChainHead(rows, c, prevSelf);
    if prevSelf == HeadHash(rows, c.peer) {
      var a := NewRow(rows, c, prevSelf);
      AppendLinkedRow(rows, a);
      forall peer ensures ChainOf(rows + [a], peer) == ChainOf(rows, peer) + (if peer == c.peer then [a] else []) {
        ChainOfSnoc(rows, a, peer);
      }
    }
  }

  /** A longer table's chains extend the shorter one's. */
  lemma {:induction false} ChainPrefix(rows: seq<Attestation>, more: seq<Attestation>, peer: Peer)
    ensures ChainOf(rows, peer) <= ChainOf(rows + more, peer)
    decreases |more|
  {
    if more == [] {
      assert rows + more == rows;
    } else {
      var front := more[..|more| - 1];
      ChainPrefix(rows, front, peer);
      ChainOfSnoc(rows + front, more[|more| - 1], peer);
      assert rows + front + [more[|more| - 1]] == rows + more;
    }
  }

  lemma ChainsExtend(early: seq<Attestation>, late: seq<Attestation>, peer: Peer)
    requires early <= late
    ensures ChainOf(early, peer) <= ChainOf(late, peer)
  {
    assert late == early + late[|early|..];
    ChainPrefix(early, late[|early|..], peer);
  }

  // ---- pending_attestations ----

  const MAX_RETRY_ATTEMPTS: nat := 5
  const MAX_SAFE_INTEGER: int := 9007199254740991

  function RetryBackoffMs(attempts: nat): int
    requires attempts < MAX_RETRY_ATTEMPTS
  {
    [30000, 60000, 120000, 300000, 600000][attempts]
  }

  function BackoffNextRetry(attempts: nat, nowMs: int): Option<int> {
    if attempts >= MAX_RETRY_ATTEMPTS then None else Some(nowMs + RetryBackoffMs(attempts))
  }

  predicate IsKey(p: Pending, peer: Peer, hash: Digest) { p.peer == peer && p.contentHash == hash }

  predicate HasPending(rows: seq<Pending>, peer: Peer, hash: Digest) {
    exists i :: 0 <= i < |rows| && IsKey(rows[i], peer, hash)
  }

  /** The primary key (peer_fp, content_hash). */
  ghost predicate KeysUnique(rows: seq<Pending>) {
    forall i, j | 0 <= i < j < |rows| :: !IsKey(rows[i], rows[j].peer, rows[j].contentHash)
  }

  /** `INSERT … ON CONFLICT DO NOTHING`. */
  function Enqueue(rows: seq<Pending>, c: Claim): (r: seq<Pending>)
    ensures HasPending(r, c.peer, c.contentHash)
    ensures KeysUnique(rows) ==> KeysUnique(r)
    ensures rows <= r && forall p | p in r :: p in rows || p == FreshPending(c)
  {
    if HasPending(rows, c.peer, c.contentHash) then rows
    else
      var r := rows + [FreshPending(c)];
      assert IsKey(r[|rows|], c.peer, c.contentHash);
      r
  }

  function FreshPending(c: Claim): Pending {
    Pending(c.peer, c.contentHash, c.evidence, 0, c.nowMs + RetryBackoffMs(0), c.nowMs, None, c.writer)
  }

  /** `DELETE … WHERE peer_fp = ? AND content_hash = ?`. */
  function Commit(rows: seq<Pending>, peer: Peer, hash: Digest): (r: seq<Pending>)
    ensures forall p :: p in r <==> p in rows && !IsKey(p, peer, hash)
    ensures |r| <= |rows|
  {
    if rows == [] then []
    else
      assert rows == [rows[0]] + rows[1..];
      if IsKey(rows[0], peer, hash) then Commit(rows[1..], peer, hash)
      else [rows[0]] + Commit(rows[1..], peer, hash)
  }

  function FailedOnce(p: Pending, nowMs: int): Pending {
    var next := BackoffNextRetry(p.attempts + 1, nowMs);
    p.(attempts := p.attempts + 1,
       nextRetryAt := if next.None? then MAX_SAFE_INTEGER else next.value,
       lastAttemptAt := Some(nowMs))
  }

  function RecordFailed(rows: seq<Pending>, peer: Peer, hash: Digest, nowMs: int): (r: seq<Pending>)
    ensures |r| == |rows|
    ensures forall i | 0 <= i < |r| :: r[i] == if IsKey(rows[i], peer, hash) then FailedOnce(rows[i], nowMs) else rows[i]
  {
    seq(|rows|, i requires 0 <= i < |rows| =>
      if IsKey(rows[i], peer, hash) then FailedOnce(rows[i], nowMs) else rows[i])
  }

  predicate Due(p: Pending, nowMs: int) { p.nextRetryAt <= nowMs && p.attempts < MAX_RETRY_ATTEMPTS }

  function DueRows(rows: seq<Pending>, nowMs: int): (r: seq<Pending>)
    ensures forall p :: p in r <==> p in rows && Due(p, nowMs)
  {
    if rows == [] then []
    else
      assert rows == [rows[0]] + rows[1..];
      if Due(rows[0], nowMs) then [rows[0]] + DueRows(rows[1..], nowMs) else DueRows(rows[1..], nowMs)
  }

  predicate EarlierRetry(a: Pending, b: Pending) { a.nextRetryAt <= b.nextRetryAt }

  /** `ORDER BY next_retry_at ASC LIMIT ?`; ties in table order. */
  function ClaimBatch(rows: seq<Pending>, nowMs: int, limit: nat): seq<Pending> {
    var due := SortBy(DueRows(rows, nowMs), EarlierRetry);
    if |due| <= limit then due else due[..limit]
  }

  lemma CommitKeepsUnique(rows: seq<Pending>, peer: Peer, hash: Digest)
    requires KeysUnique(rows)
    ensures KeysUnique(Commit(rows, peer, hash))
  {
    if rows != [] {
      var rest := rows[1..];
      assert KeysUnique(rest);
      CommitKeepsUnique(rest, peer, hash);
      var r := Commit(rest, peer, hash);
      forall j | 0 <= j < |r| ensures !IsKey(rows[0], r[j].peer, r[j].contentHash) {
        assert r[j] in rest;
        var k :| 0 <= k < |rest| && rest[k] == r[j];
        assert rows[k + 1] == r[j];
      }
    }
  }

  lemma RecordFailedKeepsKeys(rows: seq<Pending>, peer: Peer, hash: Digest, nowMs: int)
    ensures KeysUnique(rows) ==> KeysUnique(RecordFailed(rows, peer, hash, nowMs))
    ensures forall p: Peer, h: Digest :: HasPending(RecordFailed(rows, peer, hash, nowMs), p, h) <==> HasPending(rows, p, h)
  {
    var r := RecordFailed(rows, peer, hash, nowMs);
    assert forall i | 0 <= i < |r| :: r[i].peer == rows[i].peer && r[i].contentHash == rows[i].contentHash;
    forall p: Peer, h: Digest ensures HasPending(r, p, h) <==> HasPending(rows, p, h) {
      if i :| 0 <= i < |r| && IsKey(r[i], p, h) { assert IsKey(rows[i], p, h); }
      if i :| 0 <= i < |rows| && IsKey(rows[i], p, h) { assert IsKey(r[i], p, h); }
    }
  }

  lemma CommitKeepsOthers(rows: seq<Pending>, peer: Peer, hash: Digest)
    ensures forall p: Peer, h: Digest ::
              HasPending(Commit(rows, peer, hash), p, h) <==> HasPending(rows, p, h) && !(p == peer && h == hash)
  {
    var r := Commit(rows, peer, hash);
    forall p: Peer, h: Digest ensures HasPending(r, p, h) <==> HasPending(rows, p, h) && !(p == peer && h == hash) {
      if i :| 0 <= i < |r| && IsKey(r[i], p, h) {
        assert r[i] in rows;
        var j :| 0 <= j < |rows| && rows[j] == r[i];
        assert IsKey(rows[j], p, h);
      }
      if !(p == peer && h == hash) {
        if i :| 0 <= i < |rows| && IsKey(rows[i], p, h) {
          assert rows[i] in r;
          var j :| 0 <= j < |r| && r[j] == rows[i];
          assert IsKey(r[j], p, h);
        }
      }
    }
  }

  lemma DueRowsUnique(rows: seq<Pending>, nowMs: int)
    requires KeysUnique(rows)
    ensures KeysUnique(DueRows(rows, nowMs))
  {
    if rows != [] {
      var rest := rows[1..];
      assert KeysUnique(rest);
      DueRowsUnique(rest, nowMs);
      var r := DueRows(rest, nowMs);
      forall j | 0 <= j < |r| ensures !IsKey(rows[0], r[j].peer, r[j].contentHash) {
        assert r[j] in rest;
        var k :| 0 <= k < |rest| && rest[k] == r[j];
        assert rows[k + 1] == r[j];
      }
    }
  }

  lemma KeysUniqueByMembers(rows: seq<Pending>, sorted: seq<Pending>)
    requires KeysUnique(rows) && NoDuplicates(sorted)
    requires forall p | p in sorted :: p in rows
    ensures KeysUnique(sorted)
  {
    forall i, j | 0 <= i < j < |sorted| ensures !IsKey(sorted[i], sorted[j].peer, sorted[j].contentHash) {
      assert sorted[i] in rows && sorted[j] in rows;
      var a :| 0 <= a < |rows| && rows[a] == sorted[i];
      var b :| 0 <= b < |rows| && rows[b] == sorted[j];
      assert a != b;
      if a > b { assert !IsKey(rows[b], rows[a].peer, rows[a].contentHash); }
    }
  }

  lemma EarlierRetryIsPreorder()
    ensures TotalPreorder(EarlierRetry)
  {
  }

  /**
   A claim takes distinct rows that are due and not exhausted, earliest retry first,
   and leaves no due row behind unless the limit is reached by earlier ones.
   */
  lemma ClaimBatchExactly(rows: seq<Pending>, nowMs: int, limit: nat)
    requires KeysUnique(rows)
    ensures var batch := ClaimBatch(rows, nowMs, limit);
      && KeysUnique(batch) && |batch| <= limit && SortedBy(batch, EarlierRetry)
      && (forall p | p in batch :: p in rows && Due(p, nowMs))
      && (forall p | p in rows && Due(p, nowMs) && p !in batch ::
            |batch| == limit && forall q | q in batch :: q.nextRetryAt <= p.nextRetryAt)
  {
    var due := DueRows(rows, nowMs);
    var sorted := SortBy(due, EarlierRetry);
    EarlierRetryIsPreorder();
    SortByIsSorted(due, EarlierRetry);
    SortByMembers(due, EarlierRetry);
    DueRowsUnique(rows, nowMs);
    assert NoDuplicates(due);
    SortByKeepsNoDuplicates(due, EarlierRetry);
    KeysUniqueByMembers(due, sorted);
    var batch := ClaimBatch(rows, nowMs, limit);
    forall p | p in rows && Due(p, nowMs) && p !in batch
      ensures |batch| == limit && forall q | q in batch :: q.nextRetryAt <= p.nextRetryAt
    {
      assert p in sorted;
      var k :| 0 <= k < |sorted| && sorted[k] == p;
      assert k >= limit;
      forall q | q in batch ensures q.nextRetryAt <= p.nextRetryAt {
        var j :| 0 <= j < |batch| && batch[j] == q;
        assert EarlierRetry(sorted[j], sorted[k]);
      }
    }
  }

  function FailedTimes(p: Pending, times: seq<int>): Pending {
    if times == [] then p else FailedOnce(FailedTimes(p, times[..|times| - 1]), times[|times| - 1])
  }

  /**
   The retry budget: a fresh row is claimable half a minute, then one, two, five and ten
   minutes after its enqueue or last failure, and after the fifth failure never again;
   failures touch no other column than the attempt count and the two times.
   */
  lemma {:induction false} RetryBudget(c: Claim, times: seq<int>, nowMs: int)
    ensures var p := FailedTimes(FreshPending(c), times);
      && p.attempts == |times|
      && p == FreshPending(c).(attempts := p.attempts, nextRetryAt := p.nextRetryAt, lastAttemptAt := p.lastAttemptAt)
      && p.lastAttemptAt == (if times == [] then None else Some(times[|times| - 1]))
      && (Due(p, nowMs) <==> |times| < 5 && nowMs - (if times == [] then c.nowMs else times[|times| - 1])
                                            >= [30000, 60000, 120000, 300000, 600000][|times|])
      && (|times| >= 5 ==> p.nextRetryAt == 9007199254740991)
  {
    if times != [] { RetryBudget(c, times[..|times| - 1], nowMs); }
  }
}
