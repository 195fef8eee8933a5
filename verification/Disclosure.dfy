/**
 Paged disclosure of a peer's attestation chain (src/routes/disclosure.ts:197-206,
 220-315; src/storage/peer-attestations.ts:301-323). A request reads the trust store
 three times, and the tables may change between its reads and between requests.
 */
module Disclosure {
  import opened Wrappers
  import opened Order
  import opened Hashing
  import opened TrustTables
  import opened TrustStore
  import opened CanonicalJson
  import opened DisclosureCursor
  import Decimal

  const DEFAULT_PAGE_SIZE: nat := 100

  // ---- listAttestationsForPeer ----

  function AtLeast(chain: seq<Attestation>, fromSeq: int): (r: seq<Attestation>)
    ensures |r| <= |chain|
  {
    if chain == [] then []
    else if chain[0].seqNo >= fromSeq then [chain[0]] + AtLeast(chain[1..], fromSeq)
    else AtLeast(chain[1..], fromSeq)
  }

  predicate SeqLeq(a: Attestation, b: Attestation) { a.seqNo <= b.seqNo }

  function Take(rows: seq<Attestation>, limit: nat): seq<Attestation> {
    if |rows| <= limit then rows else rows[..limit]
  }

  /** `WHERE peer_fingerprint = ? AND seq >= ? ORDER BY seq ASC LIMIT ?`. */
  function ListFrom(rows: seq<Attestation>, peer: Peer, fromSeq: int, limit: nat): seq<Attestation> {
    Take(SortBy(AtLeast(ChainOf(rows, peer), fromSeq), SeqLeq), limit)
  }

  /** Rows of a linked chain from a sequence number on are a suffix. */
  lemma {:induction false} AtLeastIsSuffix(chain: seq<Attestation>, first: int, fromSeq: int)
    requires forall i | 0 <= i < |chain| :: chain[i].seqNo == first + i
    ensures AtLeast(chain, fromSeq) == chain[Clamp(fromSeq - first, |chain|)..]
    decreases |chain|
  {
    if chain != [] {
      assert forall i | 0 <= i < |chain[1..]| :: chain[1..][i] == chain[i + 1];
      AtLeastIsSuffix(chain[1..], first + 1, fromSeq);
      if fromSeq <= first {
        assert chain[1..][Clamp(fromSeq - first - 1, |chain| - 1)..] == chain[1..];
      }
    }
  }

  function Clamp(n: int, high: nat): (r: nat)
    ensures r <= high
  {
    if n < 0 then 0 else if n > high then high else n
  }

  lemma LinkedSuffixSorted(chain: seq<Attestation>, k: nat)
    requires Linked(chain) && k <= |chain|
    ensures SortedBy(chain[k..], SeqLeq)
  {
    forall i, j | 0 <= i < j < |chain[k..]| ensures SeqLeq(chain[k..][i], chain[k..][j]) {
      assert chain[k + i].seqNo == k + i + 1 && chain[k + j].seqNo == k + j + 1;
    }
  }

  /** The rows a request fetches are a contiguous piece of the chain. */
  lemma ListFromIsSlice(rows: seq<Attestation>, peer: Peer, fromSeq: int, limit: nat)
    requires WellChained(rows)
    ensures var chain := ChainOf(rows, peer);
            ListFrom(rows, peer, fromSeq, limit) == Take(chain[Clamp(fromSeq - 1, |chain|)..], limit)
  {
    var chain := ChainOf(rows, peer);
    var k := Clamp(fromSeq - 1, |chain|);
    ChainLinks(rows, peer);
    assert forall i | 0 <= i < |chain| :: chain[i].seqNo == 1 + i;
    AtLeastIsSuffix(chain, 1, fromSeq);
    LinkedSuffixSorted(chain, k);
    SortByOfSorted(chain[k..], SeqLeq);
  }

  // ---- One request ----

  /** Sequence numbers a cursor can carry exactly. */
  const MAX_SAFE_SEQ: nat := 9007199254740991

  /** The tables as the existence probe, the attestation list and the pending list find them, and the clock. */
  datatype Reads = Reads(probe: Tables, list: Tables, pending: Tables, ts: PlainInt)

  datatype Reply = NotFound | Page(rows: seq<Attestation>, pending: seq<Pending>, nextCursor: Option<Text>)

  datatype Reject = BadCursor

  /** Signing and verifying under one key. */
  datatype Cursors = Cursors(sign: Payload -> Text, verify: Text -> Option<Payload>)

  ghost predicate RoundTrips(c: Cursors) {
    forall p :: c.verify(c.sign(p)) == Some(p) && c.sign(p) != []
  }

  function HmacCursors(mac: Mac): Cursors {
    Cursors((p: Payload) => SignCursor(mac, p), (t: Text) => VerifyCursor(mac, t))
  }

  /** The signed cursors of the previous module are such a pair, for every MAC. */
  lemma HmacCursorsRoundTrip(mac: Mac)
    ensures RoundTrips(HmacCursors(mac))
  {
    var c := HmacCursors(mac);
    forall p: Payload ensures c.verify(c.sign(p)) == Some(p) && c.sign(p) != [] {
      CursorRoundTrip(mac, p);
      SignedNotEmpty(mac, p);
    }
  }

  /** The `since` parameter; an empty one counts as absent. */
  function FromSeq(c: Cursors, peerFp: Text, cursor: Option<Text>): Result<int, Reject> {
    if cursor.None? || cursor.value == [] then Ok(0)
    else
      var decoded := c.verify(cursor.value);
      if decoded.None? || decoded.value.peerFp != peerFp then Err(BadCursor) else Ok(decoded.value.fromSeq)
  }

  /** The page and, when one row more than a page was found, the seq to continue from. */
  function PageOf(list: seq<Attestation>): (seq<Attestation>, Option<nat>) {
    if |list| > DEFAULT_PAGE_SIZE then (list[..DEFAULT_PAGE_SIZE], Some(list[DEFAULT_PAGE_SIZE - 1].seqNo + 1))
    else (list, None)
  }

  function CursorFor(c: Cursors, peerFp: Text, next: Option<nat>, ts: PlainInt): Option<Text> {
    if next.None? || !Decimal.IsPlain(next.value) then None else Some(c.sign(Payload(peerFp, next.value, ts)))
  }

  predicate EarlierCreated(a: Pending, b: Pending) { a.createdAt <= b.createdAt }

  /** `WHERE peer_fp = ? ORDER BY created_at ASC`. */
  function PendingFor(rows: seq<Pending>, peer: Peer): seq<Pending> {
    SortBy(Filter(rows, (p: Pending) => p.peer == peer), EarlierCreated)
  }

  /** `peerHasChain`: a row in either table. */
  predicate HasChain(t: Tables, peer: Peer) { ChainOf(t.attestations, peer) != [] || PendingFor(t.pending, peer) != [] }

  function Handle(c: Cursors, peerFp: Text, peer: Peer, seen: Reads, cursor: Option<Text>): Reply {
    var fromSeq := FromSeq(c, peerFp, cursor);
    if fromSeq.Err? || !HasChain(seen.probe, peer) then NotFound
    else
      var list := ListFrom(seen.list.attestations, peer, fromSeq.value, DEFAULT_PAGE_SIZE + 1);
      var pending := PendingFor(seen.pending.pending, peer);
      if list == [] && pending == [] then NotFound
      else Page(PageOf(list).0, pending, CursorFor(c, peerFp, PageOf(list).1, seen.ts))
  }

  /** The cursor check with its reject flag and starting position. */
  method CheckCursor(c: Cursors, peerFp: Text, cursor: Option<Text>) returns (rejectReason: Option<Reject>, fromSeq: int)
    ensures FromSeq(c, peerFp, cursor) == if rejectReason.Some? then Err(rejectReason.value) else Ok(fromSeq)
  {
    rejectReason, fromSeq := None, 0;
    if cursor.Some? && cursor.value != [] {
      var decoded := c.verify(cursor.value);
      if decoded.None? || decoded.value.peerFp != peerFp {
        rejectReason := Some(BadCursor);
      } else {
        fromSeq := decoded.value.fromSeq;
      }
    }
  }

  /** The handler: every reject is decided before the rows are fetched, and fetching can still come up empty. */
  method HandleRequest(c: Cursors, peerFp: Text, peer: Peer, seen: Reads, cursor: Option<Text>) returns (reply: Reply)
    ensures reply == Handle(c, peerFp, peer, seen, cursor)
  {
    var rejectReason, fromSeq := CheckCursor(c, peerFp, cursor);
    var hasChain := HasChain(seen.probe, peer);
    if rejectReason.Some? { return NotFound; }
    if !hasChain { return NotFound; }
    var attestations := ListFrom(seen.list.attestations, peer, fromSeq, DEFAULT_PAGE_SIZE + 1);
    var pending := PendingFor(seen.pending.pending, peer);
    if |attestations| == 0 && |pending| == 0 { return NotFound; }
    var page, next := PageOf(attestations).0, PageOf(attestations).1;
    reply := Page(page, pending, CursorFor(c, peerFp, next, seen.ts));
  }

  /** A cursor signed for one peer selects its position there and is refused for every other peer. */
  lemma CursorBelongsToPeer(c: Cursors, p: Payload, peerFp: Text)
    requires RoundTrips(c)
    ensures FromSeq(c, peerFp, Some(c.sign(p))) == if peerFp == p.peerFp then Ok(p.fromSeq) else Err(BadCursor)
  {
    assert c.verify(c.sign(p)) == Some(p);
  }

  // ---- Following next_cursor ----

  datatype Progress = At(cursor: Option<Text>) | Done | Failed

  datatype Walk = Walk(yielded: seq<Attestation>, progress: Progress)

  function Resume(w: Walk, reply: Reply): Walk {
    match reply
    case NotFound => Walk(w.yielded, Failed)
    case Page(rows, _, next) => Walk(w.yielded + rows, if next.None? then Done else At(next))
  }

  /** A client requests page after page, each against the store as it is then, until no cursor comes back. */
  function FollowOn(c: Cursors, peerFp: Text, peer: Peer, w: Walk, seen: Reads): Walk {
    if !w.progress.At? then w else Resume(w, Handle(c, peerFp, peer, seen, w.progress.cursor))
  }

  function Follow(c: Cursors, peerFp: Text, peer: Peer, requests: seq<Reads>): Walk {
    if requests == [] then Walk([], At(None))
    else FollowOn(c, peerFp, peer, Follow(c, peerFp, peer, requests[..|requests| - 1]), requests[|requests| - 1])
  }

  lemma FollowSnoc(c: Cursors, peerFp: Text, peer: Peer, front: seq<Reads>, last: Reads)
    ensures Follow(c, peerFp, peer, front + [last]) == FollowOn(c, peerFp, peer, Follow(c, peerFp, peer, front), last)
  {
    assert (front + [last])[..|front|] == front;
  }

  /** Attestations are only ever appended; the pending rows may come and go between any two reads. */
  ghost predicate Growing(requests: seq<Reads>) {
    && (forall i | 0 <= i < |requests| :: Readable(requests[i]))
    && (forall i, j | 0 <= i < j < |requests| :: requests[i].list.attestations <= requests[j].probe.attestations)
  }

  ghost predicate Readable(seen: Reads) {
    && WellChained(seen.list.attestations) && |seen.list.attestations| < MAX_SAFE_SEQ
    && seen.probe.attestations <= seen.list.attestations
  }

  /** Where a client stands: at a cursor for the row after what it has, or done. */
  ghost predicate OnTrack(c: Cursors, peerFp: Text, chain: seq<Attestation>, w: Walk, n: nat) {
    match w.progress
    case Failed => false
    case Done => w.yielded <= chain
    case At(cursor) =>
      && |w.yielded| == n * DEFAULT_PAGE_SIZE && w.yielded <= chain
      && (n > 0 ==> |w.yielded| < |chain|)
      && FromSeq(c, peerFp, cursor) == Ok(if n == 0 then 0 else |w.yielded| + 1)
  }

  lemma ChainShorter(rows: seq<Attestation>, peer: Peer)
    ensures |ChainOf(rows, peer)| <= |rows|
  {
    if rows != [] { ChainShorter(rows[..|rows| - 1], peer); }
  }

  /** A full page and a cursor to the row after it, or the rest of the chain. */
  lemma PageOfSlice(chain: seq<Attestation>, got: nat)
    requires Linked(chain) && got <= |chain|
    ensures var (page, next) := PageOf(Take(chain[got..], DEFAULT_PAGE_SIZE + 1));
      if |chain| - got > DEFAULT_PAGE_SIZE
      then page == chain[got..got + DEFAULT_PAGE_SIZE] && next == Some(got + DEFAULT_PAGE_SIZE + 1)
      else page == chain[got..] && next == None
  {
    var list := Take(chain[got..], DEFAULT_PAGE_SIZE + 1);
    if |chain| - got > DEFAULT_PAGE_SIZE {
      assert list == chain[got..got + DEFAULT_PAGE_SIZE + 1];
      assert list[..DEFAULT_PAGE_SIZE] == chain[got..got + DEFAULT_PAGE_SIZE];
      assert list[DEFAULT_PAGE_SIZE - 1] == chain[got + DEFAULT_PAGE_SIZE - 1];
    }
  }

  lemma Glue(chain: seq<Attestation>, a: nat, b: nat)
    requires a <= b <= |chain|
    ensures chain[..a] + chain[a..b] == chain[..b]
  {
  }

  /** A request without a cursor is turned away: not visible to the probe, or both lists came back empty. */
  predicate TurnedAway(seen: Reads, peer: Peer) {
    || !HasChain(seen.probe, peer)
    || (ChainOf(seen.list.attestations, peer) == [] && PendingFor(seen.pending.pending, peer) == [])
  }

  /** What one request from position `got` returns. */
  lemma HandleFrom(c: Cursors, peerFp: Text, peer: Peer, seen: Reads, cursor: Option<Text>, got: nat)
    requires WellChained(seen.list.attestations) && !TurnedAway(seen, peer)
    requires var chain := ChainOf(seen.list.attestations, peer); got <= |chain| && (got > 0 ==> got < |chain|)
    requires FromSeq(c, peerFp, cursor) == Ok(if got == 0 then 0 else got + 1)
    ensures var list := Take(ChainOf(seen.list.attestations, peer)[got..], DEFAULT_PAGE_SIZE + 1);
      Handle(c, peerFp, peer, seen, cursor)
      == Page(PageOf(list).0, PendingFor(seen.pending.pending, peer), CursorFor(c, peerFp, PageOf(list).1, seen.ts))
  {
    ListFromIsSlice(seen.list.attestations, peer, if got == 0 then 0 else got + 1, DEFAULT_PAGE_SIZE + 1);
  }

  lemma ResumeFull(c: Cursors, peerFp: Text, chain: seq<Attestation>, w: Walk, n: nat, pending: seq<Pending>, ts: PlainInt)
    requires RoundTrips(c)
    requires w.progress.At? && OnTrack(c, peerFp, chain, w, n)
    requires |chain| - |w.yielded| > DEFAULT_PAGE_SIZE && |chain| < MAX_SAFE_SEQ
    ensures var got := |w.yielded|;
      var next := CursorFor(c, peerFp, Some(got + DEFAULT_PAGE_SIZE + 1), ts);
      var after := Resume(w, Page(chain[got..got + DEFAULT_PAGE_SIZE], pending, next));
      OnTrack(c, peerFp, chain, after, n + 1) && after.progress.At?
  {
    var got := |w.yielded|;
    Glue(chain, got, got + DEFAULT_PAGE_SIZE);
    CursorBelongsToPeer(c, Payload(peerFp, got + DEFAULT_PAGE_SIZE + 1, ts), peerFp);
  }

  lemma ResumeLast(c: Cursors, peerFp: Text, chain: seq<Attestation>, w: Walk, n: nat, pending: seq<Pending>)
    requires w.progress.At? && OnTrack(c, peerFp, chain, w, n)
    ensures var after := Resume(w, Page(chain[|w.yielded|..], pending, None));
      after.progress.Done? && after.yielded == chain
  {
    Glue(chain, |w.yielded|, |chain|);
    assert chain[|w.yielded|..|chain|] == chain[|w.yielded|..] && chain[..|chain|] == chain;
  }

  /** One more page, from a position the chain still covers. */
  lemma PageStep(c: Cursors, peerFp: Text, peer: Peer, seen: Reads, w: Walk, n: nat)
    requires RoundTrips(c) && Readable(seen) && !TurnedAway(seen, peer)
    requires w.progress.At? && OnTrack(c, peerFp, ChainOf(seen.list.attestations, peer), w, n)
    ensures var chain := ChainOf(seen.list.attestations, peer);
      var w' := FollowOn(c, peerFp, peer, w, seen);
      && OnTrack(c, peerFp, chain, w', n + 1)
      && (w'.progress.Done? ==> w'.yielded == chain)
      && (w'.progress.Done? <==> |chain| <= (n + 1) * DEFAULT_PAGE_SIZE)
  {
    var chain, got := ChainOf(seen.list.attestations, peer), |w.yielded|;
    HandleFrom(c, peerFp, peer, seen, w.progress.cursor, got);
    ChainLinks(seen.list.attestations, peer);
    ChainShorter(seen.list.attestations, peer);
    PageOfSlice(chain, got);
    if |chain| - got > DEFAULT_PAGE_SIZE {
      ResumeFull(c, peerFp, chain, w, n, PendingFor(seen.pending.pending, peer), seen.ts);
    } else {
      ResumeLast(c, peerFp, chain, w, n, PendingFor(seen.pending.pending, peer));
    }
  }

  lemma OnTrackGrows(c: Cursors, peerFp: Text, early: seq<Attestation>, late: seq<Attestation>, w: Walk, n: nat)
    requires early <= late && OnTrack(c, peerFp, early, w, n)
    ensures OnTrack(c, peerFp, late, w, n)
  {
  }

  /** A peer with an attestation at the first read is never turned away. */
  lemma AttestedIsServed(seen: Reads, peer: Peer)
    requires seen.probe.attestations <= seen.list.attestations && ChainOf(seen.probe.attestations, peer) != []
    ensures !TurnedAway(seen, peer)
  {
    ChainsExtend(seen.probe.attestations, seen.list.attestations, peer);
  }

  /** A later request of a walk finds at least the chain the last one saw. */
  lemma NextRequest(c: Cursors, peerFp: Text, peer: Peer, before: Reads, seen: Reads, w: Walk, n: nat)
    requires Readable(seen) && before.list.attestations <= seen.probe.attestations && n > 0
    requires OnTrack(c, peerFp, ChainOf(before.list.attestations, peer), w, n)
    ensures OnTrack(c, peerFp, ChainOf(seen.list.attestations, peer), w, n)
    ensures w.progress.At? ==> !TurnedAway(seen, peer)
  {
    ChainsExtend(before.list.attestations, seen.probe.attestations, peer);
    ChainsExtend(seen.probe.attestations, seen.list.attestations, peer);
    OnTrackGrows(c, peerFp, ChainOf(before.list.attestations, peer), ChainOf(seen.list.attestations, peer), w, n);
  }

  /** The walk ended on the whole chain one of the requests listed. */
  ghost predicate FinishedOnSome(peer: Peer, requests: seq<Reads>, yielded: seq<Attestation>) {
    exists k :: 0 <= k < |requests| && yielded == ChainOf(requests[k].list.attestations, peer)
  }

  lemma FinishedOnMore(peer: Peer, front: seq<Reads>, last: Reads, yielded: seq<Attestation>)
    ensures FinishedOnSome(peer, front, yielded) ==> FinishedOnSome(peer, front + [last], yielded)
    ensures yielded == ChainOf(last.list.attestations, peer) ==> FinishedOnSome(peer, front + [last], yielded)
  {
    var all := front + [last];
    assert all[|front|] == last;
    if k :| 0 <= k < |front| && yielded == ChainOf(front[k].list.attestations, peer) {
      assert all[k] == front[k];
    }
  }

  lemma FirstPage(c: Cursors, peerFp: Text, peer: Peer, seen: Reads)
    requires RoundTrips(c) && Readable(seen) && !TurnedAway(seen, peer)
    ensures var w, chain := FollowOn(c, peerFp, peer, Walk([], At(None)), seen), ChainOf(seen.list.attestations, peer);
      && OnTrack(c, peerFp, chain, w, 1) && (w.progress.Done? ==> w.yielded == chain)
      && (w.progress.Done? <==> |chain| <= DEFAULT_PAGE_SIZE)
  {
    assert OnTrack(c, peerFp, ChainOf(seen.list.attestations, peer), Walk([], At(None)), 0);
    PageStep(c, peerFp, peer, seen, Walk([], At(None)), 0);
  }

  lemma GrowingFront(front: seq<Reads>, last: Reads)
    requires Growing(front + [last]) && front != []
    ensures Growing(front) && Readable(last)
    ensures front[|front| - 1].list.attestations <= last.probe.attestations
    ensures (front + [last])[0] == front[0]
  {
    var all := front + [last];
    assert forall i | 0 <= i < |front| :: all[i] == front[i];
    assert all[|front|] == last;
  }

  ghost predicate OnPrefix(c: Cursors, peerFp: Text, peer: Peer, requests: seq<Reads>)
    requires requests != []
  {
    var w := Follow(c, peerFp, peer, requests);
    && OnTrack(c, peerFp, ChainOf(requests[|requests| - 1].list.attestations, peer), w, |requests|)
    && (w.progress.Done? ==> FinishedOnSome(peer, requests, w.yielded))
  }

  lemma FirstPrefix(c: Cursors, peerFp: Text, peer: Peer, seen: Reads)
    requires RoundTrips(c) && Readable(seen) && !TurnedAway(seen, peer)
    ensures OnPrefix(c, peerFp, peer, [seen])
  {
    FollowSnoc(c, peerFp, peer, [], seen);
    assert [] + [seen] == [seen];
    FirstPage(c, peerFp, peer, seen);
    FinishedOnMore(peer, [], seen, Follow(c, peerFp, peer, [seen]).yielded);
  }

  lemma NextPrefix(c: Cursors, peerFp: Text, peer: Peer, front: seq<Reads>, last: Reads)
    requires RoundTrips(c) && front != [] && Growing(front + [last]) && OnPrefix(c, peerFp, peer, front)
    ensures OnPrefix(c, peerFp, peer, front + [last])
  {
    var w := Follow(c, peerFp, peer, front);
    FollowSnoc(c, peerFp, peer, front, last);
    GrowingFront(front, last);
    NextRequest(c, peerFp, peer, front[|front| - 1], last, w, |front|);
    if w.progress.At? { PageStep(c, peerFp, peer, last, w, |front|); }
    FinishedOnMore(peer, front, last, FollowOn(c, peerFp, peer, w, last).yielded);
  }

  /**
   Whatever is written between the reads, a walk that is not turned away at its first
   request never fails and yields a gap-free prefix of the current chain in seq order;
   when it ends it has yielded the whole chain one of its requests listed.
   */
  lemma {:induction false} WalkYieldsPrefix(c: Cursors, peerFp: Text, peer: Peer, requests: seq<Reads>)
    requires RoundTrips(c)
    requires requests != [] && Growing(requests) && !TurnedAway(requests[0], peer)
    ensures var w := Follow(c, peerFp, peer, requests);
      && OnTrack(c, peerFp, ChainOf(requests[|requests| - 1].list.attestations, peer), w, |requests|)
      && (w.progress.Done? ==> FinishedOnSome(peer, requests, w.yielded))
  {
    hide Follow, OnTrack, ChainOf, FinishedOnSome;
    var n := |requests| - 1;
    var front, last := requests[..n], requests[n];
    assert requests == front + [last];
    if n == 0 {
      assert requests == [last] && Readable(requests[0]);
      FirstPrefix(c, peerFp, peer, last);
    } else {
      GrowingFront(front, last);
      WalkYieldsPrefix(c, peerFp, peer, front);
      NextPrefix(c, peerFp, peer, front, last);
    }
  }

  lemma {:induction false} TurnedAwayFails(c: Cursors, peerFp: Text, peer: Peer, requests: seq<Reads>)
    requires requests != [] && TurnedAway(requests[0], peer)
    requires forall i | 0 <= i < |requests| :: WellChained(requests[i].list.attestations)
    ensures Follow(c, peerFp, peer, requests).progress.Failed?
  {
    hide WellChained, ChainOf, PendingFor, ListFrom, SortBy;
    var front, last := requests[..|requests| - 1], requests[|requests| - 1];
    assert requests == front + [last];
    FollowSnoc(c, peerFp, peer, front, last);
    if front == [] {
      ListFromIsSlice(last.list.attestations, peer, 0, DEFAULT_PAGE_SIZE + 1);
    } else {
      TurnedAwayFails(c, peerFp, peer, front);
    }
  }

  /** A walk fails exactly when its first request is turned away. */
  lemma WalkFailsExactly(c: Cursors, peerFp: Text, peer: Peer, requests: seq<Reads>)
    requires RoundTrips(c) && requests != [] && Growing(requests)
    ensures Follow(c, peerFp, peer, requests).progress.Failed? <==> TurnedAway(requests[0], peer)
  {
    if TurnedAway(requests[0], peer) {
      assert forall i | 0 <= i < |requests| :: Readable(requests[i]);
      TurnedAwayFails(c, peerFp, peer, requests);
    } else {
      WalkYieldsPrefix(c, peerFp, peer, requests);
    }
  }

  // ---- What may happen between two reads ----

  /** A statement of another request, or a drain's turn on one claimed row. */
  datatype StoreStep = Writes(writes: seq<Write>) | Turns(row: Pending, turn: Turn, nowMs: int, contentType: string)

  function AfterSteps(t: Tables, steps: seq<StoreStep>): Tables {
    if steps == [] then t
    else
      var u := AfterSteps(t, steps[..|steps| - 1]);
      match steps[|steps| - 1]
      case Writes(ws) => AfterWrites(u, ws)
      case Turns(row, turn, nowMs, contentType) => DrainRow(u, row, turn, nowMs, contentType)
  }

  lemma StepKeepsChains(t: Tables, step: StoreStep)
    requires Sound(t)
    ensures var u := AfterSteps(t, [step]); Sound(u) && t.attestations <= u.attestations
  {
    assert AfterSteps(t, [step][..0]) == t;
    match step
    case Writes(ws) => WritesKeep(t, ws);
    case Turns(row, turn, nowMs, contentType) =>
      var after := AfterGate(t, row, turn, nowMs, contentType);
      GateKeeps(t, row, turn, nowMs, contentType);
      CommitKeepsUnique(after.pending, row.peer, row.contentHash);
      RecordFailedKeepsKeys(after.pending, row.peer, row.contentHash, nowMs);
  }

  /** So the reads of successive requests, with any steps between them, grow as the results above ask. */
  lemma {:induction false} StepsKeepChains(t: Tables, steps: seq<StoreStep>)
    requires Sound(t)
    ensures var u := AfterSteps(t, steps); Sound(u) && t.attestations <= u.attestations
  {
    if steps != [] {
      var front, last := steps[..|steps| - 1], steps[|steps| - 1];
      StepsKeepChains(t, front);
      assert [last][..0] == [] && AfterSteps(AfterSteps(t, front), []) == AfterSteps(t, front);
      StepKeepsChains(AfterSteps(t, front), last);
    }
  }

  /** The reads of one request with store steps in between. */
  function Interleaved(t: Tables, first: seq<StoreStep>, second: seq<StoreStep>, ts: PlainInt): Reads {
    Reads(t, AfterSteps(t, first), AfterSteps(AfterSteps(t, first), second), ts)
  }

  lemma InterleavedReadable(t: Tables, first: seq<StoreStep>, second: seq<StoreStep>, ts: PlainInt)
    requires Sound(t) && |AfterSteps(t, first).attestations| < MAX_SAFE_SEQ
    ensures Readable(Interleaved(t, first, second, ts))
  {
    StepsKeepChains(t, first);
  }

  lemma OnePendingFor(row: Pending)
    ensures PendingFor([row], row.peer) == [row] && PendingFor([], row.peer) == []
  {
    var p := (q: Pending) => q.peer == row.peer;
    assert Filter([row], p) == [row] + Filter([], p) == [row];
    assert SortBy([row], EarlierCreated) == [row];
  }

  /**
   The refusal the code expects: a peer whose only row is pending passes the probe, and a
   drain moves the row into the chain between the two lists, which both come back empty.
   The next walk, after the drain, is served.
   */
  lemma DrainedBetweenTheLists(c: Cursors, peerFp: Text, claim: Claim, nowMs: int, contentType: string, ts: PlainInt)
    requires RoundTrips(c)
    ensures var t := AfterWrite(Tables([], []), Deferred(claim));
      var turn := Turns(FreshPending(claim), Turn([], false, []), nowMs, contentType);
      var request := Interleaved(t, [], [turn], ts);
      && Sound(t) && HasChain(t, claim.peer) && Growing([request])
      && Follow(c, peerFp, claim.peer, [request]).progress.Failed?
      && !TurnedAway(Interleaved(request.pending, [], [], ts), claim.peer)
  {
    var row := FreshPending(claim);
    var t := AfterWrite(Tables([], []), Deferred(claim));
    var step := Turns(row, Turn([], false, []), nowMs, contentType);
    assert t == Tables([], [row]);
    OnePendingFor(row);
    QuietRow(t, row, nowMs, contentType);
    assert AfterSteps(t, []) == t && [step][..0] == [];
    var u := AfterSteps(t, [step]);
    assert u == DrainRow(t, row, Turn([], false, []), nowMs, contentType);
    assert Commit([row], row.peer, row.contentHash) == Commit([], row.peer, row.contentHash) == [];
    assert HashesOf(ChainOf(u.attestations, row.peer)) == HashesOf(ChainOf([], row.peer)) + [row.contentHash];
    var request := Interleaved(t, [], [step], ts);
    assert Growing([request]) && TurnedAway(request, claim.peer);
    WalkFailsExactly(c, peerFp, claim.peer, [request]);
    assert AfterSteps(u, []) == u;
  }

  // ---- A chain that does not change ----

  /** After `n` pages of a fixed chain: everything, or the first `n` full pages. */
  ghost predicate ExactlyCovered(chain: seq<Attestation>, w: Walk, n: nat) {
    && (w.progress.Done? <==> |chain| <= n * DEFAULT_PAGE_SIZE)
    && (if w.progress.Done? then w.yielded == chain
        else w.progress.At? && n * DEFAULT_PAGE_SIZE <= |chain| && w.yielded == chain[..n * DEFAULT_PAGE_SIZE])
  }

  ghost predicate Fixed(requests: seq<Reads>, rows: seq<Attestation>) {
    forall i | 0 <= i < |requests| :: requests[i].list.attestations == rows
  }

  lemma CoveredStays(chain: seq<Attestation>, w: Walk, n: nat)
    requires ExactlyCovered(chain, w, n) && !w.progress.At?
    ensures ExactlyCovered(chain, w, n + 1)
  {
  }

  lemma PageCovers(c: Cursors, peerFp: Text, peer: Peer, seen: Reads, w: Walk, n: nat)
    requires RoundTrips(c) && Readable(seen) && !TurnedAway(seen, peer)
    requires w.progress.At? && OnTrack(c, peerFp, ChainOf(seen.list.attestations, peer), w, n)
    ensures ExactlyCovered(ChainOf(seen.list.attestations, peer), FollowOn(c, peerFp, peer, w, seen), n + 1)
  {
    PageStep(c, peerFp, peer, seen, w, n);
  }

  lemma FirstPageCovers(c: Cursors, peerFp: Text, peer: Peer, seen: Reads)
    requires RoundTrips(c) && Readable(seen) && !TurnedAway(seen, peer)
    ensures ExactlyCovered(ChainOf(seen.list.attestations, peer), Follow(c, peerFp, peer, [seen]), 1)
  {
    FollowSnoc(c, peerFp, peer, [], seen);
    assert [] + [seen] == [seen];
    FirstPage(c, peerFp, peer, seen);
  }

  lemma NextPageCovers(c: Cursors, peerFp: Text, peer: Peer, front: seq<Reads>, last: Reads)
    requires RoundTrips(c) && front != [] && Growing(front + [last]) && !TurnedAway(front[0], peer)
    requires ExactlyCovered(ChainOf(last.list.attestations, peer), Follow(c, peerFp, peer, front), |front|)
    ensures ExactlyCovered(ChainOf(last.list.attestations, peer), Follow(c, peerFp, peer, front + [last]), |front| + 1)
  {
    var w := Follow(c, peerFp, peer, front);
    FollowSnoc(c, peerFp, peer, front, last);
    GrowingFront(front, last);
    if w.progress.At? {
      WalkYieldsPrefix(c, peerFp, peer, front);
      NextRequest(c, peerFp, peer, front[|front| - 1], last, w, |front|);
      PageCovers(c, peerFp, peer, last, w, |front|);
    } else {
      CoveredStays(ChainOf(last.list.attestations, peer), w, |front|);
    }
  }

  lemma FixedFront(front: seq<Reads>, last: Reads, rows: seq<Attestation>)
    requires Fixed(front + [last], rows)
    ensures Fixed(front, rows) && last.list.attestations == rows
  {
    var all := front + [last];
    assert all[|front|] == last && forall i | 0 <= i < |front| :: all[i] == front[i];
  }

  /** On a fixed chain the walk ends after exactly ceil(n / 100) pages, or one, and has yielded every row once, in order. */
  lemma {:induction false} FixedChainWalkIsExact(c: Cursors, peerFp: Text, peer: Peer, requests: seq<Reads>,
                                                 rows: seq<Attestation>)
    requires RoundTrips(c)
    requires requests != [] && Growing(requests) && Fixed(requests, rows) && !TurnedAway(requests[0], peer)
    ensures ExactlyCovered(ChainOf(rows, peer), Follow(c, peerFp, peer, requests), |requests|)
  {
    hide Follow, ExactlyCovered, ChainOf;
    var n := |requests| - 1;
    var front, last := requests[..n], requests[n];
    assert requests == front + [last];
    FixedFront(front, last, rows);
    if n == 0 {
      assert requests == [last] && Readable(requests[0]);
      FirstPageCovers(c, peerFp, peer, last);
    } else {
      GrowingFront(front, last);
      FixedChainWalkIsExact(c, peerFp, peer, front, rows);
      NextPageCovers(c, peerFp, peer, front, last);
    }
  }

  // ---- The pending list, and refused cursors ----

  /** The peer's rows and nobody else's, each as often as in the table, oldest first. */
  ghost predicate ListsPending(list: seq<Pending>, rows: seq<Pending>, peer: Peer) {
    && (forall p: Pending :: multiset(list)[p] == if p.peer == peer then multiset(rows)[p] else 0)
    && forall i, j | 0 <= i < j < |list| :: list[i].createdAt <= list[j].createdAt
  }

  lemma {:induction false} FilterCounts(rows: seq<Pending>, peer: Peer, p: Pending)
    ensures multiset(Filter(rows, (q: Pending) => q.peer == peer))[p] == if p.peer == peer then multiset(rows)[p] else 0
  {
    if rows != [] {
      FilterCounts(rows[1..], peer, p);
      assert rows == [rows[0]] + rows[1..];
      var rest := Filter(rows[1..], (q: Pending) => q.peer == peer);
      assert multiset([rows[0]] + rest) == multiset([rows[0]]) + multiset(rest);
    }
  }

  lemma PendingIsListed(rows: seq<Pending>, peer: Peer)
    ensures ListsPending(PendingFor(rows, peer), rows, peer)
  {
    var list := PendingFor(rows, peer);
    forall p: Pending ensures multiset(list)[p] == if p.peer == peer then multiset(rows)[p] else 0 {
      FilterCounts(rows, peer, p);
    }
    SortByIsSorted(Filter(rows, (p: Pending) => p.peer == peer), EarlierCreated);
    forall i, j | 0 <= i < j < |list| ensures list[i].createdAt <= list[j].createdAt {
      assert EarlierCreated(list[i], list[j]);
    }
  }

  /** Every page comes with exactly the peer's pending rows at the third read. */
  lemma PagesListPending(c: Cursors, peerFp: Text, peer: Peer, seen: Reads, cursor: Option<Text>)
    ensures var reply := Handle(c, peerFp, peer, seen, cursor);
      reply.Page? ==> ListsPending(reply.pending, seen.pending.pending, peer)
  {
    PendingIsListed(seen.pending.pending, peer);
  }

  /** A cursor that does not verify, or that was signed for another peer, gets nothing. */
  lemma RefusedCursorGetsNothing(c: Cursors, peerFp: Text, peer: Peer, seen: Reads, cursor: Text, p: Payload)
    requires RoundTrips(c)
    ensures cursor != [] && c.verify(cursor).None? ==> Handle(c, peerFp, peer, seen, Some(cursor)).NotFound?
    ensures p.peerFp != peerFp ==> Handle(c, peerFp, peer, seen, Some(c.sign(p))).NotFound?
  {
    CursorBelongsToPeer(c, p, peerFp);
  }

  /** The cursor of a full page is signed for this peer, continues after its last row and carries the read time. */
  lemma NextCursorSays(c: Cursors, peerFp: Text, peer: Peer, seen: Reads, cursor: Option<Text>)
    requires RoundTrips(c)
    ensures var reply := Handle(c, peerFp, peer, seen, cursor);
      reply.Page? && reply.nextCursor.Some? ==>
        && |reply.rows| == 100
        && var next := c.verify(reply.nextCursor.value);
           next.Some? && next.value.peerFp == peerFp && next.value.fromSeq == reply.rows[99].seqNo + 1 && next.value.ts == seen.ts
  {
    hide ListFrom, PendingFor, HasChain;
    assert forall p :: c.verify(c.sign(p)) == Some(p);
  }
}
