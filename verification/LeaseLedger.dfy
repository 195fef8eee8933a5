/**
 Replay defence and the lease hash chain (src/routes/lease-middleware.ts:438-449,
 546-561; src/trust-store.ts:159-160, 245-251, 420-475; src/storage/seen-nonces.ts;
 src/storage/peer-lease-counters.ts). Requests snapshot the clock, check the skew, and
 reach the ledger later; an alarm deletes old nonces. There is one clock.
 */
module LeaseLedger {
  import opened Wrappers
  import Decimal

  /** Strings as UTF-16 code units. */
  type Text = seq<int>

  const MAX_CLOCK_SKEW_MS: int := 60000
  const SEEN_NONCES_RETENTION_MS: int := 3600000
  /** Longest delay from clock snapshot to ledger call that still excludes replays. */
  const SAFE_DELAY_MS: int := 3480000

  /** What the signature binds: one certificate, one nonce, one client timestamp. */
  datatype Envelope = Envelope(certFp: Text, nonce: Text, ts: int)

  datatype NonceKey = NonceKey(certFp: Text, nonce: Text)

  datatype Call = Call(env: Envelope, peer: Text, snapMs: int)

  /** History of accepted calls, with the ledger's clock at acceptance. */
  datatype Accepted = Accepted(call: Call, atMs: int)

  datatype Counter = Counter(seqNo: nat, lastChainHash: Text, lastCertFp: Text, updatedAt: int)

  datatype Ledger = Ledger(
    clock: int, nonces: map<NonceKey, int>, counters: map<Text, Counter>,
    inflight: map<nat, Call>, accepted: seq<Accepted>)

  datatype Event =
    | Tick(ms: nat)
    | Snapshot(id: nat, env: Envelope, peer: Text)
    | Rpc(id: nat)
    | Drop(id: nat)
    | Alarm

  datatype Step = Step(seqNo: nat, chainHash: Text)

  function KeyOf(env: Envelope): NonceKey { NonceKey(env.certFp, env.nonce) }

  function ZeroHash(): Text { seq(64, _ => 48) }

  /** Input of the chain hash: four strings with no separators. */
  function Transcript(prev: Text, certFp: Text, nonce: Text, ts: int): Text {
    prev + certFp + nonce + Decimal.Text(ts)
  }

  /** `computeNextLeaseStep`; `digest` is UTF-8, SHA-256 and hex together. */
  function NextStep(digest: Text -> Text, counters: map<Text, Counter>, call: Call): Step {
    var prevHash := if call.peer in counters then counters[call.peer].lastChainHash else ZeroHash();
    var prevSeq := if call.peer in counters then counters[call.peer].seqNo else 0;
    Step(prevSeq + 1, digest(Transcript(prevHash, call.env.certFp, call.env.nonce, call.snapMs)))
  }

  function Advanced(digest: Text -> Text, counters: map<Text, Counter>, call: Call): map<Text, Counter> {
    var step := NextStep(digest, counters, call);
    counters[call.peer := Counter(step.seqNo, step.chainHash, call.env.certFp, call.snapMs)]
  }

  function Skewed(nowMs: int, ts: int): bool {
    (if nowMs >= ts then nowMs - ts else ts - nowMs) > MAX_CLOCK_SKEW_MS
  }

  /** Rows older than the cutoff go. */
  function Pruned(nonces: map<NonceKey, int>, beforeMs: int): map<NonceKey, int> {
    map k | k in nonces && nonces[k] >= beforeMs :: nonces[k]
  }

  function AfterRpc(digest: Text -> Text, l: Ledger, id: nat): Ledger {
    if id !in l.inflight then l
    else
      var call := l.inflight[id];
      var done := l.(inflight := l.inflight - {id});
      if KeyOf(call.env) in l.nonces then done
      else done.(nonces := l.nonces[KeyOf(call.env) := call.snapMs],
                 counters := Advanced(digest, l.counters, call),
                 accepted := l.accepted + [Accepted(call, l.clock)])
  }

  function Next(digest: Text -> Text, l: Ledger, e: Event): Ledger {
    match e
    case Tick(ms) => l.(clock := l.clock + ms)
    case Snapshot(id, env, peer) =>
      if id in l.inflight || Skewed(l.clock, env.ts) then l
      else l.(inflight := l.inflight[id := Call(env, peer, l.clock)])
    case Rpc(id) => AfterRpc(digest, l, id)
    case Drop(id) => l.(inflight := l.inflight - {id})
    case Alarm => l.(nonces := Pruned(l.nonces, l.clock - SEEN_NONCES_RETENTION_MS))
  }

  function Start(clock: int): Ledger { Ledger(clock, map[], map[], map[], []) }

  function Exec(digest: Text -> Text, l: Ledger, events: seq<Event>): Ledger {
    if events == [] then l else Next(digest, Exec(digest, l, events[..|events| - 1]), events[|events| - 1])
  }

  // ---- The trust store's methods ----

  class LedgerStore {
    const digest: Text -> Text
    var nonces: map<NonceKey, int>
    var counters: map<Text, Counter>

    constructor (digest: Text -> Text)
      ensures this.digest == digest && nonces == map[] && counters == map[]
    {
      this.digest := digest;
      nonces, counters := map[], map[];
    }

    /** The helper's own check that a step extends the chain. */
    method AssertChainStep(prevSeq: nat, prevHash: Text, step: Step, certFp: Text, nonce: Text, ts: int)
      returns (ok: bool)
      ensures ok <==> step.seqNo == prevSeq + 1 && step.chainHash == digest(Transcript(prevHash, certFp, nonce, ts))
    {
      if step.seqNo != prevSeq + 1 { return false; }
      ok := step.chainHash == digest(Transcript(prevHash, certFp, nonce, ts));
    }

    /** None is the replay result; nothing is written then. */
    method VerifyLeaseAndAdvanceChain(call: Call) returns (r: Option<Step>)
      modifies this
      ensures r == if KeyOf(call.env) in old(nonces) then None else Some(NextStep(digest, old(counters), call))
      ensures r.None? ==> nonces == old(nonces) && counters == old(counters)
      ensures r.Some? ==> nonces == old(nonces)[KeyOf(call.env) := call.snapMs]
                          && counters == Advanced(digest, old(counters), call)
    {
      var prevHash, prevSeq := ZeroHash(), 0;
      if call.peer in counters {
        prevHash, prevSeq := counters[call.peer].lastChainHash, counters[call.peer].seqNo;
      }
      var hash := digest(Transcript(prevHash, call.env.certFp, call.env.nonce, call.snapMs));
      var step := Step(prevSeq + 1, hash);
      var ok := AssertChainStep(prevSeq, prevHash, step, call.env.certFp, call.env.nonce, call.snapMs);
      assert ok;
      if KeyOf(call.env) in nonces { return None; }
      nonces := nonces[KeyOf(call.env) := call.snapMs];
      counters := counters[call.peer := Counter(step.seqNo, step.chainHash, call.env.certFp, call.snapMs)];
      r := Some(step);
    }

    method SweepNonces(nowMs: int)
      modifies `nonces
      ensures nonces == Pruned(old(nonces), nowMs - SEEN_NONCES_RETENTION_MS)
    {
      var keys, kept := nonces.Keys, map[];
      while keys != {}
        invariant keys <= nonces.Keys && nonces == old(nonces)
        invariant kept == map k | k in nonces && k !in keys && nonces[k] >= nowMs - SEEN_NONCES_RETENTION_MS :: nonces[k]
        decreases |keys|
      {
        var k :| k in keys;
        keys := keys - {k};
        if nonces[k] >= nowMs - SEEN_NONCES_RETENTION_MS { kept := kept[k := nonces[k]]; }
      }
      nonces := kept;
    }
  }

  // ---- No replay within the safe delay ----

  ghost predicate Guarded(l: Ledger, a: Accepted) {
    l.clock > a.call.snapMs + SEEN_NONCES_RETENTION_MS
    || (KeyOf(a.call.env) in l.nonces && l.nonces[KeyOf(a.call.env)] == a.call.snapMs)
  }

  ghost predicate InWindow(c: Call) { -MAX_CLOCK_SKEW_MS <= c.snapMs - c.env.ts <= MAX_CLOCK_SKEW_MS }

  /** A repeated envelope was accepted only after waiting out the retention from the first snapshot. */
  ghost predicate RepeatsAreLate(accepted: seq<Accepted>) {
    forall i, j | 0 <= i < j < |accepted| && accepted[i].call.env == accepted[j].call.env ::
      accepted[j].atMs - accepted[j].call.snapMs > SAFE_DELAY_MS
  }

  ghost predicate Inv(l: Ledger) {
    && (forall a | a in l.accepted :: Guarded(l, a) && InWindow(a.call))
    && (forall id | id in l.inflight :: InWindow(l.inflight[id]))
    && RepeatsAreLate(l.accepted)
  }

  lemma RpcKeeps(digest: Text -> Text, l: Ledger, id: nat)
    requires Inv(l)
    ensures Inv(AfterRpc(digest, l, id))
  {
    if id in l.inflight && KeyOf(l.inflight[id].env) !in l.nonces {
      var l', call := AfterRpc(digest, l, id), l.inflight[id];
      forall a | a in l'.accepted ensures Guarded(l', a) && InWindow(a.call) {
        if a in l.accepted { assert Guarded(l, a); }
      }
      forall i | 0 <= i < |l.accepted| && l.accepted[i].call.env == call.env
        ensures l.clock - call.snapMs > SAFE_DELAY_MS
      {
        assert l.accepted[i] in l.accepted && Guarded(l, l.accepted[i]);
      }
    }
  }

  lemma NextKeeps(digest: Text -> Text, l: Ledger, e: Event)
    requires Inv(l)
    ensures Inv(Next(digest, l, e))
  {
    match e
    case Rpc(id) => RpcKeeps(digest, l, id);
    case _ =>
      var l' := Next(digest, l, e);
      forall a | a in l'.accepted ensures Guarded(l', a) { assert Guarded(l, a); }
  }

  lemma {:induction false} ReachableInv(digest: Text -> Text, clock: int, events: seq<Event>)
    ensures Inv(Exec(digest, Start(clock), events))
  {
    if events != [] {
      ReachableInv(digest, clock, events[..|events| - 1]);
      NextKeeps(digest, Exec(digest, Start(clock), events[..|events| - 1]), events[|events| - 1]);
    }
  }

  ghost predicate DelaysAtMost(accepted: seq<Accepted>, maxDelay: int) {
    forall i | 0 <= i < |accepted| :: accepted[i].atMs - accepted[i].call.snapMs <= maxDelay
  }

  ghost predicate SomeRepeat(accepted: seq<Accepted>) {
    exists i, j :: 0 <= i < j < |accepted| && accepted[i].call.env == accepted[j].call.env
  }

  ghost predicate Repeats(digest: Text -> Text, maxDelay: int, clock: int, events: seq<Event>) {
    var accepted := Exec(digest, Start(clock), events).accepted;
    DelaysAtMost(accepted, maxDelay) && SomeRepeat(accepted)
  }

  /** The shortest run that accepts one envelope twice. */
  function ReplayRun(env: Envelope, peer: Text): seq<Event> {
    [Snapshot(0, env, peer), Rpc(0), Tick(120000), Snapshot(1, env, peer), Tick(3480001), Alarm, Rpc(1)]
  }

  lemma ReplayRunFirstHalf(digest: Text -> Text, env: Envelope, peer: Text)
    requires env.ts == 60000
    ensures var call := Call(env, peer, 0);
      var run := ReplayRun(env, peer);
      Exec(digest, Start(0), run[..4])
      == Ledger(120000, map[KeyOf(env) := 0], Advanced(digest, map[], call),
                map[1 := Call(env, peer, 120000)], [Accepted(call, 0)])
  {
    var run := ReplayRun(env, peer);
    var call := Call(env, peer, 0);
    assert run[..4][..3] == run[..3] && run[..3][..2] == run[..2] && run[..2][..1] == run[..1] && run[..1][..0] == [];
    assert Exec(digest, Start(0), run[..0]) == Start(0);
    var l1 := Exec(digest, Start(0), run[..1]);
    assert l1 == Start(0).(inflight := map[0 := call]);
    var l2 := Exec(digest, Start(0), run[..2]);
    assert map[0 := call] - {0} == map[];
    assert l2 == Ledger(0, map[KeyOf(env) := 0], Advanced(digest, map[], call), map[], [Accepted(call, 0)]);
    var l3 := Exec(digest, Start(0), run[..3]);
    assert l3 == l2.(clock := 120000);
  }

  lemma ReplayRunRepeats(digest: Text -> Text, env: Envelope, peer: Text)
    requires env.ts == 60000
    ensures Exec(digest, Start(0), ReplayRun(env, peer)).accepted
            == [Accepted(Call(env, peer, 0), 0), Accepted(Call(env, peer, 120000), 3600001)]
  {
    var run := ReplayRun(env, peer);
    ReplayRunFirstHalf(digest, env, peer);
    assert run[..7] == run && run[..7][..6] == run[..6] && run[..6][..5] == run[..5] && run[..5][..4] == run[..4];
    var l4 := Exec(digest, Start(0), run[..4]);
    var l5 := Exec(digest, Start(0), run[..5]);
    assert l5 == l4.(clock := 3600001);
    var l6 := Exec(digest, Start(0), run[..6]);
    assert Pruned(l5.nonces, 1) == map[];
    assert l6 == l5.(nonces := map[]);
    assert 1 in l6.inflight && l6.inflight[1] == Call(env, peer, 120000);
  }

  /**
   The replay window is closed exactly up to retention minus twice the skew: if every
   accepted call reaches the ledger within `maxDelay` of its clock snapshot, some run
   accepts an envelope twice if and only if maxDelay exceeds 3,480,000 ms.
   */
  lemma ReplayBoundIsExact(digest: Text -> Text, maxDelay: int)
    ensures (exists clock, events :: Repeats(digest, maxDelay, clock, events)) <==> maxDelay > SAFE_DELAY_MS
  {
    if clock, events :| Repeats(digest, maxDelay, clock, events) {
      ReachableInv(digest, clock, events);
    }
    if maxDelay > SAFE_DELAY_MS {
      var env := Envelope([], [], 60000);
      ReplayRunRepeats(digest, env, []);
      var accepted := Exec(digest, Start(0), ReplayRun(env, [])).accepted;
      assert accepted[0].call.env == accepted[1].call.env;
      assert Repeats(digest, maxDelay, 0, ReplayRun(env, []));
    }
  }

  // ---- The counter is a log ----

  /** A peer's accepted calls in acceptance order. */
  function CallsOf(accepted: seq<Accepted>, peer: Text): seq<Call> {
    if accepted == [] then []
    else
      var front, last := CallsOf(accepted[..|accepted| - 1], peer), accepted[|accepted| - 1].call;
      if last.peer == peer then front + [last] else front
  }

  /** Chain hash after a list of calls. */
  function FoldCalls(digest: Text -> Text, calls: seq<Call>): Text {
    if calls == [] then ZeroHash()
    else
      var last := calls[|calls| - 1];
      digest(Transcript(FoldCalls(digest, calls[..|calls| - 1]), last.env.certFp, last.env.nonce, last.snapMs))
  }

  lemma CallsOfSnoc(accepted: seq<Accepted>, last: Accepted, peer: Text)
    ensures CallsOf(accepted + [last], peer)
            == CallsOf(accepted, peer) + (if last.call.peer == peer then [last.call] else [])
  {
    assert (accepted + [last])[..|accepted|] == accepted;
  }

  /** The counter row a list of calls amounts to. */
  ghost predicate RowIsLog(digest: Text -> Text, counters: map<Text, Counter>, peer: Text, calls: seq<Call>) {
    if calls == [] then peer !in counters
    else && peer in counters
         && counters[peer] == Counter(|calls|, FoldCalls(digest, calls), calls[|calls| - 1].env.certFp,
                                      calls[|calls| - 1].snapMs)
  }

  ghost predicate CounterIsLog(digest: Text -> Text, l: Ledger) {
    forall peer :: RowIsLog(digest, l.counters, peer, CallsOf(l.accepted, peer))
  }

  lemma AdvancedRow(digest: Text -> Text, counters: map<Text, Counter>, call: Call, calls: seq<Call>)
    requires RowIsLog(digest, counters, call.peer, calls)
    ensures RowIsLog(digest, Advanced(digest, counters, call), call.peer, calls + [call])
  {
    assert (calls + [call])[..|calls|] == calls;
  }

  lemma RpcKeepsLog(digest: Text -> Text, l: Ledger, id: nat)
    requires CounterIsLog(digest, l)
    ensures CounterIsLog(digest, AfterRpc(digest, l, id))
  {
    if id in l.inflight && KeyOf(l.inflight[id].env) !in l.nonces {
      var l', call := AfterRpc(digest, l, id), l.inflight[id];
      AdvancedRow(digest, l.counters, call, CallsOf(l.accepted, call.peer));
      forall peer ensures RowIsLog(digest, l'.counters, peer, CallsOf(l'.accepted, peer)) {
        CallsOfSnoc(l.accepted, Accepted(call, l.clock), peer);
        assert RowIsLog(digest, l.counters, peer, CallsOf(l.accepted, peer));
      }
    }
  }

  /** Per peer, seq counts the accepted calls and the hash is their fold, in every reachable state. */
  lemma {:induction false} LeaseChainIsLog(digest: Text -> Text, clock: int, events: seq<Event>)
    ensures CounterIsLog(digest, Exec(digest, Start(clock), events))
  {
    if events != [] {
      var l := Exec(digest, Start(clock), events[..|events| - 1]);
      LeaseChainIsLog(digest, clock, events[..|events| - 1]);
      match events[|events| - 1]
      case Rpc(id) => RpcKeepsLog(digest, l, id);
      case _ => assert Exec(digest, Start(clock), events).accepted == l.accepted;
    }
  }

  // ---- What the chain hash commits to ----

  ghost predicate FixedWidthInjective(digest: Text -> Text) {
    && (forall t :: |digest(t)| == 64)
    && (forall s, t :: digest(s) == digest(t) ==> s == t)
  }

  /** Concatenations with equal-length fronts agree piece by piece. */
  lemma CutFront(a: Text, x: Text, b: Text, y: Text)
    requires |a| == |b| && a + x == b + y
    ensures a == b && x == y
  {
    assert a == (a + x)[..|a|] && b == (b + y)[..|b|];
    assert x == (a + x)[|a|..] && y == (b + y)[|b|..];
  }

  /** The second nonce is the first plus leading digits of the first timestamp, which the second lacks. */
  predicate Trades(n1: Text, t1: int, n2: Text, t2: int) {
    |n1| < |n2| && n2[..|n1|] == n1 && Decimal.Text(t1) == n2[|n1|..] + Decimal.Text(t2)
  }

  predicate SameTail(n1: Text, t1: int, n2: Text, t2: int) {
    (n1 == n2 && t1 == t2) || Trades(n1, t1, n2, t2) || Trades(n2, t2, n1, t1)
  }

  lemma TailsOfLonger(n1: Text, t1: int, n2: Text, t2: int)
    requires |n1| <= |n2|
    ensures n1 + Decimal.Text(t1) == n2 + Decimal.Text(t2) <==> SameTail(n1, t1, n2, t2)
  {
    var d := n2[|n1|..];
    assert n2 == n2[..|n1|] + d;
    assert n2 + Decimal.Text(t2) == n2[..|n1|] + (d + Decimal.Text(t2));
    if n1 + Decimal.Text(t1) == n2 + Decimal.Text(t2) {
      CutFront(n1, Decimal.Text(t1), n2[..|n1|], d + Decimal.Text(t2));
      if d == [] {
        assert d + Decimal.Text(t2) == Decimal.Text(t2);
        Decimal.TextInjective(t1, t2);
      }
    }
  }

  /**
   Behind prefixes of equal length, two transcripts are the same text exactly when the
   prefixes, certificates, nonces and times agree, or one nonce ends in digits that the
   other one's timestamp starts with.
   */
  lemma TranscriptCollidesExactly(p1: Text, c1: Text, n1: Text, t1: int, p2: Text, c2: Text, n2: Text, t2: int)
    requires |p1| == |p2| && |c1| == |c2|
    ensures Transcript(p1, c1, n1, t1) == Transcript(p2, c2, n2, t2)
            <==> p1 == p2 && c1 == c2 && SameTail(n1, t1, n2, t2)
  {
    var x1, x2 := Decimal.Text(t1), Decimal.Text(t2);
    if |n1| <= |n2| { TailsOfLonger(n1, t1, n2, t2); } else { TailsOfLonger(n2, t2, n1, t1); }
    assert Transcript(p1, c1, n1, t1) == (p1 + c1) + (n1 + x1);
    assert Transcript(p2, c2, n2, t2) == (p2 + c2) + (n2 + x2);
    if Transcript(p1, c1, n1, t1) == Transcript(p2, c2, n2, t2) {
      CutFront(p1 + c1, n1 + x1, p2 + c2, n2 + x2);
      CutFront(p1, c1, p2, c2);
    }
  }

  /** What the chain records of a call. */
  function Trace(c: Call): (Text, Text, int) { (c.env.certFp, c.env.nonce, c.snapMs) }

  predicate Confusable(c: Call, d: Call) {
    c.env.certFp == d.env.certFp && SameTail(c.env.nonce, c.snapMs, d.env.nonce, d.snapMs)
  }

  ghost predicate HexCerts(calls: seq<Call>) { forall i | 0 <= i < |calls| :: |calls[i].env.certFp| == 64 }

  lemma FoldWidth(digest: Text -> Text, calls: seq<Call>)
    requires FixedWidthInjective(digest)
    ensures |FoldCalls(digest, calls)| == 64
  {
  }

  ghost predicate AllConfusable(a: seq<Call>, b: seq<Call>)
    requires |a| == |b|
  {
    forall i | 0 <= i < |a| :: Confusable(a[i], b[i])
  }

  lemma AllConfusableSnoc(a: seq<Call>, b: seq<Call>)
    requires |a| == |b| > 0
    ensures var n := |a| - 1; AllConfusable(a, b) <==> AllConfusable(a[..n], b[..n]) && Confusable(a[n], b[n])
  {
    var n := |a| - 1;
    assert forall i | 0 <= i < n :: a[..n][i] == a[i] && b[..n][i] == b[i];
    if AllConfusable(a[..n], b[..n]) && Confusable(a[n], b[n]) {
      forall i | 0 <= i < |a| ensures Confusable(a[i], b[i]) {
        assert i < n ==> Confusable(a[..n][i], b[..n][i]);
      }
    }
  }

  lemma LastCallDecided(digest: Text -> Text, p: Text, q: Text, c: Call, d: Call)
    requires FixedWidthInjective(digest) && |p| == |q| && |c.env.certFp| == |d.env.certFp|
    ensures digest(Transcript(p, c.env.certFp, c.env.nonce, c.snapMs))
            == digest(Transcript(q, d.env.certFp, d.env.nonce, d.snapMs))
            <==> p == q && Confusable(c, d)
  {
    TranscriptCollidesExactly(p, c.env.certFp, c.env.nonce, c.snapMs, q, d.env.certFp, d.env.nonce, d.snapMs);
  }

  /** Equal seq and hash mean, call by call, the same certificate and the same text of nonce and time. */
  lemma {:induction false} ChainCollidesExactly(digest: Text -> Text, a: seq<Call>, b: seq<Call>)
    requires FixedWidthInjective(digest) && HexCerts(a) && HexCerts(b) && |a| == |b|
    ensures FoldCalls(digest, a) == FoldCalls(digest, b) <==> AllConfusable(a, b)
  {
    if a != [] {
      var n := |a| - 1;
      FoldWidth(digest, a[..n]);
      FoldWidth(digest, b[..n]);
      ChainCollidesExactly(digest, a[..n], b[..n]);
      LastCallDecided(digest, FoldCalls(digest, a[..n]), FoldCalls(digest, b[..n]), a[n], b[n]);
      AllConfusableSnoc(a, b);
    }
  }

  /** Nonces of one length, or timestamps of one width, leave nothing to trade. */
  predicate Aligned(c: Call, d: Call) {
    |c.env.nonce| == |d.env.nonce| || |Decimal.Text(c.snapMs)| == |Decimal.Text(d.snapMs)|
  }

  lemma AlignedIsDecided(c: Call, d: Call)
    requires Aligned(c, d)
    ensures Confusable(c, d) <==> Trace(c) == Trace(d)
  {
  }

  /** Server clock readings, in milliseconds, from September 2001 to November 2286. */
  predicate ThisEra(ms: int) { 1_000_000_000_000 <= ms < 10_000_000_000_000 }

  lemma ThisEraIsAligned(c: Call, d: Call)
    requires ThisEra(c.snapMs) && ThisEra(d.snapMs)
    ensures Aligned(c, d)
  {
    Decimal.ThirteenDigits(c.snapMs);
    Decimal.ThirteenDigits(d.snapMs);
  }

  /**
   The chain commits to its calls: for nonces of any length, equal seq and hash mean the
   same certificates, nonces and times in order, as long as the calls at each position
   were stamped in this era, or had nonces of equal length.
   */
  lemma ChainCommitsToCalls(digest: Text -> Text, a: seq<Call>, b: seq<Call>)
    requires FixedWidthInjective(digest) && HexCerts(a) && HexCerts(b) && |a| == |b|
    requires forall i | 0 <= i < |a| ::
               (ThisEra(a[i].snapMs) && ThisEra(b[i].snapMs)) || |a[i].env.nonce| == |b[i].env.nonce|
    ensures FoldCalls(digest, a) == FoldCalls(digest, b) <==> forall i | 0 <= i < |a| :: Trace(a[i]) == Trace(b[i])
  {
    ChainCollidesExactly(digest, a, b);
    forall i | 0 <= i < |a| ensures Confusable(a[i], b[i]) <==> Trace(a[i]) == Trace(b[i]) {
      if ThisEra(a[i].snapMs) && ThisEra(b[i].snapMs) { ThisEraIsAligned(a[i], b[i]); }
      AlignedIsDecided(a[i], b[i]);
    }
  }
}
