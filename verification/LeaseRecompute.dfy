/**
 What a peer who keeps its own log can recompute and expect: the text each lease hash was
 taken of, and which calls the ledger accepts (src/storage/peer-lease-counters.ts:78-96,
 src/trust-store.ts:420-475, src/routes/lease-middleware.ts:438-449).
 */
module LeaseRecompute {
  import opened Wrappers
  import opened LeaseLedger
  import Decimal

  // ---- Reading the hashed text back ----

  /** The four parts, found by position. */
  predicate ReadsAs(text: Text, prev: Text, call: Call) {
    var cert, nonce := call.env.certFp, call.env.nonce;
    var i := |prev|;
    var j := i + |cert|;
    var k := j + |nonce|;
    && k <= |text| && text[..i] == prev && text[i..j] == cert && text[j..k] == nonce && Decimal.ReadsAsInt(text[k..], call.snapMs)
  }

  /** The hashed text is the previous hash, the certificate, the nonce and the decimal time, in that order. */
  lemma TranscriptReadBack(prev: Text, call: Call)
    ensures ReadsAs(Transcript(prev, call.env.certFp, call.env.nonce, call.snapMs), prev, call)
  {
    var cert, nonce, t := call.env.certFp, call.env.nonce, Decimal.Text(call.snapMs);
    hide Decimal.ReadsAsInt;
    Decimal.IntReadBack(call.snapMs);
    PartsByPosition(prev, cert, nonce, t);
  }

  lemma PartsByPosition(a: Text, b: Text, c: Text, d: Text)
    ensures var text, i, j, k := a + b + c + d, |a|, |a| + |b|, |a| + |b| + |c|;
      text[..i] == a && text[i..j] == b && text[j..k] == c && text[k..] == d
  {
  }

  lemma FourParts(a: Text, i: nat, j: nat, k: nat)
    requires i <= j <= k <= |a|
    ensures a == a[..i] + a[i..j] + a[j..k] + a[k..]
  {
  }

  /** Nothing else reads so: the reading pins the text. */
  lemma ReadingDecidesText(a: Text, b: Text, prev: Text, call: Call)
    requires ReadsAs(a, prev, call) && ReadsAs(b, prev, call)
    ensures a == b
  {
    var i := |prev|;
    var j := i + |call.env.certFp|;
    var k := j + |call.env.nonce|;
    hide Decimal.ReadsAsInt;
    Decimal.IntDecided(a[k..], b[k..], call.snapMs);
    FourParts(a, i, j, k);
    FourParts(b, i, j, k);
  }

  // ---- Every hash of a peer's chain, recomputed from its log ----

  ghost predicate HashedFrom(digest: Text -> Text, hash: Text, prev: Text, call: Call) {
    exists text :: ReadsAs(text, prev, call) && hash == digest(text)
  }

  /** Sixty-four zeros, then one hash for each call, over a text that begins with the hash before. */
  ghost predicate Recomputed(digest: Text -> Text, hashes: seq<Text>, calls: seq<Call>) {
    && |hashes| == |calls| + 1 && |hashes[0]| == 64 && (forall i | 0 <= i < 64 :: hashes[0][i] == 48)
    && forall k | 0 <= k < |calls| :: HashedFrom(digest, hashes[k + 1], hashes[k], calls[k])
  }

  function Hashes(digest: Text -> Text, calls: seq<Call>): seq<Text> {
    seq(|calls| + 1, k requires 0 <= k <= |calls| => FoldCalls(digest, calls[..k]))
  }

  lemma FoldIsRecomputed(digest: Text -> Text, calls: seq<Call>)
    ensures Recomputed(digest, Hashes(digest, calls), calls)
  {
    var hashes := Hashes(digest, calls);
    forall k | 0 <= k < |calls| ensures HashedFrom(digest, hashes[k + 1], hashes[k], calls[k]) {
      var c := calls[k];
      assert calls[..k + 1][..k] == calls[..k];
      TranscriptReadBack(FoldCalls(digest, calls[..k]), c);
      assert hashes[k + 1] == digest(Transcript(hashes[k], c.env.certFp, c.env.nonce, c.snapMs));
    }
  }

  /** The peer's counter row is what the calls of its log, hashed one on top of the other, come to. */
  ghost predicate CounterRecomputed(digest: Text -> Text, counters: map<Text, Counter>, peer: Text, calls: seq<Call>) {
    exists hashes :: Recomputed(digest, hashes, calls)
      && (if calls == [] then peer !in counters
          else peer in counters
               && counters[peer] == Counter(|calls|, hashes[|calls|], calls[|calls| - 1].env.certFp,
                                            calls[|calls| - 1].snapMs))
  }

  /** In every reachable state, for every peer. */
  lemma LeaseHashesRecompute(digest: Text -> Text, clock: int, events: seq<Event>, peer: Text)
    ensures var l := Exec(digest, Start(clock), events);
      CounterRecomputed(digest, l.counters, peer, CallsOf(l.accepted, peer))
  {
    var l := Exec(digest, Start(clock), events);
    var calls := CallsOf(l.accepted, peer);
    LeaseChainIsLog(digest, clock, events);
    FoldIsRecomputed(digest, calls);
    assert RowIsLog(digest, l.counters, peer, calls);
    assert calls[..|calls|] == calls;
    assert Hashes(digest, calls)[|calls|] == FoldCalls(digest, calls);
  }

  // ---- Which calls are accepted ----

  ghost predicate Used(l: Ledger, env: Envelope) {
    exists a :: a in l.accepted && a.call.env.certFp == env.certFp && a.call.env.nonce == env.nonce
  }

  ghost predicate UsedSince(l: Ledger, env: Envelope, ms: int) {
    exists a :: a in l.accepted && a.call.env.certFp == env.certFp && a.call.env.nonce == env.nonce && a.call.snapMs >= ms
  }

  /** A stored nonce is that of an accepted call. */
  ghost predicate NoncesOfCalls(l: Ledger) {
    forall k | k in l.nonces :: Used(l, Envelope(k.certFp, k.nonce, 0))
  }

  lemma RpcKeepsNonces(digest: Text -> Text, l: Ledger, id: nat)
    requires NoncesOfCalls(l)
    ensures NoncesOfCalls(AfterRpc(digest, l, id))
  {
    var l' := AfterRpc(digest, l, id);
    forall k | k in l'.nonces ensures Used(l', Envelope(k.certFp, k.nonce, 0)) {
      if k in l.nonces {
        var a :| a in l.accepted && a.call.env.certFp == k.certFp && a.call.env.nonce == k.nonce;
        assert a in l'.accepted;
      } else {
        assert Accepted(l.inflight[id], l.clock) in l'.accepted;
      }
    }
  }

  lemma {:induction false} NoncesAreOfCalls(digest: Text -> Text, clock: int, events: seq<Event>)
    ensures NoncesOfCalls(Exec(digest, Start(clock), events))
  {
    if events != [] {
      var l := Exec(digest, Start(clock), events[..|events| - 1]);
      NoncesAreOfCalls(digest, clock, events[..|events| - 1]);
      match events[|events| - 1]
      case Rpc(id) => RpcKeepsNonces(digest, l, id);
      case _ =>
        var l' := Exec(digest, Start(clock), events);
        assert l'.accepted == l.accepted;
        forall k | k in l'.nonces ensures Used(l', Envelope(k.certFp, k.nonce, 0)) {
          assert Used(l, Envelope(k.certFp, k.nonce, 0));
        }
    }
  }

  lemma ExecSnapRpc(digest: Text -> Text, l: Ledger, id: nat, env: Envelope, peer: Text)
    ensures Exec(digest, l, [Snapshot(id, env, peer), Rpc(id)]) == AfterRpc(digest, Next(digest, l, Snapshot(id, env, peer)), id)
  {
    var e1, e2 := Snapshot(id, env, peer), Rpc(id);
    assert [e1, e2][..1] == [e1] && [e1][..0] == [];
    assert Exec(digest, l, []) == l;
    assert Exec(digest, l, [e1]) == Next(digest, l, e1);
  }

  lemma RecentIsRefused(l: Ledger, env: Envelope)
    requires Inv(l) && UsedSince(l, env, l.clock - 3600000)
    ensures KeyOf(env) in l.nonces
  {
    var a :| a in l.accepted && a.call.env.certFp == env.certFp && a.call.env.nonce == env.nonce
             && a.call.snapMs >= l.clock - 3600000;
    assert Guarded(l, a);
  }

  ghost predicate AcceptedCall(l: Ledger, after: Ledger, call: Call) {
    && after.accepted == l.accepted + [Accepted(call, l.clock)] && call.peer in after.counters
    && after.counters[call.peer].seqNo == 1 + (if call.peer in l.counters then l.counters[call.peer].seqNo else 0)
    && forall peer | peer != call.peer :: (peer in after.counters <==> peer in l.counters)
         && (peer in l.counters ==> after.counters[peer] == l.counters[peer])
  }

  /**
   A call that goes straight through, from every reachable state: more than a minute of
   skew, or the same certificate and nonce within the last hour, refuses it and leaves
   the ledger as it was; with at most a minute of skew and a new pair of certificate and
   nonce it is accepted and moves the peer's counter on by one.
   */
  lemma UndisturbedCall(digest: Text -> Text, clock: int, events: seq<Event>, id: nat, env: Envelope, peer: Text)
    requires id !in Exec(digest, Start(clock), events).inflight
    ensures var l := Exec(digest, Start(clock), events);
      var after := Exec(digest, l, [Snapshot(id, env, peer), Rpc(id)]);
      && (env.ts < l.clock - 60000 || env.ts > l.clock + 60000 || UsedSince(l, env, l.clock - 3600000) ==> after == l)
      && (l.clock - 60000 <= env.ts <= l.clock + 60000 && !Used(l, env) ==> AcceptedCall(l, after, Call(env, peer, l.clock)))
  {
    var l := Exec(digest, Start(clock), events);
    var after := Exec(digest, l, [Snapshot(id, env, peer), Rpc(id)]);
    var snap := Next(digest, l, Snapshot(id, env, peer));
    ReachableInv(digest, clock, events);
    NoncesAreOfCalls(digest, clock, events);
    ExecSnapRpc(digest, l, id, env, peer);
    if !Skewed(l.clock, env.ts) { assert snap.inflight - {id} == l.inflight; }
    if UsedSince(l, env, l.clock - 3600000) { RecentIsRefused(l, env); }
    if KeyOf(env) in l.nonces { assert Used(l, Envelope(env.certFp, env.nonce, 0)); }
  }
}
