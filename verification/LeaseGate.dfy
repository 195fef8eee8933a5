/**
 `verifyLeaseAndAdvanceChain` step by step (src/trust-store.ts:420-475): the gate is
 taken, the counter row read, the digest awaited outside the transaction, the nonce and
 the counter written in a working copy, and both committed together. The store may stop
 between any two steps. Each run of these steps is a run of the atomic ledger.
 */
module LeaseGate {
  import opened Wrappers
  import L = LeaseLedger

  datatype Phase =
    | Reading
    | Prev(prevSeq: nat, prevHash: L.Text)
    | Digested(step: L.Step)
    | NonceWritten(step: L.Step, nonces: map<L.NonceKey, int>)
    | CounterWritten(nonces: map<L.NonceKey, int>, counters: map<L.Text, L.Counter>)

  datatype Gate = Gate(id: nat, call: L.Call, phase: Phase)

  datatype Store = Store(ledger: L.Ledger, gate: Option<Gate>)

  datatype Event =
    | Enter(id: nat) | ReadRow | Digest | InsertNonce | WriteCounter | Commit | Crash
    | Other(e: L.Event)

  /** What goes on around a held gate: time, request snapshots, requests that give up; the alarm waits. */
  predicate Admitted(s: Store, e: L.Event) {
    match e
    case Tick(_) => true
    case Snapshot(_, _, _) => true
    case Drop(id) => s.gate.None? || s.gate.value.id != id
    case Alarm => s.gate.None?
    case Rpc(_) => false
  }

  function To(s: Store, phase: Phase): Store
    requires s.gate.Some?
  {
    s.(gate := Some(s.gate.value.(phase := phase)))
  }

  function Leave(s: Store, l: L.Ledger): Store { Store(l, None) }

  function NextPhase(digest: L.Text -> L.Text, s: Store, e: Event): Store
    requires s.gate.Some?
  {
    var l, g := s.ledger, s.gate.value;
    var call := g.call;
    var key := L.KeyOf(call.env);
    var released := l.(inflight := l.inflight - {g.id});
    match (e, g.phase)
    case (ReadRow, Reading) =>
      if call.peer in l.counters then To(s, Prev(l.counters[call.peer].seqNo, l.counters[call.peer].lastChainHash))
      else To(s, Prev(0, L.ZeroHash()))
    case (Digest, Prev(n, h)) =>
      To(s, Digested(L.Step(n + 1, digest(L.Transcript(h, call.env.certFp, call.env.nonce, call.snapMs)))))
    case (InsertNonce, Digested(step)) =>
      if key in l.nonces then Leave(s, released) else To(s, NonceWritten(step, l.nonces[key := call.snapMs]))
    case (WriteCounter, NonceWritten(step, nonces)) =>
      To(s, CounterWritten(nonces, l.counters[call.peer :=
        L.Counter(step.seqNo, step.chainHash, call.env.certFp, call.snapMs)]))
    case (Commit, CounterWritten(nonces, counters)) =>
      Leave(s, released.(nonces := nonces, counters := counters, accepted := l.accepted + [L.Accepted(call, l.clock)]))
    case (Crash, _) => Leave(s, released)
    case _ => s
  }

  function Next(digest: L.Text -> L.Text, s: Store, e: Event): Store {
    match e
    case Other(a) => if Admitted(s, a) then s.(ledger := L.Next(digest, s.ledger, a)) else s
    case Enter(id) =>
      if s.gate.None? && id in s.ledger.inflight then s.(gate := Some(Gate(id, s.ledger.inflight[id], Reading))) else s
    case _ => if s.gate.Some? then NextPhase(digest, s, e) else s
  }

  /** The atomic step an event amounts to, if any. */
  function Meaning(s: Store, e: Event): seq<L.Event> {
    if e.Other? then (if Admitted(s, e.e) then [e.e] else [])
    else if s.gate.None? then []
    else
      var g := s.gate.value;
      match (e, g.phase)
      case (InsertNonce, Digested(_)) => if L.KeyOf(g.call.env) in s.ledger.nonces then [L.Rpc(g.id)] else []
      case (Commit, CounterWritten(_, _)) => [L.Rpc(g.id)]
      case (Crash, _) => [L.Drop(g.id)]
      case _ => []
  }

  /** What is computed under the gate is still current: nobody else writes while it is held. */
  ghost predicate GateCurrent(digest: L.Text -> L.Text, s: Store) {
    s.gate.Some? ==>
      var l, g := s.ledger, s.gate.value;
      var key := L.KeyOf(g.call.env);
      && g.id in l.inflight && l.inflight[g.id] == g.call
      && match g.phase
         case Reading => true
         case Prev(n, h) =>
           L.NextStep(digest, l.counters, g.call)
           == L.Step(n + 1, digest(L.Transcript(h, g.call.env.certFp, g.call.env.nonce, g.call.snapMs)))
         case Digested(step) => step == L.NextStep(digest, l.counters, g.call)
         case NonceWritten(step, nonces) =>
           step == L.NextStep(digest, l.counters, g.call) && key !in l.nonces && nonces == l.nonces[key := g.call.snapMs]
         case CounterWritten(nonces, counters) =>
           key !in l.nonces && nonces == l.nonces[key := g.call.snapMs] && counters == L.Advanced(digest, l.counters, g.call)
  }

  lemma ExecOne(digest: L.Text -> L.Text, l: L.Ledger, e: L.Event)
    ensures L.Exec(digest, l, [e]) == L.Next(digest, l, e)
  {
    assert [e][..0] == [];
    assert L.Exec(digest, l, []) == l;
  }

  lemma PhaseRefines(digest: L.Text -> L.Text, s: Store, e: Event)
    requires GateCurrent(digest, s) && s.gate.Some? && !e.Other? && !e.Enter?
    ensures GateCurrent(digest, NextPhase(digest, s, e))
    ensures NextPhase(digest, s, e).ledger == L.Exec(digest, s.ledger, Meaning(s, e))
  {
    var g := s.gate.value;
    ExecOne(digest, s.ledger, L.Rpc(g.id));
    ExecOne(digest, s.ledger, L.Drop(g.id));
    assert L.Exec(digest, s.ledger, []) == s.ledger;
    match (e, g.phase)
    case (ReadRow, Reading) =>
    case (Digest, Prev(_, _)) =>
    case (InsertNonce, Digested(_)) =>
    case (WriteCounter, NonceWritten(_, _)) =>
    case (Commit, CounterWritten(_, _)) =>
    case _ =>
  }

  lemma OtherRefines(digest: L.Text -> L.Text, s: Store, a: L.Event)
    requires GateCurrent(digest, s) && Admitted(s, a)
    ensures GateCurrent(digest, s.(ledger := L.Next(digest, s.ledger, a)))
  {
  }

  /** Every step either leaves the ledger alone or is exactly one atomic step of it. */
  lemma StepRefines(digest: L.Text -> L.Text, s: Store, e: Event)
    requires GateCurrent(digest, s)
    ensures GateCurrent(digest, Next(digest, s, e))
    ensures Next(digest, s, e).ledger == L.Exec(digest, s.ledger, Meaning(s, e))
  {
    assert L.Exec(digest, s.ledger, []) == s.ledger;
    match e
    case Other(a) =>
      ExecOne(digest, s.ledger, a);
      if Admitted(s, a) { OtherRefines(digest, s, a); }
    case Enter(id) =>
    case _ => if s.gate.Some? { PhaseRefines(digest, s, e); }
  }

  function Exec(digest: L.Text -> L.Text, s: Store, events: seq<Event>): Store {
    if events == [] then s else Next(digest, Exec(digest, s, events[..|events| - 1]), events[|events| - 1])
  }

  /** The atomic run a step-by-step run amounts to. */
  function Meanings(digest: L.Text -> L.Text, s: Store, events: seq<Event>): seq<L.Event> {
    if events == [] then []
    else
      var front := events[..|events| - 1];
      Meanings(digest, s, front) + Meaning(Exec(digest, s, front), events[|events| - 1])
  }

  lemma {:induction false} LedgerExecAppend(digest: L.Text -> L.Text, l: L.Ledger, a: seq<L.Event>, b: seq<L.Event>)
    ensures L.Exec(digest, l, a + b) == L.Exec(digest, L.Exec(digest, l, a), b)
    decreases |b|
  {
    if b == [] {
      assert a + b == a;
    } else {
      LedgerExecAppend(digest, l, a, b[..|b| - 1]);
      assert (a + b)[..|a + b| - 1] == a + b[..|b| - 1];
    }
  }

  /**
   The gated form refines the atomic one: whatever interleaves and wherever the store
   stops, the ledger is that of an atomic run, so a nonce is recorded exactly when its
   counter step is, and the replay and chain results of the ledger hold here too.
   */
  lemma {:induction false} GateRefinesLedger(digest: L.Text -> L.Text, clock: int, events: seq<Event>)
    ensures var start := Store(L.Start(clock), None);
      var s := Exec(digest, start, events);
      && GateCurrent(digest, s)
      && s.ledger == L.Exec(digest, L.Start(clock), Meanings(digest, start, events))
      && L.Inv(s.ledger) && L.CounterIsLog(digest, s.ledger)
  {
    var start := Store(L.Start(clock), None);
    if events == [] {
      assert L.Exec(digest, L.Start(clock), []) == L.Start(clock);
    } else {
      var front, e := events[..|events| - 1], events[|events| - 1];
      GateRefinesLedger(digest, clock, front);
      var mid := Exec(digest, start, front);
      StepRefines(digest, mid, e);
      LedgerExecAppend(digest, L.Start(clock), Meanings(digest, start, front), Meaning(mid, e));
    }
    L.ReachableInv(digest, clock, Meanings(digest, start, events));
    L.LeaseChainIsLog(digest, clock, Meanings(digest, start, events));
  }

  // ---- Both or neither ----

  ghost predicate BothOrNeither(before: L.Ledger, after: L.Ledger, call: L.Call, digest: L.Text -> L.Text) {
    || (after.nonces == before.nonces && after.counters == before.counters)
    || (after.nonces == before.nonces[L.KeyOf(call.env) := call.snapMs]
        && after.counters == L.Advanced(digest, before.counters, call))
  }

  /** No step under the gate, and no stop between steps, writes one table without the other. */
  lemma GateWritesBothOrNeither(digest: L.Text -> L.Text, s: Store, e: Event)
    requires GateCurrent(digest, s) && s.gate.Some? && !e.Other?
    ensures BothOrNeither(s.ledger, Next(digest, s, e).ledger, s.gate.value.call, digest)
  {
    var g := s.gate.value;
    match (e, g.phase)
    case (Commit, CounterWritten(_, _)) =>
    case _ =>
  }

  // ---- A call that gets through the gate ----

  function GatedCall(id: nat): seq<Event> { [Enter(id), ReadRow, Digest, InsertNonce, WriteCounter, Commit] }

  lemma ExecSix(digest: L.Text -> L.Text, s: Store, a: Event, b: Event, c: Event, d: Event, e: Event, f: Event)
    ensures Exec(digest, s, [a, b, c, d, e, f])
            == Next(digest, Next(digest, Next(digest, Next(digest, Next(digest, Next(digest, s, a), b), c), d), e), f)
  {
    ExecThree(digest, s, a, b, c);
    ExecThree(digest, Exec(digest, s, [a, b, c]), d, e, f);
    ExecAppend(digest, s, [a, b, c], [d, e, f]);
    assert [a, b, c] + [d, e, f] == [a, b, c, d, e, f];
  }

  lemma ExecThree(digest: L.Text -> L.Text, s: Store, a: Event, b: Event, c: Event)
    ensures Exec(digest, s, [a, b, c]) == Next(digest, Next(digest, Next(digest, s, a), b), c)
  {
    assert [a, b, c][..2] == [a, b] && [a, b][..1] == [a] && [a][..0] == [];
    assert Exec(digest, s, []) == s;
    assert Exec(digest, s, [a]) == Next(digest, s, a);
    assert Exec(digest, s, [a, b]) == Next(digest, Next(digest, s, a), b);
  }

  lemma {:induction false} ExecAppend(digest: L.Text -> L.Text, s: Store, a: seq<Event>, b: seq<Event>)
    ensures Exec(digest, s, a + b) == Exec(digest, Exec(digest, s, a), b)
    decreases |b|
  {
    if b == [] {
      assert a + b == a;
    } else {
      ExecAppend(digest, s, a, b[..|b| - 1]);
      assert (a + b)[..|a + b| - 1] == a + b[..|b| - 1];
    }
  }

  /** A call that waits at the free gate and is not stopped comes out as one atomic ledger call, accepted or refused. */
  lemma GatedCallCompletes(digest: L.Text -> L.Text, s: Store, id: nat)
    requires s.gate.None? && id in s.ledger.inflight
    ensures Exec(digest, s, GatedCall(id)) == Store(L.AfterRpc(digest, s.ledger, id), None)
  {
    ExecSix(digest, s, Enter(id), ReadRow, Digest, InsertNonce, WriteCounter, Commit);
  }
}
