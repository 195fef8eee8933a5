/**
 The pre-authentication token bucket (src/routes/pre-auth-budget.ts:82-157). Tokens are
 counted exactly in hundredths, so the refill of ten tokens a second is one unit a
 millisecond. Entries keep the insertion order of the host's Map.
 */
module PreAuthBudget {
  import opened Wrappers

  /** 300 tokens and one token, in hundredths. */
  const CAPACITY: int := 30000
  const COST: int := 100
  const UNITS_PER_SECOND: int := 1000
  const MAX_KEYS: nat := 10000
  const DROP_COUNT: nat := 1000

  datatype Bucket = Bucket(tokens: int, lastRefillMs: int)

  datatype State = State(order: seq<string>, buckets: map<string, Bucket>)

  datatype Verdict = Allowed | Refused(retryAfterSec: int)

  function Refill(prev: Option<Bucket>, nowMs: int): Bucket {
    match prev
    case None => Bucket(CAPACITY, nowMs)
    case Some(b) =>
      var elapsed := if nowMs > b.lastRefillMs then nowMs - b.lastRefillMs else 0;
      Bucket(if b.tokens + elapsed < CAPACITY then b.tokens + elapsed else CAPACITY, nowMs)
  }

  function CeilDiv(a: nat, b: nat): nat
    requires b > 0
  {
    (a + b - 1) / b
  }

  function Consume(b: Bucket): (Verdict, Bucket) {
    if b.tokens < COST then
      var wait := CeilDiv(COST - b.tokens, UNITS_PER_SECOND);
      (Refused(if wait > 1 then wait else 1), b)
    else (Allowed, b.(tokens := b.tokens - COST))
  }

  function Lookup(s: State, key: string): Option<Bucket> {
    if key in s.buckets then Some(s.buckets[key]) else None
  }

  /** Delete the first `n` keys in insertion order. */
  function DropOldest(s: State, n: nat): State
    decreases n
  {
    if n == 0 || s.order == [] then s else DropOldest(State(s.order[1..], s.buckets - {s.order[0]}), n - 1)
  }

  /** At the cap, the first tenth goes. */
  function Evicted(s: State): State {
    if |s.order| < MAX_KEYS then s else DropOldest(s, DROP_COUNT)
  }

  /** `Map.set`: an existing key keeps its place. */
  function Stored(s: State, key: string, b: Bucket): State {
    State(if key in s.buckets then s.order else s.order + [key], s.buckets[key := b])
  }

  function Decide(s: State, key: string, nowMs: int): (Verdict, Bucket) {
    Consume(Refill(Lookup(Evicted(s), key), nowMs))
  }

  function After(s: State, key: string, nowMs: int): State {
    Stored(Evicted(s), key, Decide(s, key, nowMs).1)
  }

  lemma DropOne(s: State, n: nat)
    requires n > 0 && s.order != []
    ensures DropOldest(s, n) == DropOldest(State(s.order[1..], s.buckets - {s.order[0]}), n - 1)
  {
  }

  ghost predicate Valid(s: State) {
    && (forall i, j | 0 <= i < j < |s.order| :: s.order[i] != s.order[j])
    && (forall k :: k in s.order <==> k in s.buckets)
    && |s.order| <= MAX_KEYS
    && (forall k | k in s.buckets :: 0 <= s.buckets[k].tokens <= CAPACITY)
  }

  class PreAuthLimiter {
    var order: seq<string>
    var buckets: map<string, Bucket>

    function View(): State reads this { State(order, buckets) }

    constructor ()
      ensures View() == State([], map[]) && Valid(View())
    {
      order, buckets := [], map[];
    }

    method EvictOldest()
      modifies this
      ensures View() == Evicted(old(View()))
    {
      if |order| >= MAX_KEYS {
        var dropped := 0;
        ghost var goal := DropOldest(View(), DROP_COUNT);
        while dropped < DROP_COUNT && order != []
          invariant 0 <= dropped <= DROP_COUNT
          invariant DropOldest(View(), DROP_COUNT - dropped) == goal
        {
          var oldest := order[0];
          ghost var before := View();
          order, buckets := order[1..], buckets - {oldest};
          DropOne(before, DROP_COUNT - dropped);
          dropped := dropped + 1;
        }
        assert DropOldest(View(), DROP_COUNT - dropped) == View();
      }
    }

    method PreAuthBurstLimit(key: string, nowMs: int) returns (v: Verdict)
      requires Valid(View())
      modifies this
      ensures v == Decide(old(View()), key, nowMs).0
      ensures View() == After(old(View()), key, nowMs) && Valid(View())
    {
      AfterValid(View(), key, nowMs);
      EvictOldest();
      var prev := if key in buckets then Some(buckets[key]) else None;
      var result := Consume(Refill(prev, nowMs));
      v := result.0;
      if key !in buckets { order := order + [key]; }
      buckets := buckets[key := result.1];
    }
  }

  // ---- What every call keeps ----

  lemma {:induction false} DropOldestShape(s: State, n: nat)
    requires n <= |s.order|
    ensures var t := DropOldest(s, n);
      && t.order == s.order[n..]
      && (forall k :: k in t.buckets <==> k in s.buckets && k !in s.order[..n])
      && (forall k | k in t.buckets :: t.buckets[k] == s.buckets[k])
    decreases n
  {
    if n > 0 {
      var next := State(s.order[1..], s.buckets - {s.order[0]});
      DropOldestShape(next, n - 1);
      assert s.order[..n] == [s.order[0]] + next.order[..n - 1];
    }
  }

  lemma EvictedValid(s: State)
    requires Valid(s)
    ensures Valid(Evicted(s)) && |Evicted(s).order| < MAX_KEYS
  {
    if |s.order| >= MAX_KEYS {
      var t := Evicted(s);
      DropOldestShape(s, DROP_COUNT);
      var gone := s.order[..DROP_COUNT];
      assert s.order == gone + t.order;
      forall k ensures k in t.order <==> k in t.buckets {
        assert k in s.order <==> k in gone || k in t.order;
      }
    }
  }

  lemma StoredValid(s: State, key: string, b: Bucket)
    requires Valid(s) && |s.order| < MAX_KEYS && 0 <= b.tokens <= CAPACITY
    ensures Valid(Stored(s, key, b))
  {
    var t := Stored(s, key, b);
    if key !in s.buckets {
      assert key !in s.order;
      assert forall i | 0 <= i < |s.order| :: t.order[i] == s.order[i] && s.order[i] in s.order;
      forall k ensures k in t.order <==> k in t.buckets {
        assert k in t.order <==> k in s.order || k == key;
      }
    }
  }

  /** Tokens stay within 0 and 300 and the map never exceeds 10,000 keys. */
  lemma AfterValid(s: State, key: string, nowMs: int)
    requires Valid(s)
    ensures Valid(After(s, key, nowMs)) && |After(s, key, nowMs).order| <= MAX_KEYS
  {
    EvictedValid(s);
    StoredValid(Evicted(s), key, Decide(s, key, nowMs).1);
  }

  // ---- The bound between evictions ----

  datatype Call = Call(key: string, now: int)

  function Run(s: State, calls: seq<Call>): State
    decreases |calls|
  {
    if calls == [] then s else Run(After(s, calls[0].key, calls[0].now), calls[1..])
  }

  function Accepted(s: State, calls: seq<Call>, key: string): nat
    decreases |calls|
  {
    if calls == [] then 0
    else (if calls[0].key == key && Decide(s, key, calls[0].now).0.Allowed? then 1 else 0)
         + Accepted(After(s, calls[0].key, calls[0].now), calls[1..], key)
  }

  ghost predicate ClockNeverBack(calls: seq<Call>) {
    forall i, j | 0 <= i < j < |calls| :: calls[i].now <= calls[j].now
  }

  /** No call of the slice evicts the key while it has a bucket. */
  ghost predicate NeverEvicted(s: State, calls: seq<Call>, key: string)
    decreases |calls|
  {
    calls == [] ||
    ((key in s.buckets ==> key in Evicted(s).buckets)
     && NeverEvicted(After(s, calls[0].key, calls[0].now), calls[1..], key))
  }

  /** Spent since `lo` plus what is left never exceeds a full bucket plus the time since `lo`. */
  ghost predicate Budget(s: State, key: string, lo: int, now: int, acc: nat) {
    if key in s.buckets then
      var b := s.buckets[key];
      b.lastRefillMs <= now
      && if b.lastRefillMs < lo then acc == 0 else COST * acc + b.tokens <= CAPACITY + (b.lastRefillMs - lo)
    else acc == 0
  }

  lemma CallBudget(s: State, c: Call, lo: int, before: int, acc: nat)
    requires Valid(s) && lo <= c.now && before <= c.now && Budget(s, c.key, lo, before, acc)
    requires c.key in s.buckets ==> c.key in Evicted(s).buckets
    ensures Budget(After(s, c.key, c.now), c.key, lo, c.now, acc + if Decide(s, c.key, c.now).0.Allowed? then 1 else 0)
  {
    EvictedKeeps(s, c.key);
    var refilled := Refill(Lookup(Evicted(s), c.key), c.now);
    assert COST * acc + refilled.tokens <= CAPACITY + (c.now - lo);
    assert COST * (acc + 1) == COST * acc + COST;
  }

  lemma OtherCallBudget(s: State, c: Call, key: string, lo: int, before: int, acc: nat)
    requires Valid(s) && c.key != key && before <= c.now && Budget(s, key, lo, before, acc)
    requires key in s.buckets ==> key in Evicted(s).buckets
    ensures Budget(After(s, c.key, c.now), key, lo, c.now, acc)
  {
    EvictedKeeps(s, key);
  }

  lemma EvictedKeeps(s: State, key: string)
    requires Valid(s)
    ensures key in Evicted(s).buckets ==> key in s.buckets && Evicted(s).buckets[key] == s.buckets[key]
  {
    if |s.order| >= MAX_KEYS { DropOldestShape(s, DROP_COUNT); }
  }

  lemma {:induction false} SliceBudget(s: State, calls: seq<Call>, key: string, lo: int, hi: int, before: int, acc: nat)
    requires Valid(s) && lo <= hi && before <= hi && ClockNeverBack(calls) && NeverEvicted(s, calls, key)
    requires forall i | 0 <= i < |calls| :: lo <= calls[i].now <= hi
    requires calls != [] ==> before <= calls[0].now
    requires Budget(s, key, lo, before, acc)
    ensures COST * (acc + Accepted(s, calls, key)) <= CAPACITY + (hi - lo)
    decreases |calls|
  {
    if calls != [] {
      var c := calls[0];
      var next := After(s, c.key, c.now);
      AfterValid(s, c.key, c.now);
      if c.key == key {
        CallBudget(s, c, lo, before, acc);
        SliceBudget(next, calls[1..], key, lo, hi, c.now, acc + if Decide(s, key, c.now).0.Allowed? then 1 else 0);
      } else {
        OtherCallBudget(s, c, key, lo, before, acc);
        SliceBudget(next, calls[1..], key, lo, hi, c.now, acc);
      }
    }
  }

  ghost predicate Past(s: State, key: string, now: int) {
    key in s.buckets ==> s.buckets[key].lastRefillMs <= now
  }

  lemma {:induction false} RunKeepsPast(s: State, calls: seq<Call>, key: string, now: int)
    requires Valid(s) && Past(s, key, now) && forall i | 0 <= i < |calls| :: calls[i].now <= now
    ensures Valid(Run(s, calls)) && Past(Run(s, calls), key, now)
    decreases |calls|
  {
    if calls != [] {
      AfterValid(s, calls[0].key, calls[0].now);
      EvictedKeeps(s, key);
      RunKeepsPast(After(s, calls[0].key, calls[0].now), calls[1..], key, now);
    }
  }

  /** A run whose last part lies in [lo, hi] and does not evict the key's bucket. */
  ghost predicate Interval(before: seq<Call>, slice: seq<Call>, key: string, lo: int, hi: int) {
    && ClockNeverBack(before + slice) && NeverEvicted(Run(State([], map[]), before), slice, key)
    && forall i | 0 <= i < |slice| :: lo <= slice[i].now <= hi
  }

  /**
   In any run, the calls one source gets accepted within [lo, hi] while its bucket is not
   evicted number at most 300 plus one per 100 ms.
   */
  lemma TokenBound(before: seq<Call>, slice: seq<Call>, key: string, lo: int, hi: int)
    requires lo <= hi && Interval(before, slice, key, lo, hi)
    ensures Accepted(Run(State([], map[]), before), slice, key) <= 300 + (hi - lo) / 100
  {
    if slice != [] {
      var all := before + slice;
      assert forall i | 0 <= i < |before| :: all[i] == before[i];
      assert forall i | 0 <= i < |slice| :: all[|before| + i] == slice[i];
      var first := slice[0].now;
      RunKeepsPast(State([], map[]), before, key, first);
      var s := Run(State([], map[]), before);
      assert Budget(s, key, lo, first, 0);
      SliceBudget(s, slice, key, lo, hi, first, 0);
    }
  }

  // ---- The bound is attained ----

  /** The map holds one source. */
  function Alone(key: string, tokens: int, lastMs: int): State { State([key], map[key := Bucket(tokens, lastMs)]) }

  lemma FirstCall(key: string, nowMs: int)
    ensures Decide(State([], map[]), key, nowMs).0.Allowed?
    ensures After(State([], map[]), key, nowMs) == Alone(key, CAPACITY - COST, nowMs)
  {
  }

  lemma NextCall(key: string, tokens: int, lastMs: int, nowMs: int)
    requires lastMs <= nowMs && tokens + (nowMs - lastMs) <= CAPACITY && tokens + (nowMs - lastMs) >= COST
    ensures Decide(Alone(key, tokens, lastMs), key, nowMs).0.Allowed?
    ensures After(Alone(key, tokens, lastMs), key, nowMs) == Alone(key, tokens + (nowMs - lastMs) - COST, nowMs)
  {
  }

  /** Calls at `start` and every `gap` milliseconds from then on. */
  function Every(key: string, start: int, gap: nat, n: nat): seq<Call>
    decreases n
  {
    if n == 0 then [] else [Call(key, start)] + Every(key, start + gap, gap, n - 1)
  }

  lemma {:induction false} EveryShape(key: string, start: int, gap: nat, n: nat)
    ensures |Every(key, start, gap, n)| == n
    ensures forall i | 0 <= i < n :: Every(key, start, gap, n)[i] == Call(key, start + gap * i)
    decreases n
  {
    if n > 0 {
      EveryShape(key, start + gap, gap, n - 1);
      forall i | 0 <= i < n ensures Every(key, start, gap, n)[i] == Call(key, start + gap * i) {
        if i > 0 { assert gap * i == gap + gap * (i - 1); }
      }
    }
  }

  lemma AcceptedCons(s: State, c: Call, rest: seq<Call>, key: string)
    ensures Accepted(s, [c] + rest, key)
            == (if c.key == key && Decide(s, key, c.now).0.Allowed? then 1 else 0) + Accepted(After(s, c.key, c.now), rest, key)
  {
    assert ([c] + rest)[1..] == rest;
  }

  lemma {:induction false} BurstAccepted(key: string, tokens: int, atMs: int, n: nat, rest: seq<Call>)
    requires COST * n <= tokens <= CAPACITY
    ensures Accepted(Alone(key, tokens, atMs), Every(key, atMs, 0, n) + rest, key)
            == n + Accepted(Alone(key, tokens - COST * n, atMs), rest, key)
    decreases n
  {
    hide Accepted, Decide, After, Evicted, Refill, Lookup;
    if n == 0 {
      assert Every(key, atMs, 0, n) + rest == rest;
    } else {
      var tail := Every(key, atMs, 0, n - 1) + rest;
      assert Every(key, atMs, 0, n) + rest == [Call(key, atMs)] + tail;
      NextCall(key, tokens, atMs, atMs);
      AcceptedCons(Alone(key, tokens, atMs), Call(key, atMs), tail, key);
      BurstAccepted(key, tokens - COST, atMs, n - 1, rest);
    }
  }

  /** One call for every token that comes back. */
  lemma {:induction false} DripAccepted(key: string, lastMs: int, n: nat)
    ensures Accepted(Alone(key, 0, lastMs), Every(key, lastMs + COST, COST, n), key) == n
    decreases n
  {
    if n > 0 {
      var now := lastMs + COST;
      NextCall(key, 0, lastMs, now);
      AcceptedCons(Alone(key, 0, lastMs), Call(key, now), Every(key, now + COST, COST, n - 1), key);
      DripAccepted(key, now, n - 1);
    }
  }

  lemma {:induction false} AloneIsNotEvicted(s: State, calls: seq<Call>, key: string)
    requires |s.order| <= 1 && (s.order == [] || key in s.buckets)
    requires forall i | 0 <= i < |calls| :: calls[i].key == key
    ensures NeverEvicted(s, calls, key)
    decreases |calls|
  {
    if calls != [] { AloneIsNotEvicted(After(s, key, calls[0].now), calls[1..], key); }
  }

  /** `burst` calls at once and then `n` at the pace of the refill. */
  function Greedy(key: string, burst: nat, n: nat): seq<Call> { Every(key, 0, 0, burst) + Every(key, COST, COST, n) }

  ghost predicate GreedyTimes(calls: seq<Call>, key: string, burst: nat, n: nat) {
    |calls| == burst + n
    && forall i | 0 <= i < |calls| :: calls[i] == Call(key, if i < burst then 0 else COST * (i - burst + 1))
  }

  lemma GreedyHasTimes(key: string, burst: nat, n: nat)
    ensures GreedyTimes(Greedy(key, burst, n), key, burst, n)
  {
    EveryShape(key, 0, 0, burst);
    EveryShape(key, COST, COST, n);
    var calls := Greedy(key, burst, n);
    forall i | 0 <= i < |calls| ensures calls[i] == Call(key, if i < burst then 0 else COST * (i - burst + 1)) {
      if i >= burst { assert COST * (i - burst + 1) == COST + COST * (i - burst); }
    }
  }

  lemma TimesInOrder(calls: seq<Call>, key: string, burst: nat, n: nat, length: nat)
    requires GreedyTimes(calls, key, burst, n) && COST * n <= length
    ensures ClockNeverBack(calls)
    ensures forall i | 0 <= i < |calls| :: calls[i].key == key && 0 <= calls[i].now <= length
  {
  }

  lemma GreedyInterval(key: string, burst: nat, n: nat, length: nat)
    requires COST * n <= length
    ensures Interval([], Greedy(key, burst, n), key, 0, length)
  {
    var calls := Greedy(key, burst, n);
    GreedyHasTimes(key, burst, n);
    TimesInOrder(calls, key, burst, n, length);
    AloneIsNotEvicted(State([], map[]), calls, key);
    IntervalFromStart(calls, key, length);
  }

  lemma IntervalFromStart(calls: seq<Call>, key: string, length: nat)
    requires ClockNeverBack(calls) && NeverEvicted(State([], map[]), calls, key)
    requires forall i | 0 <= i < |calls| :: 0 <= calls[i].now <= length
    ensures Interval([], calls, key, 0, length)
  {
    assert [] + calls == calls;
    assert Run(State([], map[]), []) == State([], map[]);
  }

  lemma GreedyAccepted(key: string, burst: nat, n: nat)
    requires burst > 0 && COST * burst == CAPACITY
    ensures Accepted(State([], map[]), Greedy(key, burst, n), key) == burst + n
  {
    var rest := Every(key, COST, COST, n);
    var more := Every(key, 0, 0, burst - 1) + rest;
    assert Greedy(key, burst, n) == [Call(key, 0)] + more;
    FirstCall(key, 0);
    AcceptedCons(State([], map[]), Call(key, 0), more, key);
    BurstAccepted(key, CAPACITY - COST, 0, burst - 1, rest);
    DripAccepted(key, 0, n);
  }

  ghost predicate Attains(slice: seq<Call>, key: string, length: nat) {
    Interval([], slice, key, 0, length) && Accepted(Run(State([], map[]), []), slice, key) == 300 + length / 100
  }

  /** For every length some run without an eviction accepts exactly that many. */
  lemma TokenBoundIsAttained(key: string, length: nat)
    ensures exists slice :: Attains(slice, key, length)
  {
    assert COST * 300 == CAPACITY;
    var burst: nat :| COST * burst == CAPACITY;
    GreedyInterval(key, burst, length / 100, length);
    GreedyAccepted(key, burst, length / 100);
    assert Attains(Greedy(key, burst, length / 100), key, length);
  }

  // ---- The retry hint and the eviction comment ----

  /**
   A refused caller is told to wait one second, and a call that much later is accepted
   unless other calls of the same source or an eviction came in between.
   */
  lemma RetryHintSuffices(s: State, key: string, nowMs: int, later: State, laterMs: int)
    requires Valid(s)
    ensures Decide(s, key, nowMs).0.Refused? ==>
      && Decide(s, key, nowMs).0.retryAfterSec == 1
      && (Lookup(Evicted(later), key) == Lookup(After(s, key, nowMs), key) && laterMs >= nowMs + 1000
          ==> Decide(later, key, laterMs).0.Allowed?)
  {
    EvictedValid(s);
  }

  /** A caller's own bucket is lost exactly when the map is full and its key is among the thousand oldest insertions. */
  lemma OwnBucketLostExactly(s: State, key: string)
    requires Valid(s) && key in s.buckets
    ensures Lookup(Evicted(s), key).None? <==> |s.order| >= MAX_KEYS && key in s.order[..DROP_COUNT]
  {
    if |s.order| >= MAX_KEYS { DropOldestShape(s, DROP_COUNT); }
  }

  /** Using a bucket does not make it younger: whoever survives the eviction keeps its place in the queue. */
  lemma UseDoesNotRefreshAge(s: State, key: string, nowMs: int)
    requires Valid(s) && key in Evicted(s).buckets
    ensures After(s, key, nowMs).order == Evicted(s).order
    ensures |s.order| < MAX_KEYS ==> After(s, key, nowMs).order == s.order
  {
  }

  /**
   A source whose last call is at least a tenth of a second ago, or that has no bucket any
   more, is always let through; one whose clock stood still or ran back gains no token; the
   buckets of all other sources stay as they were.
   */
  lemma SpacedCallIsAllowed(s: State, key: string, nowMs: int)
    requires Valid(s)
    ensures key in Evicted(s).buckets ==> key in s.buckets && key in After(s, key, nowMs).buckets
    ensures (key in Evicted(s).buckets ==> Evicted(s).buckets[key].lastRefillMs + 100 <= nowMs) ==> Decide(s, key, nowMs).0.Allowed?
    ensures key in Evicted(s).buckets && nowMs <= s.buckets[key].lastRefillMs ==>
              var had := s.buckets[key].tokens;
              After(s, key, nowMs).buckets[key] == Bucket(if had < 100 then had else had - 100, nowMs)
    ensures forall other | other != key ::
              Lookup(After(s, key, nowMs), other) == if other in Evicted(s).buckets then Lookup(s, other) else None
  {
    EvictedValid(s);
    EvictedKeeps(s, key);
    forall other | other != key
      ensures Lookup(After(s, key, nowMs), other) == if other in Evicted(s).buckets then Lookup(s, other) else None
    {
      EvictedKeeps(s, other);
    }
  }
}
