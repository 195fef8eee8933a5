/**
 The per-(peer, service) fixed-window limiter of the vault proxy
 (src/routes/vault-proxy.ts:187-202). Times are milliseconds of one clock.
 */
module RateWindow {
  import opened Sequences

  const RATE_WINDOW_MS: int := 60000

  datatype Bucket = Bucket(count: nat, windowStart: int)

  datatype Call = Call(peer: string, service: string, limit: int, now: int)

  type Buckets = map<string, Bucket>

  function KeyOf(peer: string, service: string): string { peer + "::" + service }

  /** The bucket a call counts against: a new one when none is live. */
  function Current(buckets: Buckets, c: Call): Bucket {
    var key := KeyOf(c.peer, c.service);
    if key !in buckets || c.now - buckets[key].windowStart >= RATE_WINDOW_MS then Bucket(0, c.now) else buckets[key]
  }

  predicate Accepts(buckets: Buckets, c: Call) {
    c.limit <= 0 || Current(buckets, c).count < c.limit
  }

  function After(buckets: Buckets, c: Call): Buckets {
    if c.limit <= 0 then buckets
    else
      var b := Current(buckets, c);
      buckets[KeyOf(c.peer, c.service) := if b.count < c.limit then b.(count := b.count + 1) else b]
  }

  class RateLimiter {
    var buckets: Buckets

    constructor ()
      ensures buckets == map[]
    {
      buckets := map[];
    }

    method ConsumeRateBudget(c: Call) returns (ok: bool)
      modifies this
      ensures ok <==> Accepts(old(buckets), c)
      ensures buckets == After(old(buckets), c)
    {
      if c.limit <= 0 { return true; }
      var key := KeyOf(c.peer, c.service);
      var bucket := Bucket(0, c.now);
      if key in buckets && c.now - buckets[key].windowStart < RATE_WINDOW_MS {
        bucket := buckets[key];
      } else {
        buckets := buckets[key := bucket];
      }
      if bucket.count >= c.limit { return false; }
      bucket := bucket.(count := bucket.count + 1);
      buckets := buckets[key := bucket];
      ok := true;
    }
  }

  // ---- The key keeps pairs apart ----

  /** Peers without a colon make the key injective, so one pair's calls never touch another's bucket. */
  lemma KeyInjective(p1: string, s1: string, p2: string, s2: string)
    requires ':' !in p1 && ':' !in p2
    ensures KeyOf(p1, s1) == KeyOf(p2, s2) <==> p1 == p2 && s1 == s2
  {
    assert KeyOf(p1, s1) == p1 + [':'] + ([':'] + s1);
    assert KeyOf(p2, s2) == p2 + [':'] + ([':'] + s2);
    if KeyOf(p1, s1) == KeyOf(p2, s2) {
      FirstSeparatorUnique(p1, [':'] + s1, p2, [':'] + s2, ':');
      assert s1 == ([':'] + s1)[1..] && s2 == ([':'] + s2)[1..];
    }
  }

  /** The longer peer is the shorter one with a piece of the key's separator, and what follows it, appended. */
  predicate Overlap(p1: string, s1: string, p2: string, s2: string) {
    || (p2 == p1 + ":" && s1 == ":" + s2)
    || (p1 + "::" <= p2 && s1 == p2[|p1| + 2..] + "::" + s2)
  }

  lemma OverlapShares(p1: string, s1: string, p2: string, s2: string)
    requires Overlap(p1, s1, p2, s2)
    ensures KeyOf(p1, s1) == KeyOf(p2, s2)
  {
    if p2 == p1 + ":" && s1 == ":" + s2 {
      assert KeyOf(p1, s1) == p1 + ":::" + s2 == KeyOf(p2, s2);
    } else {
      var d := p2[|p1| + 2..];
      assert p2 == p1 + "::" + d;
      assert KeyOf(p1, s1) == p1 + "::" + d + "::" + s2 == KeyOf(p2, s2);
    }
  }

  lemma SharedByLonger(p1: string, s1: string, p2: string, s2: string)
    requires |p1| <= |p2| && KeyOf(p1, s1) == KeyOf(p2, s2)
    ensures (p1 == p2 && s1 == s2) || Overlap(p1, s1, p2, s2)
  {
    var n, k := |p1|, KeyOf(p1, s1);
    var g := |p2| - n;
    assert k[..n] == p1 && k[n + 2..] == s1;
    assert k[..n + g] == p2 && k[n + g + 2..] == s2;
    if g == 1 {
      assert p2 == k[..n] + [k[n]] && k[n] == ':';
      assert s1 == [k[n + 2]] + k[n + 3..] && k[n + 2] == ':';
    } else if g >= 2 {
      assert k[n..n + 2] == "::" && k[n + g..n + g + 2] == "::";
      assert p2[..n + 2] == k[..n] + k[n..n + 2] == p1 + "::";
      assert k[n + 2..] == k[n + 2..n + g] + k[n + g..n + g + 2] + k[n + g + 2..];
      assert p2[n + 2..] == k[n + 2..n + g];
    }
  }

  /** Two pairs share a bucket exactly when they are the same pair or one peer reaches into the other's service. */
  lemma SharesBucketExactly(p1: string, s1: string, p2: string, s2: string)
    ensures KeyOf(p1, s1) == KeyOf(p2, s2)
            <==> (p1 == p2 && s1 == s2) || Overlap(p1, s1, p2, s2) || Overlap(p2, s2, p1, s1)
  {
    if Overlap(p1, s1, p2, s2) { OverlapShares(p1, s1, p2, s2); }
    if Overlap(p2, s2, p1, s1) { OverlapShares(p2, s2, p1, s1); }
    if KeyOf(p1, s1) == KeyOf(p2, s2) {
      if |p1| <= |p2| { SharedByLonger(p1, s1, p2, s2); } else { SharedByLonger(p2, s2, p1, s1); }
    }
  }

  lemma OtherPairsUntouched(buckets: Buckets, c: Call, d: Call)
    requires ':' !in c.peer && ':' !in d.peer && !(c.peer == d.peer && c.service == d.service)
    ensures Accepts(After(buckets, c), d) == Accepts(buckets, d)
    ensures Current(After(buckets, c), d) == Current(buckets, d)
  {
    KeyInjective(c.peer, c.service, d.peer, d.service);
  }

  // ---- The bound ----

  function Run(buckets: Buckets, calls: seq<Call>): Buckets
    decreases |calls|
  {
    if calls == [] then buckets else Run(After(buckets, calls[0]), calls[1..])
  }

  /** Accepted calls on one key, in a run from `buckets`. */
  function Accepted(buckets: Buckets, calls: seq<Call>, key: string): nat
    decreases |calls|
  {
    if calls == [] then 0
    else (if KeyOf(calls[0].peer, calls[0].service) == key && Accepts(buckets, calls[0]) then 1 else 0)
         + Accepted(After(buckets, calls[0]), calls[1..], key)
  }

  ghost predicate ClockNeverBack(calls: seq<Call>) {
    forall i, j | 0 <= i < j < |calls| :: calls[i].now <= calls[j].now
  }

  ghost predicate LimitIs(calls: seq<Call>, key: string, m: int) {
    forall i | 0 <= i < |calls| :: KeyOf(calls[i].peer, calls[i].service) == key ==> calls[i].limit == m
  }

  /** The key's bucket was opened no later than `now` by an accepted call and holds at most the limit. */
  ghost predicate BucketOk(buckets: Buckets, key: string, m: int, now: int) {
    key in buckets ==> buckets[key].windowStart <= now && 1 <= buckets[key].count <= m
  }

  lemma {:induction false} RunKeepsBucketOk(buckets: Buckets, calls: seq<Call>, key: string, m: int, now: int)
    requires m > 0 && ClockNeverBack(calls) && LimitIs(calls, key, m)
    requires forall i | 0 <= i < |calls| :: calls[i].now <= now
    requires BucketOk(buckets, key, m, if calls == [] then now else calls[0].now)
    ensures BucketOk(Run(buckets, calls), key, m, now)
    decreases |calls|
  {
    if calls != [] {
      var rest := calls[1..];
      var c := calls[0];
      assert calls[0].limit <= 0 || KeyOf(c.peer, c.service) != key || c.limit == m;
      RunKeepsBucketOk(After(buckets, c), rest, key, m, now);
    }
  }

  /**
   Bookkeeping for a slice that starts at `lo`: `acc` calls accepted so far, `turned`
   windows opened inside the slice. Either no window was opened yet, and the live one was
   opened by a call before the slice; or that window contributed and the first new one
   opened later than `lo`; or it contributed nothing.
   */
  ghost predicate Progress(b: Bucket, m: int, lo: int, acc: nat, turned: nat) {
    && b.count <= m
    && (|| (turned == 0 && acc + 1 <= b.count && (acc > 0 ==> lo < b.windowStart + RATE_WINDOW_MS))
        || (turned >= 1 && b.windowStart >= lo + 1 + (turned - 1) * RATE_WINDOW_MS && acc <= m * turned - 1 + b.count)
        || (turned >= 1 && b.windowStart >= lo + (turned - 1) * RATE_WINDOW_MS && acc <= m * (turned - 1) + b.count))
  }

  ghost function Turned(buckets: Buckets, c: Call, turned: nat): nat {
    var key := KeyOf(c.peer, c.service);
    if key !in buckets || c.now - buckets[key].windowStart >= RATE_WINDOW_MS then turned + 1 else turned
  }

  lemma CallProgress(buckets: Buckets, c: Call, m: int, lo: int, acc: nat, turned: nat)
    requires m > 0 && c.limit == m && lo <= c.now
    requires var key := KeyOf(c.peer, c.service);
      if key in buckets then buckets[key].windowStart <= c.now && Progress(buckets[key], m, lo, acc, turned)
      else acc == 0 && turned == 0
    ensures var key := KeyOf(c.peer, c.service);
      && key in After(buckets, c) && After(buckets, c)[key].windowStart <= c.now
      && Progress(After(buckets, c)[key], m, lo, acc + (if Accepts(buckets, c) then 1 else 0), Turned(buckets, c, turned))
  {
    var key := KeyOf(c.peer, c.service);
    if key in buckets && c.now - buckets[key].windowStart >= RATE_WINDOW_MS {
      var b := buckets[key];
      WindowTurns(b, m, lo, acc, turned, c.now);
    }
  }

  /** A new window: what the old one allowed is at most `m` more. */
  lemma WindowTurns(b: Bucket, m: int, lo: int, acc: nat, turned: nat, now: int)
    requires m > 0 && Progress(b, m, lo, acc, turned) && now - b.windowStart >= RATE_WINDOW_MS && now >= lo
    ensures Progress(Bucket(0, now), m, lo, acc, turned + 1)
    ensures Progress(Bucket(1, now), m, lo, acc + 1, turned + 1)
  {
    assert m * (turned + 1) == m * turned + m;
    assert (turned - 1 + 1) * RATE_WINDOW_MS == (turned - 1) * RATE_WINDOW_MS + RATE_WINDOW_MS;
    assert turned >= 1 ==> m * turned == m * (turned - 1) + m;
  }

  /**
   The most calls of one key that fit into a closed interval: a full window for every
   whole window length and one more; unless the length is a whole number of windows, also
   what the window live at the start has left beside the call that opened it.
   */
  function MaxIn(m: nat, length: nat): int {
    var windows := length / RATE_WINDOW_MS;
    if length % RATE_WINDOW_MS == 0 then m * (windows + 1) else m * (windows + 2) - 1
  }

  lemma MulMono(m: int, a: int, b: int)
    requires m >= 0 && a <= b
    ensures m * a <= m * b
  {
  }

  lemma ProgressBounds(b: Bucket, m: int, lo: int, hi: int, acc: nat, turned: nat)
    requires m > 0 && lo <= hi && b.windowStart <= hi && Progress(b, m, lo, acc, turned)
    ensures acc <= MaxIn(m, hi - lo)
  {
    var q := (hi - lo) / RATE_WINDOW_MS;
    if turned == 0 {
      MulMono(m, 1, q + 1);
      assert m * (q + 2) == m * (q + 1) + m;
    } else if b.windowStart >= lo + 1 + (turned - 1) * RATE_WINDOW_MS && acc <= m * turned - 1 + b.count {
      LateTurns(m, lo, hi, turned);
      assert m * (turned + 1) == m * turned + m;
    } else {
      assert turned <= q + 1;
      MulMono(m, turned, q + 1);
      assert m * turned == m * (turned - 1) + m;
      assert m * (q + 2) == m * (q + 1) + m;
    }
  }

  lemma LateTurns(m: int, lo: int, hi: int, turned: nat)
    requires m > 0 && turned >= 1 && lo + 1 + (turned - 1) * RATE_WINDOW_MS <= hi
    ensures m * (turned + 1) - 1 <= MaxIn(m, hi - lo)
  {
    var q := (hi - lo) / RATE_WINDOW_MS;
    if (hi - lo) % RATE_WINDOW_MS == 0 {
      assert turned <= q;
      MulMono(m, turned + 1, q + 1);
    } else {
      assert turned <= q + 1;
      MulMono(m, turned + 1, q + 2);
    }
  }

  lemma MaxIsPositive(m: int, length: nat)
    requires m > 0
    ensures MaxIn(m, length) >= m
  {
    var q := length / RATE_WINDOW_MS;
    MulMono(m, 1, q + 1);
    assert m * (q + 2) == m * (q + 1) + m;
  }

  lemma {:induction false} SliceBound(buckets: Buckets, calls: seq<Call>, key: string, m: int, lo: int, hi: int,
                                      acc: nat, turned: nat)
    requires m > 0 && lo <= hi && ClockNeverBack(calls) && LimitIs(calls, key, m)
    requires forall i | 0 <= i < |calls| :: lo <= calls[i].now <= hi
    requires if key in buckets then
               && buckets[key].windowStart <= (if calls == [] then hi else calls[0].now)
               && Progress(buckets[key], m, lo, acc, turned)
             else acc == 0 && turned == 0
    ensures acc + Accepted(buckets, calls, key) <= MaxIn(m, hi - lo)
    decreases |calls|
  {
    if calls == [] {
      if key in buckets { ProgressBounds(buckets[key], m, lo, hi, acc, turned); } else { MaxIsPositive(m, hi - lo); }
    } else {
      var c, rest := calls[0], calls[1..];
      if KeyOf(c.peer, c.service) == key {
        CallProgress(buckets, c, m, lo, acc, turned);
        SliceBound(After(buckets, c), rest, key, m, lo, hi, acc + (if Accepts(buckets, c) then 1 else 0),
                   Turned(buckets, c, turned));
      } else {
        SliceBound(After(buckets, c), rest, key, m, lo, hi, acc, turned);
      }
    }
  }

  /** A run with one limit per key whose last part lies in [lo, hi]. */
  ghost predicate Interval(before: seq<Call>, slice: seq<Call>, key: string, m: int, lo: int, hi: int) {
    && ClockNeverBack(before + slice) && LimitIs(before + slice, key, m)
    && forall i | 0 <= i < |slice| :: lo <= slice[i].now <= hi
  }

  /** In any run, any closed interval of any length accepts at most the stated maximum. */
  lemma WindowBound(before: seq<Call>, slice: seq<Call>, key: string, m: int, lo: int, hi: int)
    requires m > 0 && lo <= hi && Interval(before, slice, key, m, lo, hi)
    ensures Accepted(Run(map[], before), slice, key) <= MaxIn(m, hi - lo)
  {
    var all := before + slice;
    assert forall i | 0 <= i < |before| :: all[i] == before[i];
    assert forall i | 0 <= i < |slice| :: all[|before| + i] == slice[i];
    if slice == [] {
      MaxIsPositive(m, hi - lo);
    } else {
      RunKeepsBucketOk(map[], before, key, m, slice[0].now);
      var buckets := Run(map[], before);
      SliceBound(buckets, slice, key, m, lo, hi, 0, 0);
    }
  }

  function Repeat(c: Call, n: nat): (r: seq<Call>)
    ensures |r| == n && forall i | 0 <= i < n :: r[i] == c
  {
    if n == 0 then [] else [c] + Repeat(c, n - 1)
  }

  lemma AcceptedCons(buckets: Buckets, c: Call, rest: seq<Call>, key: string)
    ensures Accepted(buckets, [c] + rest, key)
            == (if KeyOf(c.peer, c.service) == key && Accepts(buckets, c) then 1 else 0)
               + Accepted(After(buckets, c), rest, key)
  {
    assert ([c] + rest)[1..] == rest;
  }

  lemma {:induction false} BurstAccepted(buckets: Buckets, c: Call, n: nat, b: Bucket, rest: seq<Call>)
    requires c.limit > 0 && Current(buckets, c) == b && b.count + n <= c.limit
    requires b.windowStart <= c.now && c.now - b.windowStart < RATE_WINDOW_MS
    ensures var key := KeyOf(c.peer, c.service);
      Accepted(buckets, Repeat(c, n) + rest, key)
      == n + Accepted(if n == 0 then buckets else buckets[key := Bucket(b.count + n, b.windowStart)], rest, key)
    decreases n
  {
    var key := KeyOf(c.peer, c.service);
    if n == 0 {
      assert Repeat(c, 0) + rest == rest;
    } else {
      var tail, next := Repeat(c, n - 1) + rest, After(buckets, c);
      assert Repeat(c, n) + rest == [c] + tail;
      AcceptedCons(buckets, c, tail, key);
      BurstAccepted(next, c, n - 1, Bucket(b.count + 1, b.windowStart), rest);
      assert next == buckets[key := Bucket(b.count + 1, b.windowStart)];
      assert next[key := Bucket(b.count + n, b.windowStart)] == buckets[key := Bucket(b.count + n, b.windowStart)];
    }
  }

  /** `n` full windows, the first one opened at `start`. */
  function Bursts(peer: string, service: string, m: nat, start: int, n: nat): seq<Call>
    decreases n
  {
    if n == 0 then []
    else Repeat(Call(peer, service, m, start), m) + Bursts(peer, service, m, start + RATE_WINDOW_MS, n - 1)
  }

  lemma {:induction false} BurstsAccepted(buckets: Buckets, peer: string, service: string, m: nat, start: int, n: nat)
    requires m > 0
    requires var key := KeyOf(peer, service); key in buckets ==> start - buckets[key].windowStart >= RATE_WINDOW_MS
    ensures Accepted(buckets, Bursts(peer, service, m, start, n), KeyOf(peer, service)) == m * n
    decreases n
  {
    if n > 0 {
      var c, key := Call(peer, service, m, start), KeyOf(peer, service);
      var rest := Bursts(peer, service, m, start + RATE_WINDOW_MS, n - 1);
      BurstAccepted(buckets, c, m, Bucket(0, start), rest);
      BurstsAccepted(buckets[key := Bucket(m, start)], peer, service, m, start + RATE_WINDOW_MS, n - 1);
      assert m * n == m + m * (n - 1);
    }
  }

  /** Calls of one pair and limit, in time order within [from, to]. */
  ghost predicate Steady(calls: seq<Call>, peer: string, service: string, m: int, from: int, to: int) {
    && ClockNeverBack(calls)
    && forall i | 0 <= i < |calls| ::
         calls[i].peer == peer && calls[i].service == service && calls[i].limit == m && from <= calls[i].now <= to
  }

  lemma SteadyAppend(a: seq<Call>, b: seq<Call>, peer: string, service: string, m: int, from: int, mid: int, mid': int, to: int)
    requires Steady(a, peer, service, m, from, mid) && Steady(b, peer, service, m, mid', to)
    requires from <= mid <= mid' <= to
    ensures Steady(a + b, peer, service, m, from, to)
  {
    var all := a + b;
    assert forall i | 0 <= i < |all| :: all[i] == if i < |a| then a[i] else b[i - |a|];
    forall i, j | 0 <= i < j < |all| ensures all[i].now <= all[j].now {
      if i < |a| && j >= |a| { assert a[i].now <= mid <= mid' <= b[j - |a|].now; }
    }
  }

  lemma {:induction false} BurstsSteady(peer: string, service: string, m: nat, start: int, n: nat)
    ensures Steady(Bursts(peer, service, m, start, n), peer, service, m, start,
                   if n == 0 then start else start + (n - 1) * RATE_WINDOW_MS)
    decreases n
  {
    if n > 0 {
      var first, rest := Repeat(Call(peer, service, m, start), m), Bursts(peer, service, m, start + RATE_WINDOW_MS, n - 1);
      BurstsSteady(peer, service, m, start + RATE_WINDOW_MS, n - 1);
      assert Steady(first, peer, service, m, start, start);
      if n == 1 {
        assert first + rest == first;
      } else {
        SteadyAppend(first, rest, peer, service, m, start, start, start + RATE_WINDOW_MS, start + (n - 1) * RATE_WINDOW_MS);
      }
    }
  }

  lemma WholeWindowsAttained(peer: string, service: string, m: nat, q: nat)
    requires m > 0
    ensures var slice := Bursts(peer, service, m, 0, q + 1);
      && Interval([], slice, KeyOf(peer, service), m, 0, q * RATE_WINDOW_MS)
      && Accepted(Run(map[], []), slice, KeyOf(peer, service)) == m * (q + 1)
  {
    var slice := Bursts(peer, service, m, 0, q + 1);
    BurstsSteady(peer, service, m, 0, q + 1);
    BurstsAccepted(map[], peer, service, m, 0, q + 1);
    assert [] + slice == slice;
  }

  /** One call opens a window just early enough to be live at the interval's start and over right after it. */
  function Opening(peer: string, service: string, m: nat): Call { Call(peer, service, m, 0) }

  function Leftover(peer: string, service: string, m: nat): seq<Call>
    requires m > 0
  {
    Repeat(Call(peer, service, m, RATE_WINDOW_MS - 1), m - 1)
  }

  lemma BrokenWindowsInterval(peer: string, service: string, m: nat, q: nat, length: nat)
    requires m > 0 && length > q * RATE_WINDOW_MS
    ensures var lo := RATE_WINDOW_MS - 1;
      Interval([Opening(peer, service, m)], Leftover(peer, service, m) + Bursts(peer, service, m, lo + 1, q + 1),
               KeyOf(peer, service), m, lo, lo + length)
  {
    var opening, lo := Opening(peer, service, m), RATE_WINDOW_MS - 1;
    var left, bursts := Leftover(peer, service, m), Bursts(peer, service, m, lo + 1, q + 1);
    BurstsSteady(peer, service, m, lo + 1, q + 1);
    assert Steady(left, peer, service, m, lo, lo);
    SteadyAppend(left, bursts, peer, service, m, lo, lo, lo + 1, lo + 1 + q * RATE_WINDOW_MS);
    assert Steady([opening], peer, service, m, 0, 0);
    SteadyAppend([opening], left + bursts, peer, service, m, 0, 0, lo, lo + 1 + q * RATE_WINDOW_MS);
  }

  lemma BrokenWindowsAccepted(peer: string, service: string, m: nat, q: nat)
    requires m > 0
    ensures Accepted(Run(map[], [Opening(peer, service, m)]),
                     Leftover(peer, service, m) + Bursts(peer, service, m, RATE_WINDOW_MS, q + 1), KeyOf(peer, service))
            == m * (q + 2) - 1
  {
    var opening, key := Opening(peer, service, m), KeyOf(peer, service);
    var bursts := Bursts(peer, service, m, RATE_WINDOW_MS, q + 1);
    var buckets := After(map[], opening);
    assert Run(map[], [opening]) == buckets by { assert [opening][1..] == []; }
    assert buckets == map[key := Bucket(1, 0)];
    BurstAccepted(buckets, opening.(now := RATE_WINDOW_MS - 1), m - 1, Bucket(1, 0), bursts);
    BurstsAccepted(if m == 1 then buckets else buckets[key := Bucket(m, 0)], peer, service, m, RATE_WINDOW_MS, q + 1);
    assert m * (q + 2) == m * (q + 1) + m;
  }

  ghost predicate Attains(before: seq<Call>, slice: seq<Call>, key: string, m: nat, lo: int, length: nat) {
    Interval(before, slice, key, m, lo, lo + length) && Accepted(Run(map[], before), slice, key) == MaxIn(m, length)
  }

  /** For every limit and every interval length the maximum is reached by some run. */
  lemma BoundIsAttained(peer: string, service: string, m: nat, length: nat)
    requires m > 0
    ensures exists before, slice, lo :: Attains(before, slice, KeyOf(peer, service), m, lo, length)
  {
    var q := length / RATE_WINDOW_MS;
    if length % RATE_WINDOW_MS == 0 {
      WholeWindowsAttained(peer, service, m, q);
      assert Attains([], Bursts(peer, service, m, 0, q + 1), KeyOf(peer, service), m, 0, length);
    } else {
      var lo := RATE_WINDOW_MS - 1;
      BrokenWindowsInterval(peer, service, m, q, length);
      BrokenWindowsAccepted(peer, service, m, q);
      assert Attains([Opening(peer, service, m)], Leftover(peer, service, m) + Bursts(peer, service, m, lo + 1, q + 1),
                     KeyOf(peer, service), m, lo, length);
    }
  }

  // ---- Who is refused ----

  /** Accepted calls on the key at `from` or later. */
  function AcceptedSince(buckets: Buckets, calls: seq<Call>, key: string, from: int): nat
    decreases |calls|
  {
    if calls == [] then 0
    else
      var c := calls[0];
      (if KeyOf(c.peer, c.service) == key && Accepts(buckets, c) && c.now >= from then 1 else 0)
      + AcceptedSince(After(buckets, c), calls[1..], key, from)
  }

  lemma {:induction false} SinceIsMonotone(buckets: Buckets, calls: seq<Call>, key: string, from: int, earlier: int)
    requires earlier <= from
    ensures AcceptedSince(buckets, calls, key, from) <= AcceptedSince(buckets, calls, key, earlier)
    decreases |calls|
  {
    if calls != [] { SinceIsMonotone(After(buckets, calls[0]), calls[1..], key, from, earlier); }
  }

  /** What the key's bucket held at the start, if its window is the one that opened at `start`. */
  function Carried(buckets: Buckets, key: string, start: int): nat {
    if key in buckets && buckets[key].windowStart == start then buckets[key].count else 0
  }

  lemma OneCallCarried(buckets: Buckets, c: Call, key: string, m: int, start: int)
    requires m > 0 && (KeyOf(c.peer, c.service) == key ==> c.limit == m)
    requires key in buckets ==> buckets[key].windowStart <= c.now
    requires KeyOf(c.peer, c.service) == key ==> start <= c.now || start != Current(buckets, c).windowStart
    ensures Carried(After(buckets, c), key, start)
            <= Carried(buckets, key, start)
               + (if KeyOf(c.peer, c.service) == key && Accepts(buckets, c) && c.now >= start then 1 else 0)
    ensures KeyOf(c.peer, c.service) == key ==> key in After(buckets, c)
    ensures key in After(buckets, c) && key !in buckets ==> KeyOf(c.peer, c.service) == key
    ensures key in After(buckets, c) ==> After(buckets, c)[key].windowStart <= c.now
  {
  }

  /** A bucket's count is no more than the calls accepted since its window opened. */
  lemma {:induction false} CountIsAccepted(buckets: Buckets, calls: seq<Call>, key: string, m: int, start: int)
    requires m > 0 && ClockNeverBack(calls) && LimitIs(calls, key, m)
    requires key in buckets && calls != [] ==> buckets[key].windowStart <= calls[0].now
    ensures Carried(Run(buckets, calls), key, start)
            <= Carried(buckets, key, start) + AcceptedSince(buckets, calls, key, start)
    decreases |calls|
  {
    if calls != [] {
      var c, rest := calls[0], calls[1..];
      OneCallCarried(buckets, c, key, m, start);
      CountIsAccepted(After(buckets, c), rest, key, m, start);
    }
  }

  /**
   A call is refused only after as many calls of its pair as the limit allows were accepted
   in the last minute; without a limit it never is, and leaves no trace.
   */
  lemma RefusedOnlyWhenSpent(before: seq<Call>, c: Call)
    requires ClockNeverBack(before + [c]) && LimitIs(before, KeyOf(c.peer, c.service), c.limit)
    ensures c.limit <= 0 ==> Accepts(Run(map[], before), c) && After(Run(map[], before), c) == Run(map[], before)
    ensures !Accepts(Run(map[], before), c) ==>
              AcceptedSince(map[], before, KeyOf(c.peer, c.service), c.now - 59999) >= c.limit > 0
  {
    var all, key, buckets := before + [c], KeyOf(c.peer, c.service), Run(map[], before);
    assert forall i | 0 <= i < |before| :: all[i] == before[i];
    if !Accepts(buckets, c) {
      var start := buckets[key].windowStart;
      CountIsAccepted(map[], before, key, c.limit, start);
      SinceIsMonotone(map[], before, key, start, c.now - 59999);
    }
  }
}
