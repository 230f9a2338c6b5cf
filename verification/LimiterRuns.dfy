/** Whole runs of the rate limiter on one key, stated on what is stored: the sorted set and the list. */
module LimiterRuns {
  import opened SlidingWindow
  import opened RateLimiter

  /** A request: its time, its limit, the suffix the script would draw for it and how the call to Redis ends. */
  datatype Call = Call(now: int, limit: int, nonce: int, link: Link)

  datatype Stored = Stored(bucket: seq<int>, zset: ZSet)

  /** A key during a run, with what Redis and the memory list let through and both together. */
  datatype Run = Run(stored: Stored, byRedis: seq<Admission>, byMemory: seq<Admission>, passed: seq<Admission>)

  const UNUSED := Run(Stored([], ZSet({}, 0)), [], [], [])

  function MemoryCall(k: Stored, window: nat, now: int, limit: int): (bool, Stored) {
    var kept := Pruned(k.bucket, now - window);
    if |kept| < limit then (true, k.(bucket := kept + [now])) else (false, k.(bucket := kept))
  }

  function RedisCall(k: Stored, window: nat, c: Call): (bool, Stored) {
    var (ok, z) := Script(k.zset, c.now, window, c.limit, c.nonce);
    match c.link
    case Up => (ok, k.(zset := z))
    case Down => MemoryCall(k, window, c.now, c.limit)
    case ReplyLost => MemoryCall(k.(zset := z), window, c.now, c.limit)
  }

  function AfterCall(r: Run, window: nat, c: Call): Run {
    var (ok, k) := RedisCall(r.stored, window, c);
    var x := Admission(c.now, c.limit, if c.link.Up? then c.nonce else 0);
    if !ok then r.(stored := k)
    else if c.link.Up? then Run(k, r.byRedis + [x], r.byMemory, r.passed + [x])
    else Run(k, r.byRedis, r.byMemory + [x], r.passed + [x])
  }

  function AfterCalls(r: Run, window: nat, calls: seq<Call>): Run
    decreases |calls|
  {
    if calls == [] then r else AfterCalls(AfterCall(r, window, calls[0]), window, calls[1..])
  }

  /** How often the script draws a member in a run. */
  function Draws(calls: seq<Call>, y: Member): nat {
    if calls == [] then 0
    else (if !calls[0].link.Down? && Member(calls[0].now, calls[0].nonce) == y then 1 else 0) + Draws(calls[1..], y)
  }

  ghost predicate DrawnAtMost(calls: seq<Call>, m: nat) {
    forall y :: Draws(calls, y) <= m
  }

  /** The clock never goes back. */
  ghost predicate Orderly(calls: seq<Call>, last: int) {
    && (forall i :: 0 <= i < |calls| ==> last <= calls[i].now)
    && (forall i, j :: 0 <= i < j < |calls| ==> calls[i].now <= calls[j].now)
  }

  ghost predicate LimitsUpTo(calls: seq<Call>, limit: int) {
    forall i :: 0 <= i < |calls| ==> calls[i].limit <= limit
  }

  // ---- The invariant of a run ----

  ghost predicate Traced(r: Run, h: History, window: nat, now: int, limit: int) {
    && KeyOk(r.stored.bucket, r.stored.zset, h, window, now)
    && h.heard == r.byRedis && h.memory == r.byMemory && h.passed == r.passed
    && (forall x :: x in h.memory || x in h.redis ==> x.limit <= limit)
    && |r.stored.bucket| <= limit && |r.stored.zset.members| <= limit
  }

  /** What a member may still be drawn. */
  ghost predicate Spare(h: History, calls: seq<Call>, m: nat) {
    forall y :: Occurs(h.redis, y) + Draws(calls, y) <= m
  }

  lemma CardLe<T>(a: set<T>, b: set<T>)
    requires a <= b
    ensures |a| <= |b|
  {
    assert b == a + (b - a);
  }

  lemma ScriptSize(z: ZSet, now: int, window: nat, limit: int, nonce: int)
    ensures var z' := Script(z, now, window, limit, nonce).1;
            |z'.members| <= if |z.members| <= limit then limit else |z.members|
  {
    var kept := set m | m in LiveMembers(z, now) && m.at > now - window;
    CardLe(kept, z.members);
  }

  lemma MemorySize(k: Stored, window: nat, now: int, limit: int)
    ensures var k' := MemoryCall(k, window, now, limit).1;
            |k'.bucket| <= (if |k.bucket| <= limit then limit else |k.bucket|) && k'.zset == k.zset
  {
    PrunedLength(k.bucket, now - window);
  }

  lemma CallTraced(r: Run, h: History, window: nat, last: int, c: Call, limit: int) returns (h': History)
    requires Traced(r, h, window, last, limit) && last <= c.now && window > 0 && c.limit <= limit
    ensures h' == RedisOutcome(h, window, c.now, c.limit, c.nonce, c.link).1
    ensures RedisCall(r.stored, window, c).0 == RedisOutcome(h, window, c.now, c.limit, c.nonce, c.link).0
    ensures Traced(AfterCall(r, window, c), h', window, c.now, limit)
  {
    hide KeyOk, Script, Pruned, Admits;
    h' := RedisOutcome(h, window, c.now, c.limit, c.nonce, c.link).1;
    var k := r.stored;
    if c.link.Down? {
      MemoryStepOk(k.bucket, k.zset, h, window, last, c.now, c.limit);
      MemorySize(k, window, c.now, c.limit);
    } else {
      ScriptStepOk(k.bucket, k.zset, h, window, last, c.now, c.limit, c.nonce, c.link.Up?);
      ScriptSize(k.zset, c.now, window, c.limit, c.nonce);
      if c.link.ReplyLost? {
        var z := Script(k.zset, c.now, window, c.limit, c.nonce).1;
        MemoryStepOk(k.bucket, z, Charged(h, window, c.now, c.limit, c.nonce, false), window, c.now, c.now, c.limit);
        MemorySize(k.(zset := z), window, c.now, c.limit);
      }
    }
  }

  lemma CallSpares(h: History, window: nat, calls: seq<Call>, m: nat)
    requires calls != [] && Spare(h, calls, m)
    ensures var c := calls[0];
            Spare(RedisOutcome(h, window, c.now, c.limit, c.nonce, c.link).1, calls[1..], m)
  {
    hide Admits;
    var c := calls[0];
    var h' := RedisOutcome(h, window, c.now, c.limit, c.nonce, c.link).1;
    forall y ensures Occurs(h'.redis, y) + Draws(calls[1..], y) <= m {
      assert Occurs(h.redis, y) + Draws(calls, y) <= m;
      OccursAppend(h.redis, Admission(c.now, c.limit, c.nonce), y);
    }
  }

  lemma {:induction false} RunTraced(r: Run, h: History, window: nat, last: int, calls: seq<Call>, m: nat, limit: int)
    returns (end: int, h': History)
    requires Traced(r, h, window, last, limit) && window > 0 && Spare(h, calls, m)
    requires Orderly(calls, last) && LimitsUpTo(calls, limit)
    ensures Traced(AfterCalls(r, window, calls), h', window, end, limit) && Spare(h', [], m)
    decreases |calls|
  {
    hide Traced, Spare, AfterCall, RedisOutcome;
    if calls == [] {
      end, h' := last, h;
    } else {
      var c := calls[0];
      var h1 := CallTraced(r, h, window, last, c, limit);
      CallSpares(h, window, calls, m);
      end, h' := RunTraced(AfterCall(r, window, c), h1, window, c.now, calls[1..], m, limit);
    }
  }

  /** From an unused key, with the two limiters switched as failures dictate, in every interval of one window:
      what memory lets through keeps to the limit; what Redis lets through keeps to m * (limit - 1) + 1 when
      the script draws no member more than m times; and together they let through the sum. What is stored
      never exceeds the limit, and the list stays sorted. */
  lemma RunBound(window: nat, start: int, calls: seq<Call>, m: nat, limit: nat, lo: int)
    requires window > 0 && Orderly(calls, start) && LimitsUpTo(calls, limit) && DrawnAtMost(calls, m)
    ensures var r := AfterCalls(UNUSED, window, calls);
            && CountIn(r.byMemory, lo, lo + window) <= limit
            && CountIn(r.byRedis, lo, lo + window) <= Capacity(EachMember, m, limit)
            && CountIn(r.passed, lo, lo + window)
                == CountIn(r.byMemory, lo, lo + window) + CountIn(r.byRedis, lo, lo + window)
            && |r.stored.bucket| <= limit && |r.stored.zset.members| <= limit && Ascending(r.stored.bucket)
  {
    hide KeyOk, Conforming, AfterCalls, Capacity, Ascending;
    UnusedKeyOk(window, start);
    var end, h := RunTraced(UNUSED, NOTHING, window, start, calls, m, limit);
    var r := AfterCalls(UNUSED, window, calls);
    forall y ensures Occurs(h.redis, y) <= m { assert Occurs(h.redis, y) + Draws([], y) <= m; }
    KeyConforms(r.stored.bucket, r.stored.zset, h, window, end);
    FailoverBound(h, window, end, m, limit, lo);
  }

  lemma KeyConforms(bucket: seq<int>, z: ZSet, h: History, window: nat, now: int)
    requires KeyOk(bucket, z, h, window, now)
    ensures Conforming(h, window, now) && Ascending(bucket)
  {
  }

  /** With members that never repeat, each limiter keeps to the limit and both together to twice the limit. */
  lemma DistinctBound(window: nat, start: int, calls: seq<Call>, limit: nat, lo: int)
    requires window > 0 && Orderly(calls, start) && LimitsUpTo(calls, limit) && DrawnAtMost(calls, 1)
    ensures var r := AfterCalls(UNUSED, window, calls);
            && CountIn(r.byMemory, lo, lo + window) <= limit
            && CountIn(r.byRedis, lo, lo + window) <= limit
            && CountIn(r.passed, lo, lo + window) <= 2 * limit
  {
    RunBound(window, start, calls, 1, limit, lo);
  }

  // ---- The bound is attained ----

  function Repeat(c: Call, m: nat): seq<Call> {
    if m == 0 then [] else [c] + Repeat(c, m - 1)
  }

  /** n members, each drawn m times, and one more request with another. With step 1 the members differ in
      their millisecond, whatever suffixes are drawn; with step 0 they differ in their suffix. */
  function Waves(n: nat, m: nat, limit: int, at: int, nonce: int, step: nat): seq<Call> {
    if n == 0 then [Call(at, limit, nonce, Up)]
    else Repeat(Call(at, limit, nonce, Up), m) + Waves(n - 1, m, limit, at + step, nonce + 1 - step, step)
  }

  /** Redis serves the waves and then fails; `limit` more requests come in the last millisecond. */
  function Outage(m: nat, limit: nat, at: int, nonce: int, step: nat): seq<Call>
    requires limit >= 1
  {
    Waves(limit - 1, m, limit, at, nonce, step) + Repeat(Call(at + (limit - 1) * step, limit, 0, Down), limit)
  }

  lemma {:induction false} CallsCompose(r: Run, window: nat, a: seq<Call>, b: seq<Call>)
    ensures AfterCalls(r, window, a + b) == AfterCalls(AfterCalls(r, window, a), window, b)
    decreases |a|
  {
    hide AfterCall;
    if a == [] {
      assert a + b == b;
    } else {
      assert (a + b)[0] == a[0] && (a + b)[1..] == a[1..] + b;
      CallsCompose(AfterCall(r, window, a[0]), window, a[1..], b);
    }
  }

  /** `byRedis` and `passed` grew by n admissions and `byMemory` by k, all of times from `from` to `until`. */
  ghost predicate Grew(r: Run, r': Run, n: int, k: int, from: int, until: int) {
    && (forall lo, hi :: lo < from && until <= hi ==> CountIn(r'.byRedis, lo, hi) == CountIn(r.byRedis, lo, hi) + n)
    && (forall lo, hi :: lo < from && until <= hi ==> CountIn(r'.byMemory, lo, hi) == CountIn(r.byMemory, lo, hi) + k)
    && (forall lo, hi :: lo < from && until <= hi ==> CountIn(r'.passed, lo, hi) == CountIn(r.passed, lo, hi) + n + k)
  }

  /** The sorted set holds n members, all live until `until`, none of them drawn from (at, nonce) on. */
  ghost predicate Holding(z: ZSet, window: nat, n: nat, at: int, nonce: int, until: int) {
    && |z.members| == n && (n > 0 ==> until < z.expiresAt)
    && forall m :: m in z.members ==> until - window < m.at <= at && m.at + m.nonce < at + nonce
  }

  /** A fresh member is admitted, and so is every repetition. */
  lemma FreshMember(z: ZSet, window: nat, limit: int, n: nat, at: int, nonce: int, until: int)
    requires window > 0 && Holding(z, window, n, at, nonce, until) && n < limit && at <= until < at + window
    ensures var (ok, z') := Script(z, at, window, limit, nonce);
            ok && z'.members == z.members + {Member(at, nonce)} && |z'.members| == n + 1 && until < z'.expiresAt
  {
    var kept := set m | m in LiveMembers(z, at) && m.at > at - window;
    assert kept == z.members;
    assert Member(at, nonce) !in kept;
  }

  lemma Repetition(z: ZSet, window: nat, limit: int, at: int, nonce: int, until: int)
    requires window > 0 && Member(at, nonce) in z.members && |z.members| < limit && at <= until < at + window
    requires until < z.expiresAt && forall m :: m in z.members ==> until - window < m.at <= at
    ensures var (ok, z') := Script(z, at, window, limit, nonce);
            ok && z'.members == z.members && until < z'.expiresAt
  {
    var kept := set m | m in LiveMembers(z, at) && m.at > at - window;
    assert kept == z.members;
    assert kept + {Member(at, nonce)} == kept;
  }

  lemma UpGrows(r: Run, window: nat, c: Call, from: int, until: int)
    requires c.link.Up? && from <= c.now <= until && Script(r.stored.zset, c.now, window, c.limit, c.nonce).0
    ensures Grew(r, AfterCall(r, window, c), 1, 0, from, until)
    ensures AfterCall(r, window, c).stored.bucket == r.stored.bucket
  {
    hide Script;
    var x := Admission(c.now, c.limit, c.nonce);
    forall lo, hi | lo < from && until <= hi
      ensures CountIn(r.byRedis + [x], lo, hi) == CountIn(r.byRedis, lo, hi) + 1
      ensures CountIn(r.passed + [x], lo, hi) == CountIn(r.passed, lo, hi) + 1
    {
      CountAppend(r.byRedis, x, lo, hi);
      CountAppend(r.passed, x, lo, hi);
    }
  }

  /** m requests that draw a member already there. */
  lemma {:induction false} RepeatsPass(r: Run, window: nat, c: Call, m: nat, from: int, until: int)
    decreases m
    requires window > 0 && c.link.Up? && from <= c.now <= until < c.now + window
    requires var z := r.stored.zset;
             && Member(c.now, c.nonce) in z.members && |z.members| < c.limit && until < z.expiresAt
             && forall y :: y in z.members ==> until - window < y.at <= c.now
    ensures var r' := AfterCalls(r, window, Repeat(c, m));
            && Grew(r, r', m, 0, from, until) && r'.stored.bucket == r.stored.bucket
            && r'.stored.zset.members == r.stored.zset.members && until < r'.stored.zset.expiresAt
  {
    hide Script;
    if m > 0 {
      assert Repeat(c, m)[1..] == Repeat(c, m - 1);
      Repetition(r.stored.zset, window, c.limit, c.now, c.nonce, until);
      UpGrows(r, window, c, from, until);
      RepeatsPass(AfterCall(r, window, c), window, c, m - 1, from, until);
    }
  }

  /** One wave: a fresh member and its repetitions. */
  lemma WavePasses(r: Run, window: nat, limit: int, n: nat, m: nat, at: int, nonce: int, from: int, until: int)
    requires window > 0 && m >= 1 && Holding(r.stored.zset, window, n, at, nonce, until) && n + 1 < limit
    requires from <= at <= until < at + window
    ensures var r' := AfterCalls(r, window, Repeat(Call(at, limit, nonce, Up), m));
            && Grew(r, r', m, 0, from, until) && r'.stored.bucket == r.stored.bucket
            && r'.stored.zset.members == r.stored.zset.members + {Member(at, nonce)}
            && |r'.stored.zset.members| == n + 1 && until < r'.stored.zset.expiresAt
  {
    hide Script;
    var c := Call(at, limit, nonce, Up);
    FreshMember(r.stored.zset, window, limit, n, at, nonce, until);
    UpGrows(r, window, c, from, until);
    assert Repeat(c, m)[1..] == Repeat(c, m - 1);
    RepeatsPass(AfterCall(r, window, c), window, c, m - 1, from, until);
  }

  lemma {:induction false} WavesPass(
      r: Run, window: nat, limit: nat, n: nat, m: nat, at: int, nonce: int, step: nat, from: int, until: int)
    requires window > 0 && m >= 1 && step <= 1 && n < limit && from <= at && at + n * step <= until < at + window
    requires Holding(r.stored.zset, window, limit - 1 - n, at, nonce, until)
    ensures var r' := AfterCalls(r, window, Waves(n, m, limit, at, nonce, step));
            Grew(r, r', m * n + 1, 0, from, until) && r'.stored.bucket == r.stored.bucket
    decreases n
  {
    hide Script, AfterCall, Grew;
    if n == 0 {
      FreshMember(r.stored.zset, window, limit, limit - 1, at, nonce, until);
      var c := Call(at, limit, nonce, Up);
      UpGrows(r, window, c, from, until);
      assert AfterCalls(r, window, [c]) == AfterCalls(AfterCall(r, window, c), window, [c][1..]);
    } else {
      var c := Call(at, limit, nonce, Up);
      WavePasses(r, window, limit, limit - 1 - n, m, at, nonce, from, until);
      var r1 := AfterCalls(r, window, Repeat(c, m));
      var rest := Waves(n - 1, m, limit, at + step, nonce + 1 - step, step);
      StepOn(n, step);
      WavesPass(r1, window, limit, n - 1, m, at + step, nonce + 1 - step, step, from, until);
      CallsCompose(r, window, Repeat(c, m), rest);
      GrewTwice(r, r1, AfterCalls(r1, window, rest), m, m * (n - 1) + 1, from, until);
      Distribute(m, n);
    }
  }

  lemma StepOn(n: nat, step: nat)
    ensures (n - 1) * step == n * step - step
  {
  }

  lemma GrewTwice(r: Run, r1: Run, r2: Run, n: int, n': int, from: int, until: int)
    requires Grew(r, r1, n, 0, from, until) && Grew(r1, r2, n', 0, from, until)
    ensures Grew(r, r2, n + n', 0, from, until)
  {
  }

  /** The memory list admits up to its limit in one millisecond. */
  lemma {:induction false} DownsPass(r: Run, window: nat, c: Call, n: nat, from: int, until: int)
    requires window > 0 && c.link.Down? && from <= c.now <= until && |r.stored.bucket| + n <= c.limit
    requires forall i :: 0 <= i < |r.stored.bucket| ==> r.stored.bucket[i] == c.now
    ensures var r' := AfterCalls(r, window, Repeat(c, n)); Grew(r, r', 0, n, from, until)
    decreases n
  {
    hide Pruned, Script;
    if n > 0 {
      assert Repeat(c, n)[1..] == Repeat(c, n - 1);
      PrunedNone(r.stored.bucket, c.now - window);
      var r1 := AfterCall(r, window, c);
      var x := Admission(c.now, c.limit, 0);
      DownsPass(r1, window, c, n - 1, from, until);
      forall lo, hi | lo < from && until <= hi
        ensures CountIn(r.byMemory + [x], lo, hi) == CountIn(r.byMemory, lo, hi) + 1
        ensures CountIn(r.passed + [x], lo, hi) == CountIn(r.passed, lo, hi) + 1
      {
        CountAppend(r.byMemory, x, lo, hi);
        CountAppend(r.passed, x, lo, hi);
      }
    }
  }

  lemma {:induction false} PrunedNone(bucket: seq<int>, c: int)
    requires forall i :: 0 <= i < |bucket| ==> bucket[i] > c
    ensures Pruned(bucket, c) == bucket
  {
    if bucket != [] {
      var n := |bucket| - 1;
      PrunedNone(bucket[..n], c);
      assert bucket == bucket[..n] + [bucket[n]];
    }
  }

  // The waves are a run that the bound speaks of.

  lemma {:induction false} DrawsConcat(a: seq<Call>, b: seq<Call>, y: Member)
    ensures Draws(a + b, y) == Draws(a, y) + Draws(b, y)
  {
    if a == [] {
      assert a + b == b;
    } else {
      assert (a + b)[1..] == a[1..] + b;
      DrawsConcat(a[1..], b, y);
    }
  }

  lemma {:induction false} DrawsRepeat(c: Call, m: nat, y: Member)
    ensures Draws(Repeat(c, m), y) == if !c.link.Down? && Member(c.now, c.nonce) == y then m else 0
    ensures |Repeat(c, m)| == m && forall i :: 0 <= i < m ==> Repeat(c, m)[i] == c
  {
    if m > 0 {
      DrawsRepeat(c, m - 1, y);
      assert Repeat(c, m)[1..] == Repeat(c, m - 1);
    }
  }

  lemma {:induction false} WavesDraw(n: nat, m: nat, limit: int, at: int, nonce: int, step: nat, y: Member)
    requires m >= 1 && step <= 1
    ensures Draws(Waves(n, m, limit, at, nonce, step), y) <= m
    ensures y.at + y.nonce < at + nonce ==> Draws(Waves(n, m, limit, at, nonce, step), y) == 0
  {
    var c := Call(at, limit, nonce, Up);
    if n == 0 {
      DrawsRepeat(c, 1, y);
      assert Repeat(c, 1) == [c];
    } else {
      WavesDraw(n - 1, m, limit, at + step, nonce + 1 - step, step, y);
      DrawsRepeat(c, m, y);
      DrawsConcat(Repeat(c, m), Waves(n - 1, m, limit, at + step, nonce + 1 - step, step), y);
    }
  }

  lemma OrderlyConcat(a: seq<Call>, b: seq<Call>, last: int, mid: int)
    requires Orderly(a, last) && Orderly(b, mid) && last <= mid && forall i :: 0 <= i < |a| ==> a[i].now <= mid
    ensures Orderly(a + b, last)
  {
  }

  lemma {:induction false} InRepeat(c: Call, m: nat, x: Call)
    requires x in Repeat(c, m)
    ensures x == c
  {
    if m > 0 && x != c {
      assert Repeat(c, m) == [c] + Repeat(c, m - 1);
      InRepeat(c, m - 1, x);
    }
  }

  /** All calls of a wave run are answered by Redis, at the limit and in its stretch of time. */
  lemma {:induction false} WavesWithin(n: nat, m: nat, limit: int, at: int, nonce: int, step: nat, c: Call)
    requires c in Waves(n, m, limit, at, nonce, step)
    ensures at <= c.now <= at + n * step && c.link.Up? && c.limit == limit
  {
    NotNegative(n, step);
    if n == 0 {
      assert c == Call(at, limit, nonce, Up);
    } else {
      var x := Call(at, limit, nonce, Up);
      var rest := Waves(n - 1, m, limit, at + step, nonce + 1 - step, step);
      assert Waves(n, m, limit, at, nonce, step) == Repeat(x, m) + rest;
      hide Waves, Repeat;
      StepOn(n, step);
      if c in Repeat(x, m) {
        InRepeat(x, m, c);
      } else {
        WavesWithin(n - 1, m, limit, at + step, nonce + 1 - step, step, c);
      }
    }
  }

  lemma NotNegative(n: nat, step: nat)
    ensures n * step >= 0
  {
  }

  lemma {:induction false} WavesAscend(n: nat, m: nat, limit: int, at: int, nonce: int, step: nat)
    ensures Orderly(Waves(n, m, limit, at, nonce, step), at)
  {
    if n > 0 {
      var c := Call(at, limit, nonce, Up);
      WavesAscend(n - 1, m, limit, at + step, nonce + 1 - step, step);
      hide Waves;
      DrawsRepeat(c, m, Member(0, 0));
      OrderlyConcat(Repeat(c, m), Waves(n - 1, m, limit, at + step, nonce + 1 - step, step), at, at + step);
    }
  }

  lemma WavesOrderly(n: nat, m: nat, limit: int, at: int, nonce: int, step: nat)
    ensures var calls := Waves(n, m, limit, at, nonce, step);
            && Orderly(calls, at) && LimitsUpTo(calls, limit)
            && forall i :: 0 <= i < |calls| ==> calls[i].now <= at + n * step && calls[i].link.Up?
  {
    hide Waves, Orderly;
    WavesAscend(n, m, limit, at, nonce, step);
    var calls := Waves(n, m, limit, at, nonce, step);
    forall i | 0 <= i < |calls|
      ensures calls[i].limit <= limit && calls[i].now <= at + n * step && calls[i].link.Up?
    {
      WavesWithin(n, m, limit, at, nonce, step, calls[i]);
    }
  }

  /** The capacity is reached by Redis alone. With step 1 this needs no more than a window of `limit`
      milliseconds and happens whatever suffixes are drawn, the same one every time included. */
  lemma RepeatsAttained(window: nat, limit: nat, m: nat, at: int, nonce: int, step: nat)
    requires limit >= 1 && m >= 1 && step <= 1 && (limit - 1) * step < window
    ensures var calls := Waves(limit - 1, m, limit, at, nonce, step);
            && Orderly(calls, at) && LimitsUpTo(calls, limit) && DrawnAtMost(calls, m)
            && (forall i :: 0 <= i < |calls| ==> calls[i].link.Up?)
            && CountIn(AfterCalls(UNUSED, window, calls).passed, at - 1, at - 1 + window)
                == Capacity(EachMember, m, limit)
  {
    hide Waves, AfterCalls;
    var calls := Waves(limit - 1, m, limit, at, nonce, step);
    WavesOrderly(limit - 1, m, limit, at, nonce, step);
    forall y ensures Draws(calls, y) <= m { WavesDraw(limit - 1, m, limit, at, nonce, step, y); }
    WavesPass(UNUSED, window, limit, limit - 1, m, at, nonce, step, at, at + (limit - 1) * step);
  }

  /** The calls of an outage are a run that the bound speaks of. */
  lemma OutagePermitted(limit: nat, m: nat, at: int, nonce: int, step: nat)
    requires limit >= 1 && m >= 1 && step <= 1
    ensures var calls := Outage(m, limit, at, nonce, step);
            Orderly(calls, at) && LimitsUpTo(calls, limit) && DrawnAtMost(calls, m)
  {
    hide Waves, Draws;
    var until := at + (limit - 1) * step;
    var waves := Waves(limit - 1, m, limit, at, nonce, step);
    var c := Call(until, limit, 0, Down);
    WavesOrderly(limit - 1, m, limit, at, nonce, step);
    DrawsRepeat(c, limit, Member(0, 0));
    OrderlyConcat(waves, Repeat(c, limit), at, until);
    forall y ensures Draws(Outage(m, limit, at, nonce, step), y) <= m {
      WavesDraw(limit - 1, m, limit, at, nonce, step, y);
      DrawsRepeat(c, limit, y);
      DrawsConcat(waves, Repeat(c, limit), y);
    }
  }

  /** An outage after the waves lets the memory list admit its limit on top: twice the limit when no member
      repeats. */
  lemma FailoverAttained(window: nat, limit: nat, m: nat, at: int, nonce: int, step: nat)
    requires limit >= 1 && m >= 1 && step <= 1 && (limit - 1) * step < window
    ensures var calls := Outage(m, limit, at, nonce, step);
            && Orderly(calls, at) && LimitsUpTo(calls, limit) && DrawnAtMost(calls, m)
            && CountIn(AfterCalls(UNUSED, window, calls).passed, at - 1, at - 1 + window)
               == Capacity(EachMember, m, limit) + limit
  {
    hide Waves, AfterCalls, Capacity, Orderly, LimitsUpTo, DrawnAtMost;
    var until := at + (limit - 1) * step;
    var waves := Waves(limit - 1, m, limit, at, nonce, step);
    var c := Call(until, limit, 0, Down);
    OutagePermitted(limit, m, at, nonce, step);
    RepeatsAttained(window, limit, m, at, nonce, step);
    WavesPass(UNUSED, window, limit, limit - 1, m, at, nonce, step, at, until);
    DownsPass(AfterCalls(UNUSED, window, waves), window, c, limit, at, until);
    CallsCompose(UNUSED, window, waves, Repeat(c, limit));
  }

  /** A run with requests up to the limit, in which no member is drawn more than m times. */
  ghost predicate Permitted(calls: seq<Call>, start: int, m: nat, limit: nat) {
    Orderly(calls, start) && LimitsUpTo(calls, limit) && DrawnAtMost(calls, m)
  }

  predicate RedisKeeps(calls: seq<Call>, window: nat, limit: nat, lo: int) {
    CountIn(AfterCalls(UNUSED, window, calls).byRedis, lo, lo + window) <= limit
  }

  lemma DistinctKeeps(calls: seq<Call>, start: int, window: nat, limit: nat, lo: int)
    requires window > 0 && Permitted(calls, start, 1, limit)
    ensures RedisKeeps(calls, window, limit, lo)
  {
    hide AfterCalls;
    RunBound(window, start, calls, 1, limit, lo);
  }

  lemma RepeatsExceed(window: nat, limit: nat, m: nat) returns (calls: seq<Call>)
    requires window > 0 && limit >= 2 && m >= 2
    ensures Permitted(calls, 1, m, limit) && !RedisKeeps(calls, window, limit, 0)
  {
    hide Waves, AfterCalls, Orderly, LimitsUpTo, DrawnAtMost;
    calls := Waves(limit - 1, m, limit, 1, 0, 0);
    RepeatsAttained(window, limit, m, 1, 0, 0);
    WavesPass(UNUSED, window, limit, limit - 1, m, 1, 0, 0, 1, 1);
    Monotone(limit - 1, 2, m);
  }

  /** Redis keeps every window to the limit in every run if and only if members never repeat. */
  lemma LimitHoldsIffDistinct(window: nat, limit: nat, m: nat)
    requires window > 0 && limit >= 2 && m >= 1
    ensures (forall calls, start, lo :: Permitted(calls, start, m, limit) ==> RedisKeeps(calls, window, limit, lo))
            <==> m == 1
  {
    hide Permitted, RedisKeeps;
    if m == 1 {
      forall calls, start, lo | Permitted(calls, start, m, limit) ensures RedisKeeps(calls, window, limit, lo) {
        DistinctKeeps(calls, start, window, limit, lo);
      }
    } else {
      var calls := RepeatsExceed(window, limit, m);
      assert Permitted(calls, 1, m, limit) && !RedisKeeps(calls, window, limit, 0);
    }
  }
}
