/** RateLimitMiddleware: the Redis sorted-set script, the in-memory list, and the failover between them. */
module RateLimiter {
  import opened SlidingWindow

  /** A Redis key: a sorted set and the time it expires. */
  datatype ZSet = ZSet(members: set<Member>, expiresAt: int)

  /** How the call to Redis ends. With ReplyLost the script ran but the caller only sees an exception. */
  datatype Link = Up | Down | ReplyLost

  /** Reading a key that has expired finds nothing. */
  function LiveMembers(z: ZSet, now: int): set<Member> {
    if now < z.expiresAt then z.members else {}
  }

  /** The script _SLIDING_WINDOW_LUA; its EXPIRE reads the millisecond window as seconds. */
  function Script(z: ZSet, now: int, window: nat, limit: int, nonce: int): (bool, ZSet) {
    var cutoff := now - window;
    var kept := set m | m in LiveMembers(z, now) && m.at > cutoff;
    var expiry := if now < z.expiresAt then z.expiresAt else now;
    if |kept| >= limit then (false, ZSet(kept, expiry))
    else (true, ZSet(kept + {Member(now, nonce)}, now + window * 1000))
  }

  /** The history after a call: extended exactly when the simple limiter admits. */
  function Extend(how: Measure, log: seq<Admission>, window: nat, now: int, limit: int, nonce: int): seq<Admission> {
    if Admits(how, log, window, now, limit) then log + [Admission(now, limit, nonce)] else log
  }

  function Times(log: seq<Admission>): seq<int> {
    seq(|log|, i requires 0 <= i < |log| => log[i].at)
  }

  /** The pruned set stands for the part of the history after some past cutoff, and the key outlives it. */
  ghost predicate Represents(z: ZSet, log: seq<Admission>, window: nat, now: int) {
    && (exists cutoff {:trigger After(log, cutoff)} ::
          cutoff <= now - window && z.members == Members(After(log, cutoff)))
    && (forall x :: x in log ==> x.at <= now && x.at + window * 1000 <= z.expiresAt)
  }

  /** What the script keeps is exactly the part of the history inside the window: neither the pruning nor
      the key's expiry loses a live entry. */
  lemma ScriptKeepsLive(z: ZSet, log: seq<Admission>, window: nat, last: int, now: int)
    requires Represents(z, log, window, last) && last <= now
    ensures (set m | m in LiveMembers(z, now) && m.at > now - window) == Members(After(log, now - window))
  {
    var cutoff :| cutoff <= last - window && z.members == Members(After(log, cutoff));
    var kept := set m | m in LiveMembers(z, now) && m.at > now - window;
    var live := After(log, now - window);
    forall m | m in Members(live) ensures m in kept {
      var x :| x in live && m == Member(x.at, x.nonce);
      assert x in log && x in After(log, cutoff);
    }
    forall m | m in kept ensures m in Members(live) {
      var x :| x in After(log, cutoff) && m == Member(x.at, x.nonce);
      assert x in live;
    }
  }

  lemma MembersAppend(log: seq<Admission>, x: Admission)
    ensures Members(log + [x]) == Members(log) + {MemberOf(x)}
  {
    forall y | y in log + [x] ensures MemberOf(y) in Members(log) + {MemberOf(x)} {
      if y in log { assert MemberOf(y) in Members(log); }
    }
    forall m | m in Members(log) ensures m in Members(log + [x]) {
      var y :| y in log && MemberOf(y) == m;
      assert y in log + [x];
    }
    assert x in log + [x];
  }

  /** Whatever suffixes are drawn, the script decides as a limiter that never forgets and counts the different
      members of the window, and its set goes on standing for the whole history. */
  lemma ScriptRefines(z: ZSet, log: seq<Admission>, window: nat, last: int, now: int, limit: int, nonce: int)
    requires Represents(z, log, window, last) && last <= now && window > 0
    ensures var (ok, z') := Script(z, now, window, limit, nonce);
            var log' := Extend(EachMember, log, window, now, limit, nonce);
            ok == Admits(EachMember, log, window, now, limit) && Represents(z', log', window, now)
  {
    hide Members, After;
    var (ok, z') := Script(z, now, window, limit, nonce);
    var x := Admission(now, limit, nonce);
    var live := After(log, now - window);
    ScriptKeepsLive(z, log, window, last, now);
    if ok {
      AfterAppend(log, x, now - window);
      MembersAppend(live, x);
      assert z'.members == Members(After(log + [x], now - window));
    } else {
      assert z'.members == Members(After(log, now - window));
    }
  }

  /** The script decides for every limit as one that counts the requests themselves if and only if no member
      repeats among the live ones. */
  lemma ExactIffDistinct(log: seq<Admission>, window: nat, now: int)
    ensures (forall limit ::
               Admits(EachMember, log, window, now, limit) == Admits(EachRequest, log, window, now, limit))
            <==> Distinct(After(log, now - window))
  {
    hide Distinct, Members, After;
    var live := After(log, now - window);
    MembersCount(live);
    if !Distinct(live) {
      assert Admits(EachMember, log, window, now, |live|) && !Admits(EachRequest, log, window, now, |live|);
    }
  }

  /** The random suffix matters: with a fresh member an admitted call raises the count of live entries by
      one; with a member already there it changes nothing, and the next call is admitted as well. */
  lemma ScriptCounts(z: ZSet, now: int, window: nat, limit: int, nonce: int)
    requires window > 0 && Script(z, now, window, limit, nonce).0
    ensures var z' := Script(z, now, window, limit, nonce).1;
            var before := set m | m in LiveMembers(z, now) && m.at > now - window;
            && |z'.members| <= limit && z'.expiresAt == now + window * 1000
            && (|z'.members| == |before| + 1 <==> Member(now, nonce) !in before)
            && (Member(now, nonce) in before ==>
                z'.members == before && Script(z', now, window, limit, nonce) == (true, z'))
  {
    var before := set m | m in LiveMembers(z, now) && m.at > now - window;
    var z' := Script(z, now, window, limit, nonce).1;
    if Member(now, nonce) in before {
      assert z'.members == before;
      assert (set m | m in LiveMembers(z', now) && m.at > now - window) == before;
    }
  }

  /** [t for t in bucket if t > cutoff]. */
  function Pruned(bucket: seq<int>, cutoff: int): seq<int> {
    if bucket == [] then []
    else
      var n := |bucket| - 1;
      Pruned(bucket[..n], cutoff) + if bucket[n] > cutoff then [bucket[n]] else []
  }

  lemma {:induction false} PrunedTimes(log: seq<Admission>, c: int)
    ensures Pruned(Times(log), c) == Times(After(log, c))
  {
    if log != [] {
      var n := |log| - 1;
      assert Times(log)[..n] == Times(log[..n]);
      PrunedTimes(log[..n], c);
    }
  }

  lemma {:induction false} AfterSorted(log: seq<Admission>, c: int)
    requires Sorted(log)
    ensures Sorted(After(log, c))
  {
    if log != [] {
      var n := |log| - 1;
      AfterSorted(log[..n], c);
      forall x | x in After(log[..n], c) ensures x.at <= log[n].at { assert x in log[..n]; }
    }
  }

  /** The list stands for the part of the memory history after some past cutoff. */
  ghost predicate Lists(bucket: seq<int>, log: seq<Admission>, window: nat, now: int) {
    && (exists cutoff {:trigger After(log, cutoff)} :: cutoff <= now - window && bucket == Times(After(log, cutoff)))
    && Ascending(bucket)
  }

  ghost predicate Ascending(bucket: seq<int>) {
    forall i, j :: 0 <= i <= j < |bucket| ==> bucket[i] <= bucket[j]
  }

  /** The in-memory list decides as the simple limiter over the whole history and stays sorted. */
  lemma ListRefines(bucket: seq<int>, log: seq<Admission>, window: nat, last: int, now: int, limit: int)
    requires Lists(bucket, log, window, last) && last <= now && Sorted(log) && window > 0
    requires forall x :: x in log ==> x.at <= now
    ensures var kept := Pruned(bucket, now - window);
            var ok := |kept| < limit;
            && ok == Admits(EachRequest, log, window, now, limit)
            && Lists(if ok then kept + [now] else kept, Extend(EachRequest, log, window, now, limit, 0), window, now)
  {
    hide Pruned, After;
    var cutoff :| cutoff <= last - window && bucket == Times(After(log, cutoff));
    var kept, live := Pruned(bucket, now - window), After(log, now - window);
    AfterShrinks(log, cutoff, now - window);
    PrunedTimes(After(log, cutoff), now - window);
    AfterSorted(log, now - window);
    assert kept == Times(live);
    forall i | 0 <= i < |kept| ensures kept[i] <= now { assert live[i] in log; }
    if |kept| < limit {
      var x := Admission(now, limit, 0);
      AfterAppend(log, x, now - window);
      assert Times(live + [x]) == Times(live) + [now];
      assert kept + [now] == Times(After(log + [x], now - window));
    }
  }

  /** The histories of one key: what the memory list admitted, what the script charged in Redis, what of that
      was let through because its reply was heard, and all that the middleware let through. */
  datatype History = History(memory: seq<Admission>, redis: seq<Admission>, heard: seq<Admission>,
      passed: seq<Admission>)

  const NOTHING := History([], [], [], [])

  /** _check_memory on histories: the decision of the limiter that remembers everything. */
  function MemoryOutcome(h: History, window: nat, now: int, limit: int): (bool, History) {
    var x := Admission(now, limit, 0);
    if Admits(EachRequest, h.memory, window, now, limit) then
        (true, h.(memory := h.memory + [x], passed := h.passed + [x]))
    else (false, h)
  }

  /** The script's charge, with its reply heard or lost. */
  function Charged(h: History, window: nat, now: int, limit: int, nonce: int, heard: bool): History {
    var x := Admission(now, limit, nonce);
    var h' := h.(redis := Extend(EachMember, h.redis, window, now, limit, nonce));
    if Admits(EachMember, h.redis, window, now, limit) && heard then
        h'.(heard := h.heard + [x], passed := h.passed + [x])
    else h'
  }

  /** _check_redis on histories. A lost reply charges Redis and then lets the memory list decide. */
  function RedisOutcome(h: History, window: nat, now: int, limit: int, nonce: int, link: Link): (bool, History) {
    match link
    case Down => MemoryOutcome(h, window, now, limit)
    case ReplyLost => MemoryOutcome(Charged(h, window, now, limit, nonce, false), window, now, limit)
    case Up => (Admits(EachMember, h.redis, window, now, limit), Charged(h, window, now, limit, nonce, true))
  }

  ghost predicate Conforming(h: History, window: nat, now: int) {
    && Conforms(EachRequest, h.memory, window) && Conforms(EachMember, h.redis, window)
    && (forall x :: x in h.memory ==> x.at <= now) && (forall x :: x in h.redis ==> x.at <= now)
    && (forall lo, hi :: CountIn(h.heard, lo, hi) <= CountIn(h.redis, lo, hi))
    && (forall lo, hi :: CountIn(h.passed, lo, hi) == CountIn(h.memory, lo, hi) + CountIn(h.heard, lo, hi))
  }

  ghost predicate KeyOk(bucket: seq<int>, z: ZSet, h: History, window: nat, now: int) {
    Conforming(h, window, now) && Lists(bucket, h.memory, window, now) && Represents(z, h.redis, window, now)
  }

  lemma KeyAdvances(bucket: seq<int>, z: ZSet, h: History, window: nat, now: int, now': int)
    requires KeyOk(bucket, z, h, window, now) && now <= now'
    ensures KeyOk(bucket, z, h, window, now')
  {
    var c :| c <= now - window && bucket == Times(After(h.memory, c));
    assert c <= now' - window && bucket == Times(After(h.memory, c));
    var d :| d <= now - window && z.members == Members(After(h.redis, d));
    assert d <= now' - window && z.members == Members(After(h.redis, d));
  }

  lemma UnusedKeyOk(window: nat, now: int)
    ensures KeyOk([], ZSet({}, 0), NOTHING, window, now)
  {
    var c := now - window;
    assert Times(After([], c)) == [] && Members(After([], c)) == {};
  }

  lemma InOrder(bucket: seq<int>, z: ZSet, h: History, window: nat, now: int)
    requires KeyOk(bucket, z, h, window, now)
    ensures Ascending(bucket)
  {
  }

  lemma MemoryStepOk(bucket: seq<int>, z: ZSet, h: History, window: nat, last: int, now: int, limit: int)
    requires KeyOk(bucket, z, h, window, last) && last <= now && window > 0
    ensures var kept := Pruned(bucket, now - window);
            var (ok, h') := MemoryOutcome(h, window, now, limit);
            ok == (|kept| < limit) && KeyOk(if ok then kept + [now] else kept, z, h', window, now)
  {
    hide Admits, Conforms, Lists, Represents, CountIn;
    var (ok, h') := MemoryOutcome(h, window, now, limit);
    KeyAdvances(bucket, z, h, window, last, now);
    assert Sorted(h.memory) by { Ordered(EachRequest, h.memory, window); }
    ListRefines(bucket, h.memory, window, last, now, limit);
    if ok {
      var x := Admission(now, limit, 0);
      Latest(h.memory, x);
      ConformsAppend(EachRequest, h.memory, window, x);
      forall lo, hi ensures CountIn(h'.passed, lo, hi) == CountIn(h'.memory, lo, hi) + CountIn(h.heard, lo, hi) {
        CountAppend(h.memory, x, lo, hi);
        CountAppend(h.passed, x, lo, hi);
      }
    }
  }

  lemma Ordered(how: Measure, log: seq<Admission>, window: nat)
    requires Conforms(how, log, window)
    ensures Sorted(log)
  {
  }

  lemma Latest(log: seq<Admission>, x: Admission)
    requires forall y :: y in log ==> y.at <= x.at
    ensures forall i :: 0 <= i < |log| ==> log[i].at <= x.at
  {
  }

  /** The script ran and its verdict was either used or lost. */
  lemma ScriptStepOk(bucket: seq<int>, z: ZSet, h: History, window: nat, last: int, now: int, limit: int, nonce: int,
                     heard: bool)
    requires KeyOk(bucket, z, h, window, last) && last <= now && window > 0
    ensures var (ok, z') := Script(z, now, window, limit, nonce);
            && ok == Admits(EachMember, h.redis, window, now, limit)
            && KeyOk(bucket, z', Charged(h, window, now, limit, nonce, heard), window, now)
  {
    hide Admits, Conforms, Lists, Represents, CountIn, Script, Members;
    KeyAdvances(bucket, z, h, window, last, now);
    ScriptRefines(z, h.redis, window, last, now, limit, nonce);
    var ok := Script(z, now, window, limit, nonce).0;
    if ok {
      var x := Admission(now, limit, nonce);
      Latest(h.redis, x);
      ConformsAppend(EachMember, h.redis, window, x);
      var h' := Charged(h, window, now, limit, nonce, heard);
      forall lo, hi
        ensures CountIn(h'.heard, lo, hi) <= CountIn(h'.redis, lo, hi)
        ensures CountIn(h'.passed, lo, hi) == CountIn(h.memory, lo, hi) + CountIn(h'.heard, lo, hi)
      {
        CountAppend(h.redis, x, lo, hi);
        CountAppend(h.heard, x, lo, hi);
        CountAppend(h.passed, x, lo, hi);
      }
    }
  }

  /** What the memory list let through keeps to the limit in every window, and what Redis let through to the
      capacity of its members: the limit when none repeats. */
  lemma FailoverBound(h: History, window: nat, now: int, m: nat, limit: nat, lo: int)
    requires Conforming(h, window, now) && AtMost(h.redis, m)
    requires forall x :: x in h.memory || x in h.redis ==> x.limit <= limit
    ensures CountIn(h.memory, lo, lo + window) <= limit
    ensures CountIn(h.heard, lo, lo + window) <= CountIn(h.redis, lo, lo + window) <= Capacity(EachMember, m, limit)
    ensures CountIn(h.passed, lo, lo + window) == CountIn(h.memory, lo, lo + window) + CountIn(h.heard, lo, lo + window)
  {
    hide AtMost, Capacity;
    WindowBound(EachRequest, h.memory, window, m, limit, lo);
    WindowBound(EachMember, h.redis, window, m, limit, lo);
    assert Capacity(EachRequest, m, limit) == limit by { JustTheLimit(m, limit); }
  }

  lemma JustTheLimit(m: nat, limit: nat)
    ensures Capacity(EachRequest, m, limit) == limit
    ensures Capacity(EachMember, 1, limit) == limit
  {
  }

  /** A client that was silent for a whole window is admitted, by whichever limiter answers. */
  lemma SilentClientAdmitted(h: History, window: nat, now: int, limit: int, nonce: int, link: Link)
    requires limit >= 1
    requires forall x :: x in h.memory || x in h.redis ==> x.at <= now - window
    ensures RedisOutcome(h, window, now, limit, nonce, link).0
  {
    NothingAfter(h.memory, now - window);
    NothingAfter(h.redis, now - window);
  }

  lemma {:induction false} NothingAfter(log: seq<Admission>, c: int)
    requires forall x :: x in log ==> x.at <= c
    ensures After(log, c) == []
  {
    if log != [] { NothingAfter(log[..|log| - 1], c); }
  }

  /** The middleware's state, and for the specification the history of each key. */
  class RateLimiter {
    const window: nat  // in milliseconds
    var buckets: map<string, seq<int>>
    var redis: map<string, ZSet>
    ghost var clock: int
    ghost var history: map<string, History>

    function Bucket(key: string): seq<int>
      reads this
    {
      if key in buckets then buckets[key] else []
    }

    function Key(key: string): ZSet
      reads this
    {
      if key in redis then redis[key] else ZSet({}, 0)
    }

    ghost function HistoryOf(key: string): History
      reads this
    {
      if key in history then history[key] else NOTHING
    }

    ghost predicate Valid()
      reads this
    {
      window > 0 && forall key :: KeyOk(Bucket(key), Key(key), HistoryOf(key), window, clock)
    }

    constructor (windowSeconds: nat, ghost now: int)
      requires windowSeconds > 0
      ensures Valid() && history == map[] && clock == now && window == windowSeconds * 1000
    {
      window := windowSeconds * 1000;
      buckets, redis := map[], map[];
      clock, history := now, map[];
      new;
      UnusedKeyOk(window, now);
    }

    /** Only the history of `key` changes, as the limiter that remembers everything would change it. */
    method CheckMemory(key: string, limit: int, now: int) returns (ok: bool)
      requires Valid() && clock <= now
      modifies this`buckets, this`clock, this`history
      ensures Valid() && clock == now
      ensures (ok, HistoryOf(key)) == MemoryOutcome(old(HistoryOf(key)), window, now, limit)
      ensures history == old(history)[key := HistoryOf(key)]
      ensures Ascending(Bucket(key)) && (ok || |old(Bucket(key))| <= limit ==> |Bucket(key)| <= limit)
    {
      hide KeyOk, Admits, Pruned;
      ghost var h := HistoryOf(key);
      MemoryStepOk(Bucket(key), Key(key), h, window, clock, now, limit);
      PrunedLength(Bucket(key), now - window);
      var kept := Pruned(Bucket(key), now - window);
      buckets := buckets[key := kept];
      ok := !(|buckets[key]| >= limit);
      if ok {
        buckets := buckets[key := buckets[key] + [now]];
      }
      clock := now;
      history := history[key := MemoryOutcome(h, window, now, limit).1];
      forall k ensures KeyOk(Bucket(k), Key(k), HistoryOf(k), window, clock) {
        if k != key { KeyAdvances(old(Bucket(k)), old(Key(k)), old(HistoryOf(k)), window, old(clock), now); }
      }
      assert KeyOk(Bucket(key), Key(key), HistoryOf(key), window, clock);
      InOrder(Bucket(key), Key(key), HistoryOf(key), window, clock);
    }

    /** The script's verdict, or the memory list's when the caller gets no reply. */
    method CheckRedis(key: string, limit: int, now: int, nonce: int, link: Link) returns (ok: bool)
      requires Valid() && clock <= now
      modifies this`buckets, this`redis, this`clock, this`history
      ensures Valid() && clock == now
      ensures (ok, HistoryOf(key)) == RedisOutcome(old(HistoryOf(key)), window, now, limit, nonce, link)
      ensures history == old(history)[key := HistoryOf(key)]
    {
      hide KeyOk, Admits, Script, Members;
      if link.Down? {
        ok := CheckMemory(key, limit, now);
        return;
      }
      ghost var h := HistoryOf(key);
      ScriptStepOk(Bucket(key), Key(key), h, window, clock, now, limit, nonce, link.Up?);
      var (verdict, z) := Script(Key(key), now, window, limit, nonce);
      redis := redis[key := z];
      clock := now;
      history := history[key := Charged(h, window, now, limit, nonce, link.Up?)];
      forall k ensures KeyOk(Bucket(k), Key(k), HistoryOf(k), window, clock) {
        if k != key { KeyAdvances(old(Bucket(k)), old(Key(k)), old(HistoryOf(k)), window, old(clock), now); }
      }
      ok := verdict;
      if link.ReplyLost? {
        ok := CheckMemory(key, limit, now);
      }
    }
  }

  lemma {:induction false} PrunedLength(bucket: seq<int>, c: int)
    ensures |Pruned(bucket, c)| <= |bucket|
  {
    if bucket != [] { PrunedLength(bucket[..|bucket| - 1], c); }
  }
}
