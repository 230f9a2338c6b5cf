/** The cache-aside protocol with its real grain: every Redis call and every database access of every
    reader and writer is a step of its own, any of them may fail, and they interleave freely. */
module CacheInterleaving {
  import opened Options
  import opened Workflows
  import opened CacheKey

  /** The table as committed at a moment. */
  datatype Snapshot = Snapshot(table: seq<Workflow>, at: int)

  /** A list of rules read from the database: which query, from which committed version, and when. */
  datatype Listing = Listing(business: string, trigger: string, rules: seq<Rule>, version: nat, readAt: int)

  datatype Cached = Cached(list: Listing, storedAt: int)

  /** A cached read between its steps. */
  datatype Reader =
    | Asked(business: string, trigger: string)
    | Missed(business: string, trigger: string, redisUp: bool)
    | Loaded(list: Listing, redisUp: bool)

  /** What a write handler still has to do. */
  datatype Task =
    | Invalidate(business: string, trigger: string)
    | Commit(op: Write)

  /** A list handed to a caller who asked for (business, trigger). `current` is the committed version at that
      moment; a hit also records when its entry was stored. */
  datatype Answer = Answer(business: string, trigger: string, list: Listing, at: int, current: nat,
      storedAt: Option<int>)

  datatype State = State(
    now: int,
    history: seq<Snapshot>,
    cache: map<string, Cached>,
    readers: map<nat, Reader>,
    writers: map<nat, seq<Task>>,
    answers: seq<Answer>)

  datatype Step =
    | Tick(now: int)
    | Ask(p: nat, business: string, trigger: string)
    | Get(p: nat, up: bool, usable: bool)   // GET; a hit that cannot be decoded falls through to the database
    | Load(p: nat)                          // the database query
    | Store(p: nat, ok: bool)               // SETEX if GET had worked, then return
    | BeginCreate(p: nat, row: Workflow)
    | BeginUpdate(p: nat, id: nat, business: string, patch: Patch)
    | BeginDelete(p: nat, id: nat, business: string)
    | Work(p: nat, ok: bool)                // the writer's next task; a failed invalidation is swallowed

  predicate Wellformed(s: State) { s.history != [] }

  function Version(s: State): nat
    requires Wellformed(s)
  {
    |s.history| - 1
  }

  function Table(s: State): seq<Workflow>
    requires Wellformed(s)
  {
    s.history[Version(s)].table
  }

  predicate Hit(s: State, b: string, t: string) {
    Key(b, t) in s.cache && s.now < s.cache[Key(b, t)].storedAt + TTL
  }

  predicate Enabled(s: State, step: Step) {
    Wellformed(s) &&
    match step
    case Tick(now) => s.now <= now
    case Ask(p, b, t) => p !in s.readers && ColonFree(b)
    case Get(p, up, usable) => p in s.readers && s.readers[p].Asked?
    case Load(p) => p in s.readers && s.readers[p].Missed?
    case Store(p, ok) => p in s.readers && s.readers[p].Loaded?
    case BeginCreate(p, row) => p !in s.writers && ColonFree(row.business)
    case BeginUpdate(p, id, b, patch) => p !in s.writers && ColonFree(b) && Find(Table(s), id, b) < |Table(s)|
    case BeginDelete(p, id, b) => p !in s.writers && ColonFree(b) && Find(Table(s), id, b) < |Table(s)|
    case Work(p, ok) => p in s.writers && s.writers[p] != []
  }

  /** The list a reader gets from the database now. */
  function Fresh(s: State, b: string, t: string): Listing
    requires Wellformed(s)
  {
    Listing(b, t, Query(Table(s), b, t), Version(s), s.now)
  }

  function Answered(s: State, p: nat, b: string, t: string, list: Listing, storedAt: Option<int>): State
    requires Wellformed(s)
  {
    s.(readers := s.readers - {p}, answers := s.answers + [Answer(b, t, list, s.now, Version(s), storedAt)])
  }

  /** The trigger an update invalidates after its commit is that of the refreshed row. */
  function FollowUp(s: State, op: Write): seq<Task>
    requires Wellformed(s)
  {
    match op
    case Create(row) => []
    case Update(id, b, patch, at) =>
      var i := Find(Table(s), id, b);
      if i < |Table(s)| then [Invalidate(b, Patched(Table(s)[i], patch, at).trigger)] else []
    case Delete(id, b) => []
  }

  /** A writer with nothing left to do is gone. */
  function Resumed(s: State, p: nat, tasks: seq<Task>): map<nat, seq<Task>> {
    if tasks == [] then s.writers - {p} else s.writers[p := tasks]
  }

  function Next(s: State, step: Step): State
    requires Enabled(s, step)
  {
    match step
    case Tick(now) => s.(now := now)
    case Ask(p, b, t) => s.(readers := s.readers[p := Asked(b, t)])
    case Get(p, up, usable) =>
      var r := s.readers[p];
      if up && usable && Hit(s, r.business, r.trigger) then
        var entry := s.cache[Key(r.business, r.trigger)];
        Answered(s, p, r.business, r.trigger, entry.list, Some(entry.storedAt))
      else s.(readers := s.readers[p := Missed(r.business, r.trigger, up)])
    case Load(p) =>
      var r := s.readers[p];
      s.(readers := s.readers[p := Loaded(Fresh(s, r.business, r.trigger), r.redisUp)])
    case Store(p, ok) =>
      var r := s.readers[p];
      var s' := Answered(s, p, r.list.business, r.list.trigger, r.list, None);
      if r.redisUp && ok then s'.(cache := s.cache[Key(r.list.business, r.list.trigger) := Cached(r.list, s.now)])
      else s'
    case BeginCreate(p, row) =>
      s.(writers := s.writers[p := [Commit(Create(row)), Invalidate(row.business, row.trigger)]])
    case BeginUpdate(p, id, b, patch) =>
      var old' := Table(s)[Find(Table(s), id, b)].trigger;
      s.(writers := s.writers[p := (if patch.trigger.Some? then [Invalidate(b, old')] else [])
                                   + [Commit(Update(id, b, patch, s.now))]])
    case BeginDelete(p, id, b) =>
      var old' := Table(s)[Find(Table(s), id, b)].trigger;
      s.(writers := s.writers[p := [Commit(Delete(id, b)), Invalidate(b, old')]])
    case Work(p, ok) =>
      var rest := s.writers[p][1..];
      match s.writers[p][0]
      case Invalidate(b, t) =>
        s.(cache := if ok then s.cache - {Key(b, t)} else s.cache, writers := Resumed(s, p, rest))
      case Commit(op) =>
        if !ok then s.(writers := s.writers - {p})  // the database rejects the write and the request fails
        else s.(history := s.history + [Snapshot(Apply(Table(s), op), s.now)],
                writers := Resumed(s, p, FollowUp(s, op) + rest))
  }

  predicate ValidRun(s: State, run: seq<Step>)
    decreases |run|
  {
    run == [] || (Enabled(s, run[0]) && ValidRun(Next(s, run[0]), run[1..]))
  }

  function Final(s: State, run: seq<Step>): State
    requires ValidRun(s, run)
    decreases |run|
  {
    if run == [] then s else Final(Next(s, run[0]), run[1..])
  }

  predicate Initial(s: State) {
    && |s.history| == 1 && s.history[0].at <= s.now
    && s.cache == map[] && s.readers == map[] && s.writers == map[] && s.answers == []
  }

  /** Version v was the committed one at moment x. */
  predicate InForce(history: seq<Snapshot>, v: nat, x: int) {
    v < |history| && history[v].at <= x && (v + 1 < |history| ==> x <= history[v + 1].at)
  }

  /** The list is exactly the query's answer at the moment it was read. */
  ghost predicate Genuine(history: seq<Snapshot>, list: Listing, now: int) {
    && InForce(history, list.version, list.readAt) && list.readAt <= now
    && list.rules == Query(history[list.version].table, list.business, list.trigger)
  }

  /** The reader's own delay: from its database read to its SETEX, or to its return for the reader itself. */
  function Delay(r: Answer): int {
    (if r.storedAt.Some? then r.storedAt.value else r.at) - r.list.readAt
  }

  ghost predicate Accounted(history: seq<Snapshot>, r: Answer, now: int) {
    && r.list.business == r.business && r.list.trigger == r.trigger
    && r.at <= now && Genuine(history, r.list, r.at) && InForce(history, r.current, r.at) && r.list.version <= r.current
    && 0 <= Delay(r) && r.at - r.list.readAt < TTL + Delay(r)
  }

  ghost predicate HistoryOk(history: seq<Snapshot>, now: int) {
    history != [] && forall i, j :: 0 <= i <= j < |history| ==> history[i].at <= history[j].at <= now
  }

  ghost predicate CacheOk(history: seq<Snapshot>, cache: map<string, Cached>, now: int) {
    forall k :: k in cache ==>
      var c := cache[k];
      && Genuine(history, c.list, c.storedAt) && c.storedAt <= now
      && ColonFree(c.list.business) && k == Key(c.list.business, c.list.trigger)
  }

  ghost predicate ReaderOk(history: seq<Snapshot>, r: Reader, now: int) {
    match r
    case Loaded(list, _) => Genuine(history, list, now) && ColonFree(list.business)
    case Asked(b, _) => ColonFree(b)
    case Missed(b, _, _) => ColonFree(b)
  }

  ghost predicate ReadersOk(history: seq<Snapshot>, readers: map<nat, Reader>, now: int) {
    forall p :: p in readers ==> ReaderOk(history, readers[p], now)
  }

  ghost predicate AnswersOk(history: seq<Snapshot>, answers: seq<Answer>, now: int) {
    forall i :: 0 <= i < |answers| ==> Accounted(history, answers[i], now)
  }

  ghost predicate Inv(s: State) {
    && HistoryOk(s.history, s.now) && CacheOk(s.history, s.cache, s.now)
    && ReadersOk(s.history, s.readers, s.now) && AnswersOk(s.history, s.answers, s.now)
  }

  lemma GenuineLater(history: seq<Snapshot>, x: Snapshot, list: Listing, now: int)
    requires Genuine(history, list, now) && now <= x.at
    ensures Genuine(history + [x], list, now)
  {
  }

  lemma CommitKeepsInv(s: State, table: seq<Workflow>)
    requires Inv(s)
    ensures Inv(s.(history := s.history + [Snapshot(table, s.now)]))
  {
    hide Query, Genuine, Key;
    var x := Snapshot(table, s.now);
    var s' := s.(history := s.history + [x]);
    forall k | k in s.cache ensures Genuine(s'.history, s.cache[k].list, s.cache[k].storedAt) {
      GenuineLater(s.history, x, s.cache[k].list, s.cache[k].storedAt);
    }
    forall p | p in s.readers ensures ReaderOk(s'.history, s.readers[p], s.now) {
      assert ReaderOk(s.history, s.readers[p], s.now);
      if s.readers[p].Loaded? { GenuineLater(s.history, x, s.readers[p].list, s.now); }
    }
    forall i | 0 <= i < |s.answers| ensures Accounted(s'.history, s.answers[i], s.now) {
      assert Accounted(s.history, s.answers[i], s.now);
      GenuineLater(s.history, x, s.answers[i].list, s.answers[i].at);
    }
  }

  lemma AnswerKeepsInv(s: State, p: nat, b: string, t: string, list: Listing, storedAt: Option<int>)
    requires Inv(s) && Accounted(s.history, Answer(b, t, list, s.now, Version(s), storedAt), s.now)
    ensures Inv(Answered(s, p, b, t, list, storedAt))
  {
    hide Genuine, Accounted, ReaderOk, CacheOk;
  }

  lemma TickKeepsInv(s: State, now: int)
    requires Inv(s) && s.now <= now
    ensures Inv(s.(now := now))
  {
    hide Query, Key;
    forall p | p in s.readers ensures ReaderOk(s.history, s.readers[p], now) {
      assert ReaderOk(s.history, s.readers[p], s.now);
    }
    forall i | 0 <= i < |s.answers| ensures Accounted(s.history, s.answers[i], now) {
      assert Accounted(s.history, s.answers[i], s.now);
    }
  }

  lemma ReadStepKeepsInv(s: State, step: Step)
    requires Inv(s) && Enabled(s, step) && (step.Get? || step.Load? || step.Store?)
    ensures Inv(Next(s, step))
  {
    hide Query, Key, CacheOk, AnswersOk;
    assert ReaderOk(s.history, s.readers[step.p], s.now);
    match step
    case Get(p, up, usable) =>
      var b, t := s.readers[p].business, s.readers[p].trigger;
      if up && usable && Hit(s, b, t) {
        var c := s.cache[Key(b, t)];
        HitAccounted(s, b, t);
        AnswerKeepsInv(s, p, b, t, c.list, Some(c.storedAt));
      }
    case Load(p) =>
      var r := s.readers[p];
      assert ReaderOk(s.history, Loaded(Fresh(s, r.business, r.trigger), r.redisUp), s.now);
    case Store(p, ok) =>
      var l := s.readers[p].list;
      AnswerKeepsInv(s, p, l.business, l.trigger, l, None);
      StoredOk(s, l);
  }

  lemma HitAccounted(s: State, b: string, t: string)
    requires Inv(s) && ColonFree(b) && Hit(s, b, t)
    ensures var c := s.cache[Key(b, t)];
            Accounted(s.history, Answer(b, t, c.list, s.now, Version(s), Some(c.storedAt)), s.now)
  {
    hide Query, ReadersOk, AnswersOk;
    var c := s.cache[Key(b, t)];
    KeyInjective(b, t, c.list.business, c.list.trigger);
  }

  lemma StoredOk(s: State, l: Listing)
    requires CacheOk(s.history, s.cache, s.now) && Genuine(s.history, l, s.now) && ColonFree(l.business)
    ensures CacheOk(s.history, s.cache[Key(l.business, l.trigger) := Cached(l, s.now)], s.now)
  {
    hide Query, Key;
  }

  lemma StepKeepsInv(s: State, step: Step)
    requires Inv(s) && Enabled(s, step)
    ensures Inv(Next(s, step))
  {
    hide Query, Key, Apply, Find, Genuine, Accounted;
    match step
    case Tick(now) => TickKeepsInv(s, now);
    case Work(p, ok) => if s.writers[p][0].Commit? { CommitKeepsInv(s, Apply(Table(s), s.writers[p][0].op)); }
    case Get(_, _, _) => ReadStepKeepsInv(s, step);
    case Load(_) => ReadStepKeepsInv(s, step);
    case Store(_, _) => ReadStepKeepsInv(s, step);
    case _ =>
  }

  lemma {:induction false} RunKeepsInv(s: State, run: seq<Step>)
    requires Inv(s) && ValidRun(s, run)
    ensures Inv(Final(s, run))
    decreases |run|
  {
    if run != [] {
      StepKeepsInv(s, run[0]);
      RunKeepsInv(Next(s, run[0]), run[1..]);
    }
  }

  lemma RunAccounted(s: State, run: seq<Step>)
    requires Initial(s) && ValidRun(s, run)
    ensures Inv(Final(s, run))
  {
    RunKeepsInv(s, run);
  }

  /** Whatever the interleaving and whichever calls fail, every list a cached read returns is exactly the
      answer of the query it asked at one earlier moment, less than the time to live plus its reader's own
      delay ago. */
  lemma BoundedStaleness(s: State, run: seq<Step>, i: nat)
    requires Initial(s) && ValidRun(s, run) && i < |Final(s, run).answers|
    ensures var end := Final(s, run); var a := end.answers[i];
            && InForce(end.history, a.list.version, a.list.readAt)
            && a.list.rules == Query(end.history[a.list.version].table, a.business, a.trigger)
            && a.list.readAt <= a.at < a.list.readAt + TTL + Delay(a)
  {
    RunAccounted(s, run);
    assert Accounted(Final(s, run).history, Final(s, run).answers[i], Final(s, run).now);
  }

  /** Once the time to live plus the reader's delay have passed since the last committed write, the cached
      read returns what the database holds. */
  lemma ExactWhenQuiet(s: State, run: seq<Step>, i: nat)
    requires Initial(s) && ValidRun(s, run) && i < |Final(s, run).answers|
    requires var end := Final(s, run); var a := end.answers[i];
             a.current < |end.history| && end.history[a.current].at + TTL + Delay(a) <= a.at
    ensures var end := Final(s, run); var a := end.answers[i];
            a.list.version == a.current && a.list.rules == Query(end.history[a.current].table, a.business, a.trigger)
  {
    RunAccounted(s, run);
    var h, a := Final(s, run).history, Final(s, run).answers[i];
    assert Accounted(h, a, Final(s, run).now);
    assert forall j :: a.list.version < j < |h| ==> h[a.list.version + 1].at <= h[j].at;
  }

  lemma {:induction false} RunsCompose(s: State, a: seq<Step>, b: seq<Step>)
    requires ValidRun(s, a) && ValidRun(Final(s, a), b)
    ensures ValidRun(s, a + b) && Final(s, a + b) == Final(Final(s, a), b)
    decreases |a|
  {
    if a == [] {
      assert a + b == b;
    } else {
      assert (a + b)[0] == a[0] && (a + b)[1..] == a[1..] + b;
      RunsCompose(Next(s, a[0]), a[1..], b);
    }
  }

  lemma Steps2(s: State, x: Step, y: Step)
    requires Enabled(s, x) && Enabled(Next(s, x), y)
    ensures ValidRun(s, [x, y]) && Final(s, [x, y]) == Next(Next(s, x), y)
  {
    var s1 := Next(s, x);
    var rest := [y];
    assert rest[0] == y && rest[1..] == [];
    assert ValidRun(s1, rest);
    assert Final(s1, rest) == Final(Next(s1, rest[0]), rest[1..]) == Next(s1, y);
    assert [x, y][1..] == rest;
  }

  lemma Steps3(s: State, x: Step, y: Step, z: Step)
    requires Enabled(s, x) && Enabled(Next(s, x), y) && Enabled(Next(Next(s, x), y), z)
    ensures ValidRun(s, [x, y, z]) && Final(s, [x, y, z]) == Next(Next(Next(s, x), y), z)
  {
    Steps2(Next(s, x), y, z);
    assert [x, y, z][1..] == [y, z];
  }

  /** A read that misses, up to its SETEX. */
  lemma LoadRun(s: State, p: nat, b: string, t: string) returns (run: seq<Step>)
    requires Wellformed(s) && p !in s.readers && ColonFree(b) && !Hit(s, b, t)
    ensures ValidRun(s, run)
    ensures Final(s, run) == s.(readers := s.readers[p := Loaded(Fresh(s, b, t), true)])
  {
    hide Query, Key;
    run := [Ask(p, b, t), Get(p, true, true), Load(p)];
    Steps3(s, run[0], run[1], run[2]);
  }

  /** A delete and its invalidation. */
  lemma DeleteRun(s: State, p: nat, id: nat, b: string) returns (run: seq<Step>)
    requires Wellformed(s) && p !in s.writers && ColonFree(b) && Find(Table(s), id, b) < |Table(s)|
    ensures ValidRun(s, run)
    ensures var t := Table(s)[Find(Table(s), id, b)].trigger;
            Final(s, run) == s.(history := s.history + [Snapshot(Apply(Table(s), Delete(id, b)), s.now)],
                                cache := s.cache - {Key(b, t)})
  {
    hide Query, Key, Apply, Find;
    run := [BeginDelete(p, id, b), Work(p, true), Work(p, true)];
    Steps3(s, run[0], run[1], run[2]);
    assert Final(s, run).writers == s.writers;
  }

  /** An uninterrupted read that does not end at a hit: it answers the query as it is now, and stores the answer if
      and only if both GET and SETEX work. */
  lemma ReadRun(s: State, p: nat, b: string, t: string, up: bool, usable: bool, ok: bool) returns (run: seq<Step>)
    requires Wellformed(s) && p !in s.readers && ColonFree(b) && !(up && usable && Hit(s, b, t))
    ensures ValidRun(s, run)
    ensures Final(s, run) == s.(
                cache := if up && ok then s.cache[Key(b, t) := Cached(Fresh(s, b, t), s.now)] else s.cache,
                answers := s.answers + [Answer(b, t, Fresh(s, b, t), s.now, Version(s), None)])
    ensures Fresh(s, b, t).rules == Query(Table(s), b, t) && Fresh(s, b, t).readAt == s.now
  {
    hide Query, Key;
    run := [Ask(p, b, t)] + [Get(p, up, usable), Load(p), Store(p, ok)];
    assert run[1..] == [Get(p, up, usable), Load(p), Store(p, ok)];
    Steps3(Next(s, run[0]), Get(p, up, usable), Load(p), Store(p, ok));
    assert Final(s, run).readers == s.readers;
  }

  /** A hit answers with the cached list and changes nothing else. */
  lemma HitRun(s: State, p: nat, b: string, t: string) returns (run: seq<Step>)
    requires Wellformed(s) && p !in s.readers && ColonFree(b) && Hit(s, b, t)
    ensures ValidRun(s, run)
    ensures var c := s.cache[Key(b, t)];
            Final(s, run) == s.(answers := s.answers + [Answer(b, t, c.list, s.now, Version(s), Some(c.storedAt))])
  {
    hide Query, Key;
    run := [Ask(p, b, t), Get(p, true, true)];
    Steps2(s, run[0], run[1]);
    assert Final(s, run).readers == s.readers;
  }

  /** A create: commit, then invalidation. */
  lemma CreateRun(s: State, p: nat, row: Workflow) returns (run: seq<Step>)
    requires Wellformed(s) && p !in s.writers && ColonFree(row.business)
    ensures ValidRun(s, run)
    ensures Final(s, run) == s.(history := s.history + [Snapshot(Table(s) + [row], s.now)],
                                cache := s.cache - {Key(row.business, row.trigger)})
  {
    hide Query, Key, Find;
    run := [BeginCreate(p, row), Work(p, true), Work(p, true)];
    Steps3(s, run[0], run[1], run[2]);
    assert Final(s, run).writers == s.writers;
  }

  /** An update: the old trigger's key goes before the commit when the trigger is part of the update, the new
      row's key after it. */
  lemma UpdateRun(s: State, p: nat, id: nat, b: string, patch: Patch) returns (run: seq<Step>)
    requires Wellformed(s) && p !in s.writers && ColonFree(b) && Find(Table(s), id, b) < |Table(s)|
    ensures ValidRun(s, run)
    ensures var i := Find(Table(s), id, b);
            var old', new' := Table(s)[i], Patched(Table(s)[i], patch, s.now);
            Final(s, run) == s.(history := s.history + [Snapshot(Table(s)[i := new'], s.now)],
                                cache := s.cache - (if patch.trigger.Some? then {Key(b, old'.trigger)} else {})
                                                 - {Key(b, new'.trigger)})
  {
    hide Query, Key, Find, Patched;
    var begin := BeginUpdate(p, id, b, patch);
    if patch.trigger.Some? {
      var s1 := Next(s, begin);
      Steps3(s1, Work(p, true), Work(p, true), Work(p, true));
      run := [begin] + [Work(p, true), Work(p, true), Work(p, true)];
      assert run[1..] == [Work(p, true), Work(p, true), Work(p, true)];
    } else {
      run := [begin, Work(p, true), Work(p, true)];
      Steps3(s, run[0], run[1], run[2]);
    }
    assert Final(s, run).writers == s.writers;
  }

  /** A waiting reader stores `delay` seconds later. */
  lemma StoreRun(s: State, p: nat, list: Listing, delay: nat) returns (run: seq<Step>)
    requires Wellformed(s) && p in s.readers && s.readers[p] == Loaded(list, true)
    ensures ValidRun(s, run)
    ensures Final(s, run) == s.(now := s.now + delay, readers := s.readers - {p},
                                cache := s.cache[Key(list.business, list.trigger) := Cached(list, s.now + delay)],
                                answers := s.answers + [Answer(list.business, list.trigger, list, s.now + delay,
                                                               Version(s), None)])
  {
    hide Query, Key;
    run := [Tick(s.now + delay), Store(p, true)];
    Steps2(s, run[0], run[1]);
  }

  /** A hit in the last second of an entry's life. */
  lemma LateHitRun(s: State, p: nat, b: string, t: string) returns (run: seq<Step>)
    requires Wellformed(s) && p !in s.readers && ColonFree(b) && Key(b, t) in s.cache
    requires s.cache[Key(b, t)].storedAt == s.now
    ensures ValidRun(s, run)
    ensures var c := s.cache[Key(b, t)]; var later := s.now + TTL - 1;
            Final(s, run) == s.(now := later,
                                answers := s.answers + [Answer(b, t, c.list, later, Version(s), Some(c.storedAt))])
  {
    hide Query, Key;
    run := [Tick(s.now + TTL - 1), Ask(p, b, t), Get(p, true, true)];
    Steps3(s, run[0], run[1], run[2]);
    assert s.readers[p := Asked(b, t)] - {p} == s.readers;
  }

  lemma OnlyRow(row: Workflow)
    ensures Find([row], row.id, row.business) == 0 && Apply([row], Delete(row.id, row.business)) == []
  {
  }

  /** The bound is attained, so full coherence is lost even when no call fails: a reader that loads before a
      delete and stores `delay` seconds after it puts the deleted rule back, and the rule is still returned
      one second before the entry expires, with every writer long finished. */
  lemma StalenessAttained(row: Workflow, delay: nat) returns (s: State, run: seq<Step>)
    requires row.active && ColonFree(row.business)
    ensures Initial(s) && ValidRun(s, run)
    ensures var end := Final(s, run);
            && |end.answers| == 2 && end.writers == map[] && end.readers == map[] && Wellformed(end)
            && var a := end.answers[1];
               && Delay(a) == delay && a.at == a.list.readAt + TTL + Delay(a) - 1
               && a.list.rules == [Serialize(row)] && Query(Table(end), a.business, a.trigger) == []
  {
    var b, t := row.business, row.trigger;
    s := State(0, [Snapshot([row], 0)], map[], map[], map[], []);
    ActiveOne(row, b, t);
    var load := LoadRun(s, 0, b, t);
    var s1 := Final(s, load);
    OnlyRow(row);
    var delete := DeleteRun(s1, 0, row.id, b);
    var s2 := Final(s1, delete);
    var store := StoreRun(s2, 0, Fresh(s, b, t), delay);
    var s3 := Final(s2, store);
    var hit := LateHitRun(s3, 1, b, t);
    RunsCompose(s2, store, hit);
    RunsCompose(s1, delete, store + hit);
    RunsCompose(s, load, delete + (store + hit));
    run := load + (delete + (store + hit));
  }
}
