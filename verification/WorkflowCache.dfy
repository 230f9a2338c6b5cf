/** The cache-aside protocol over the workflow table, one call at a time: get_active_workflows_cached on
    the read side, the CRUD handlers with their invalidations on the write side. */
module WorkflowCache {
  import opened Workflows
  import opened CacheKey

  datatype Entry = Entry(value: seq<Rule>, expiresAt: int)

  datatype Store = Store(table: seq<Workflow>, redis: map<string, Entry>, now: int)

  predicate Live(s: Store, key: string) {
    key in s.redis && s.now < s.redis[key].expiresAt
  }

  /** invalidate_workflow_cache: a Redis failure is swallowed. */
  function Invalidated(s: Store, b: string, t: string, up: bool): Store {
    if up then s.(redis := s.redis - {Key(b, t)}) else s
  }

  function Committed(s: Store, op: Write): Store {
    s.(table := Apply(s.table, op))
  }

  /** A cached read with Redis up. */
  function AfterRead(s: Store, b: string, t: string): Store {
    if Live(s, Key(b, t)) then s
    else s.(redis := s.redis[Key(b, t) := Entry(Query(s.table, b, t), s.now + TTL)])
  }

  function AfterReads(s: Store, lookups: seq<(string, string)>): (r: Store)
    ensures r.table == s.table
    decreases |lookups|
  {
    if lookups == [] then s else AfterReads(AfterRead(s, lookups[0].0, lookups[0].1), lookups[1..])
  }

  function AfterCreate(s: Store, row: Workflow, up: bool): Store {
    Invalidated(Committed(s, Create(row)), row.business, row.trigger, up)
  }

  /** update_workflow: the old trigger's key goes before the commit, only if the trigger is part of the
      update, and the refreshed row's key after it. `lookups` are reads that happen in between. */
  function AfterUpdate(s: Store, id: nat, b: string, p: Patch, upOld: bool, lookups: seq<(string, string)>,
      upNew: bool): Store
  {
    var i := Find(s.table, id, b);
    if i == |s.table| then s
    else
      var s1 := if p.trigger.Some? then Invalidated(s, b, s.table[i].trigger, upOld) else s;
      var s2 := AfterReads(s1, lookups);
      var s3 := Committed(s2, Update(id, b, p, s.now));
      Invalidated(s3, b, s3.table[i].trigger, upNew)
  }

  function AfterDelete(s: Store, id: nat, b: string, up: bool): Store {
    var i := Find(s.table, id, b);
    if i == |s.table| then s
    else Invalidated(Committed(s, Delete(id, b)), b, s.table[i].trigger, up)
  }

  ghost predicate CoherentAt(s: Store, b: string, t: string) {
    Live(s, Key(b, t)) ==> s.redis[Key(b, t)].value == Query(s.table, b, t)
  }

  /** Every live entry is what the uncached query answers now. */
  ghost predicate Coherent(s: Store) {
    forall b, t :: ColonFree(b) ==> CoherentAt(s, b, t)
  }

  lemma InvalidatedAt(s: Store, b: string, t: string, up: bool, b': string, t': string)
    requires ColonFree(b) && ColonFree(b')
    ensures var s' := Invalidated(s, b, t, up);
            CoherentAt(s', b', t') <==> (up && b == b' && t == t') || CoherentAt(s, b', t')
  {
    KeyInjective(b, t, b', t');
  }

  /** A create keeps the cache coherent exactly when its invalidation goes through, or the new rule is
      inactive, or nothing was cached for its trigger. */
  lemma CreateCoherent(s: Store, row: Workflow, up: bool)
    requires Coherent(s) && ColonFree(row.business)
    ensures Coherent(AfterCreate(s, row, up)) <==> up || !row.active || !Live(s, Key(row.business, row.trigger))
  {
    var s1, s' := Committed(s, Create(row)), AfterCreate(s, row, up);
    forall b, t | ColonFree(b)
      ensures CoherentAt(s', b, t) <==> (up && b == row.business && t == row.trigger)
                                        || !Selected(row, b, t) || !Live(s, Key(b, t))
    {
      assert CoherentAt(s, b, t);
      CreateQuery(s.table, row, b, t);
      InvalidatedAt(s1, row.business, row.trigger, up, b, t);
    }
  }

  /** A delete, likewise. */
  lemma DeleteCoherent(s: Store, id: nat, b: string, up: bool)
    requires Coherent(s) && ColonFree(b)
    ensures var i := Find(s.table, id, b);
            Coherent(AfterDelete(s, id, b, up)) <==>
              i == |s.table| || up || !s.table[i].active || !Live(s, Key(b, s.table[i].trigger))
  {
    var i := Find(s.table, id, b);
    if i < |s.table| {
      var row := s.table[i];
      var s1, s' := Committed(s, Delete(id, b)), AfterDelete(s, id, b, up);
      forall b', t | ColonFree(b')
        ensures CoherentAt(s', b', t) <==> (up && b' == row.business && t == row.trigger)
                                           || !Selected(row, b', t) || !Live(s, Key(b', t))
      {
        assert CoherentAt(s, b', t);
        DeleteQuery(s.table, i, b', t);
        InvalidatedAt(s1, b, row.trigger, up, b', t);
      }
    }
  }

  lemma ReadCoherent(s: Store, b: string, t: string)
    requires Coherent(s) && ColonFree(b)
    ensures Coherent(AfterRead(s, b, t)) && AfterRead(s, b, t).table == s.table && AfterRead(s, b, t).now == s.now
    ensures Live(AfterRead(s, b, t), Key(b, t))
    ensures forall b', t' :: ColonFree(b') ==>
              (Live(AfterRead(s, b, t), Key(b', t')) <==> Live(s, Key(b', t')) || (b == b' && t == t'))
  {
    var s' := AfterRead(s, b, t);
    forall b', t' | ColonFree(b')
      ensures CoherentAt(s', b', t') && (Live(s', Key(b', t')) <==> Live(s, Key(b', t')) || (b == b' && t == t'))
    {
      assert CoherentAt(s, b', t');
      KeyInjective(b, t, b', t');
    }
  }

  lemma {:induction false} ReadsCoherent(s: Store, lookups: seq<(string, string)>)
    requires Coherent(s) && forall r :: r in lookups ==> ColonFree(r.0)
    ensures Coherent(AfterReads(s, lookups)) && AfterReads(s, lookups).table == s.table
        && AfterReads(s, lookups).now == s.now
    ensures forall b, t :: ColonFree(b) ==>
              (Live(AfterReads(s, lookups), Key(b, t)) <==> Live(s, Key(b, t)) || (b, t) in lookups)
    decreases |lookups|
  {
    if lookups != [] {
      ReadCoherent(s, lookups[0].0, lookups[0].1);
      ReadsCoherent(AfterRead(s, lookups[0].0, lookups[0].1), lookups[1..]);
      assert lookups == [lookups[0]] + lookups[1..];
    }
  }

  /** Entries can only disappear as time passes. */
  lemma TickCoherent(s: Store, now: int)
    requires Coherent(s) && s.now <= now
    ensures Coherent(s.(now := now))
  {
    forall b, t | ColonFree(b) ensures CoherentAt(s.(now := now), b, t) {
      assert CoherentAt(s, b, t);
    }
  }

  /** Is a read of this trigger, live when the update commits, about to be wrong? `old'` and `new'` are the row
      before and after, `gone` tells that the early invalidation removed the key and `seen` that a read came
      after it. */
  predicate Outdated(s: Store, b: string, t: string, old': Workflow, new': Workflow, gone: bool, seen: bool) {
    (seen || (Live(s, Key(b, t)) && !gone)) && Shown(old', b, t) != Shown(new', b, t)
  }

  /** An update leaves the cache coherent if and only if no list of the old trigger is outdated, unless the late
      invalidation is for that trigger and succeeds, and none of the new trigger, unless the late invalidation
      succeeds. */
  lemma UpdateCoherent(s: Store, id: nat, b: string, p: Patch, upOld: bool, lookups: seq<(string, string)>, upNew: bool)
    requires Coherent(s) && ColonFree(b) && forall r :: r in lookups ==> ColonFree(r.0)
    ensures var i := Find(s.table, id, b);
            Coherent(AfterUpdate(s, id, b, p, upOld, lookups, upNew)) <==>
              i == |s.table|
              || (var old', new' := s.table[i], Patched(s.table[i], p, s.now);
                  var t, t' := old'.trigger, new'.trigger;
                  && ((upNew && t == t')
                      || !Outdated(s, b, t, old', new', p.trigger.Some? && upOld, (b, t) in lookups))
                  && (upNew || t == t' || !Outdated(s, b, t', old', new', false, (b, t') in lookups)))
  {
    var i := Find(s.table, id, b);
    if i < |s.table| {
      var old', new' := s.table[i], Patched(s.table[i], p, s.now);
      forall b', t | ColonFree(b')
        ensures CoherentAt(AfterUpdate(s, id, b, p, upOld, lookups, upNew), b', t) <==>
                  (upNew && b' == b && t == new'.trigger)
                  || !Outdated(s, b', t, old', new', p.trigger.Some? && upOld && b' == b && t == old'.trigger,
                               (b', t) in lookups)
      {
        UpdateAt(s, id, b, p, upOld, lookups, upNew, b', t);
      }
      hide CoherentAt, AfterUpdate, Live, ColonFree;
    }
  }

  /** The same for one key. */
  lemma UpdateAt(s: Store, id: nat, b: string, p: Patch, upOld: bool, lookups: seq<(string, string)>, upNew: bool,
                 b': string, t: string)
    requires Coherent(s) && ColonFree(b) && ColonFree(b') && forall r :: r in lookups ==> ColonFree(r.0)
    requires Find(s.table, id, b) < |s.table|
    ensures var i := Find(s.table, id, b);
            var old', new' := s.table[i], Patched(s.table[i], p, s.now);
            CoherentAt(AfterUpdate(s, id, b, p, upOld, lookups, upNew), b', t) <==>
              (upNew && b' == b && t == new'.trigger)
              || !Outdated(s, b', t, old', new', p.trigger.Some? && upOld && b' == b && t == old'.trigger,
                           (b', t) in lookups)
  {
    hide Query, ColonFree, Shown;
    var i := Find(s.table, id, b);
    var old', new' := s.table[i], Patched(s.table[i], p, s.now);
    var s1 := if p.trigger.Some? then Invalidated(s, b, old'.trigger, upOld) else s;
    forall b'', t' | ColonFree(b'') ensures CoherentAt(s1, b'', t') {
      CoherentThere(s, b'', t');
      InvalidatedAt(s, b, old'.trigger, upOld, b'', t');
    }
    ReadsCoherent(s1, lookups);
    var s2 := AfterReads(s1, lookups);
    var s3 := Committed(s2, Update(id, b, p, s.now));
    CoherentThere(s2, b', t);
    UpdateQuery(s.table, i, new', b', t);
    InvalidatedAt(s3, b, new'.trigger, upNew, b', t);
    KeyInjective(b, old'.trigger, b', t);
  }

  lemma CoherentThere(s: Store, b: string, t: string)
    requires Coherent(s) && ColonFree(b)
    ensures CoherentAt(s, b, t)
  {
  }

  /** With both invalidations going through, the one thing that breaks coherence is to move an active rule to
      another trigger while somebody reads the old trigger between the early invalidation and the commit: that
      reader puts the outgoing rule back for up to a whole time to live. */
  lemma UpdateWindow(s: Store, id: nat, b: string, p: Patch, lookups: seq<(string, string)>)
    requires Coherent(s) && ColonFree(b) && forall r :: r in lookups ==> ColonFree(r.0)
    ensures var i := Find(s.table, id, b);
            Coherent(AfterUpdate(s, id, b, p, true, lookups, true)) <==>
              i == |s.table| || !s.table[i].active || GetOr(p.trigger, s.table[i].trigger) == s.table[i].trigger
              || (b, s.table[i].trigger) !in lookups
  {
    hide Coherent, Live, AfterUpdate;
    UpdateCoherent(s, id, b, p, true, lookups, true);
  }

  /** The operations of a sequential run with Redis up. */
  datatype Op =
    | DoCreate(row: Workflow)
    | DoUpdate(id: nat, business: string, patch: Patch)
    | DoDelete(id: nat, business: string)
    | DoRead(business: string, trigger: string)
    | DoTick(now: int)

  function AfterOp(s: Store, op: Op): Store {
    match op
    case DoCreate(row) => AfterCreate(s, row, true)
    case DoUpdate(id, b, p) => AfterUpdate(s, id, b, p, true, [], true)
    case DoDelete(id, b) => AfterDelete(s, id, b, true)
    case DoRead(b, t) => AfterRead(s, b, t)
    case DoTick(now) => s.(now := if s.now <= now then now else s.now)
  }

  function AfterOps(s: Store, ops: seq<Op>): Store
    decreases |ops|
  {
    if ops == [] then s else AfterOps(AfterOp(s, ops[0]), ops[1..])
  }

  /** What a cached read returns, and what the table alone would answer after the same operations. */
  function CachedAnswer(s: Store, b: string, t: string): seq<Rule> {
    if Live(s, Key(b, t)) then s.redis[Key(b, t)].value else Query(s.table, b, t)
  }

  function TableAfter(table: seq<Workflow>, now: int, ops: seq<Op>): seq<Workflow>
    decreases |ops|
  {
    if ops == [] then table
    else
      var rest := ops[1..];
      match ops[0]
      case DoCreate(row) => TableAfter(Apply(table, Create(row)), now, rest)
      case DoUpdate(id, b, p) => TableAfter(Apply(table, Update(id, b, p, now)), now, rest)
      case DoDelete(id, b) => TableAfter(Apply(table, Delete(id, b)), now, rest)
      case DoRead(_, _) => TableAfter(table, now, rest)
      case DoTick(later) => TableAfter(table, if now <= later then later else now, rest)
  }

  predicate UuidText(op: Op) {
    match op
    case DoCreate(row) => ColonFree(row.business)
    case DoUpdate(_, b, _) => ColonFree(b)
    case DoDelete(_, b) => ColonFree(b)
    case DoRead(b, _) => ColonFree(b)
    case DoTick(_) => true
  }

  lemma OpCoherent(s: Store, op: Op)
    requires Coherent(s) && UuidText(op)
    ensures Coherent(AfterOp(s, op))
  {
    hide Coherent, AfterCreate, AfterUpdate, AfterDelete, AfterRead;
    match op
    case DoCreate(row) => CreateCoherent(s, row, true);
    case DoUpdate(id, b, p) => UpdateWindow(s, id, b, p, []);
    case DoDelete(id, b) => DeleteCoherent(s, id, b, true);
    case DoRead(b, t) => ReadCoherent(s, b, t);
    case DoTick(now) => TickCoherent(s, if s.now <= now then now else s.now);
  }

  /** Cached reads refine the uncached query: after any sequential run from an empty cache, with expiries
      and reads anywhere in it, a cached read answers what a service without a cache would answer. */
  lemma {:induction false} RunRefinesQuery(s: Store, ops: seq<Op>, b: string, t: string)
    requires Coherent(s) && ColonFree(b) && forall i :: 0 <= i < |ops| ==> UuidText(ops[i])
    ensures Coherent(AfterOps(s, ops))
    ensures CachedAnswer(AfterOps(s, ops), b, t) == Query(TableAfter(s.table, s.now, ops), b, t)
    decreases |ops|
  {
    hide Coherent, Query, Live, Find;
    if ops == [] {
      assert CoherentAt(s, b, t) by { CoherentThere(s, b, t); }
    } else {
      OpCoherent(s, ops[0]);
      RunRefinesQuery(AfterOp(s, ops[0]), ops[1..], b, t);
    }
  }

  /** What an update, undisturbed, does to the table and the keys. */
  lemma UpdateEffect(s: Store, id: nat, b: string, p: Patch, upOld: bool, upNew: bool)
    ensures var i, s' := Find(s.table, id, b), AfterUpdate(s, id, b, p, upOld, [], upNew);
            && s'.now == s.now && (i == |s.table| ==> s' == s)
            && (i < |s.table| ==>
                && s'.table == s.table[i := Patched(s.table[i], p, s.now)]
                && s'.redis == s.redis - (if p.trigger.Some? && upOld then {Key(b, s.table[i].trigger)} else {})
                                       - (if upNew then {Key(b, s'.table[i].trigger)} else {}))
  {
    hide Key, Patched;
  }

  lemma DeleteEffect(s: Store, id: nat, b: string, up: bool)
    ensures var i, s' := Find(s.table, id, b), AfterDelete(s, id, b, up);
            && s'.now == s.now && (i == |s.table| ==> s' == s)
            && (i < |s.table| ==>
                && s'.table == s.table[..i] + s.table[i + 1..]
                && s'.redis == s.redis - if up then {Key(b, s.table[i].trigger)} else {})
  {
    hide Key;
  }

  /** The shared state: the table and the Redis database. */
  class CachedWorkflows {
    var table: seq<Workflow>
    var redis: map<string, Entry>
    var now: int  // seconds

    function State(): Store
      reads this
    {
      Store(table, redis, now)
    }

    constructor (now: int)
      ensures State() == Store([], map[], now) && Coherent(State())
    {
      table, redis, this.now := [], map[], now;
    }

    /** A deleted key; `up` is false when Redis fails. */
    method Invalidate(b: string, t: string, up: bool)
      modifies this`redis
      ensures State() == Invalidated(old(State()), b, t, up)
      ensures redis == if up then old(redis) - {Key(b, t)} else old(redis)
    {
      if up {
        redis := redis - {Key(b, t)};
      }
    }

    /** create_workflow. */
    method CreateWorkflow(row: Workflow, up: bool)
      requires ColonFree(row.business)
      modifies this
      ensures State() == AfterCreate(old(State()), row, up)
      ensures table == old(table) + [row]
      ensures redis == if up then old(redis) - {Key(row.business, row.trigger)} else old(redis)
      ensures old(Coherent(State())) && up ==> Coherent(State())
    {
      ghost var s := State();
      table := table + [row];
      Invalidate(row.business, row.trigger, up);
      if Coherent(s) { CreateCoherent(s, row, up); }
    }

    /** update_workflow; false stands for its NotFoundError. */
    method UpdateWorkflow(id: nat, b: string, p: Patch, upOld: bool, upNew: bool) returns (found: bool)
      requires ColonFree(b)
      modifies this
      ensures found <==> exists w :: w in old(table) && w.id == id && w.business == b
      ensures State() == AfterUpdate(old(State()), id, b, p, upOld, [], upNew)
      ensures !found ==> table == old(table) && redis == old(redis)
      ensures found ==>
                var i := Find(old(table), id, b);
                && |table| == |old(table)| && table[i] == Patched(old(table)[i], p, now)
                && (forall k :: 0 <= k < |table| && k != i ==> table[k] == old(table)[k])
                && redis == old(redis) - (if p.trigger.Some? && upOld then {Key(b, old(table)[i].trigger)} else {})
                            - (if upNew then {Key(b, table[i].trigger)} else {})
      ensures old(Coherent(State())) && upOld && upNew ==> Coherent(State())
    {
      hide Coherent, Patched, Key, Find, AfterUpdate;
      ghost var s := State();
      FindIff(table, id, b);
      UpdateEffect(s, id, b, p, upOld, upNew);
      var i := Find(table, id, b);
      if i == |table| {
        return false;
      }
      found := true;
      if p.trigger.Some? {
        Invalidate(b, table[i].trigger, upOld);
      }
      table := table[i := Patched(table[i], p, now)];
      Invalidate(b, table[i].trigger, upNew);
      if Coherent(s) { UpdateWindow(s, id, b, p, []); }
    }

    /** delete_workflow; false stands for its NotFoundError. */
    method DeleteWorkflow(id: nat, b: string, up: bool) returns (found: bool)
      requires ColonFree(b)
      modifies this
      ensures found <==> exists w :: w in old(table) && w.id == id && w.business == b
      ensures State() == AfterDelete(old(State()), id, b, up)
      ensures !found ==> table == old(table) && redis == old(redis)
      ensures found ==>
                var i := Find(old(table), id, b);
                && old(table) == table[..i] + [old(table)[i]] + table[i..]
                && redis == old(redis) - (if up then {Key(b, old(table)[i].trigger)} else {})
      ensures old(Coherent(State())) && up ==> Coherent(State())
    {
      hide Coherent, Key, Find, AfterDelete;
      ghost var s := State();
      FindIff(table, id, b);
      DeleteEffect(s, id, b, up);
      var i := Find(table, id, b);
      if i == |table| {
        return false;
      }
      found := true;
      var t := table[i].trigger;
      table := table[..i] + table[i + 1..];
      Invalidate(b, t, up);
      if Coherent(s) { DeleteCoherent(s, id, b, up); }
    }

    /** get_active_workflows_cached. `up` tells whether GET works, `usable` whether a hit can be decoded,
        `stored` whether SETEX works. With a coherent cache the answer is the uncached query's: its rules
        rebuild, one by one, to the selected rows of the table. */
    method GetActiveCached(b: string, t: string, up: bool, usable: bool, stored: bool) returns (rules: seq<Rule>)
      requires ColonFree(b)
      modifies this`redis
      ensures old(Coherent(State())) ==> rules == Query(table, b, t) && Coherent(State())
      ensures old(Coherent(State())) ==>
                var rows := ActiveByTrigger(table, b, t);
                |rules| == |rows| && forall i :: 0 <= i < |rows| ==>
                  Rebuilt(rules[i]).(createdAt := rows[i].createdAt, updatedAt := rows[i].updatedAt) == rows[i]
      ensures up && usable && stored ==> State() == AfterRead(old(State()), b, t)
      ensures up && stored && !(usable && old(Live(State(), Key(b, t)))) ==>
                redis == old(redis)[Key(b, t) := Entry(rules, now + TTL)]
      ensures up && usable && old(Live(State(), Key(b, t))) ==>
          rules == old(redis)[Key(b, t)].value && redis == old(redis)
      ensures !(up && stored) ==> redis == old(redis)
    {
      ghost var s := State();
      QueryRebuilds(table, b, t);
      var key := Key(b, t);
      if up && usable && Live(State(), key) {
        if Coherent(s) { assert CoherentAt(s, b, t); }
        return redis[key].value;
      }
      var rows := ActiveByTrigger(table, b, t);
      rules := [];
      for i := 0 to |rows|
        invariant rules == Query(table, b, t)[..i]
      {
        rules := rules + [Serialize(rows[i])];
      }
      assert rules == Query(table, b, t);
      if up && stored {
        redis := redis[key := Entry(rules, now + TTL)];
        if Coherent(s) {
          forall b', t' | ColonFree(b') ensures CoherentAt(State(), b', t') {
            assert CoherentAt(s, b', t');
            KeyInjective(b, t, b', t');
          }
        }
      }
    }

    method Tick(later: int)
      requires now <= later
      modifies this`now
      ensures State() == old(State()).(now := later)
      ensures old(Coherent(State())) ==> Coherent(State())
    {
      if Coherent(State()) { TickCoherent(State(), later); }
      now := later;
    }
  }
}
