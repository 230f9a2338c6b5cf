/** When the interleaved protocol is exact: the order of commit and invalidation makes it so, unless a reader
    straddles a commit. */
module CacheQuiescence {
  import opened Workflows
  import opened CacheKey
  import opened CacheInterleaving

  /** The trigger of each rule, for a run in which rules do not move to another trigger. */
  type Triggers = (nat, string) -> string

  ghost predicate Settled(table: seq<Workflow>, trig: Triggers) {
    forall i :: 0 <= i < |table| ==> table[i].trigger == trig(table[i].id, table[i].business)
  }

  /** No invalidation fails, no commit falls between a reader's load and its store, and no rule is moved. */
  predicate Calm(s: State, step: Step, trig: Triggers)
    requires Enabled(s, step)
  {
    match step
    case Work(p, ok) =>
      && (s.writers[p][0].Invalidate? ==> ok)
      && (s.writers[p][0].Commit? && ok ==> forall r :: r in s.readers ==> !s.readers[r].Loaded?)
    case BeginCreate(_, row) => row.trigger == trig(row.id, row.business)
    case BeginUpdate(_, id, b, patch) => patch.trigger.Some? ==> patch.trigger.value == trig(id, b)
    case _ => true
  }

  predicate CalmRun(s: State, run: seq<Step>, trig: Triggers)
    decreases |run|
  {
    run == [] || (Enabled(s, run[0]) && Calm(s, run[0], trig) && CalmRun(Next(s, run[0]), run[1..], trig))
  }

  /** The query whose answer a write may change. */
  function Touched(op: Write, trig: Triggers): (string, string) {
    match op
    case Create(row) => (row.business, row.trigger)
    case Update(id, b, _, _) => (b, trig(id, b))
    case Delete(id, b) => (b, trig(id, b))
  }

  predicate Keeps(op: Write, trig: Triggers) {
    match op
    case Create(row) => row.trigger == trig(row.id, row.business)
    case Update(id, b, patch, _) => patch.trigger.Some? ==> patch.trigger.value == trig(id, b)
    case Delete(_, _) => true
  }

  /** A write changes no other query's answer and keeps every rule at its trigger. */
  lemma ApplyTouches(table: seq<Workflow>, op: Write, trig: Triggers, b: string, t: string)
    requires Settled(table, trig) && Keeps(op, trig)
    ensures Settled(Apply(table, op), trig)
    ensures (b, t) != Touched(op, trig) ==> Query(Apply(table, op), b, t) == Query(table, b, t)
  {
    hide Query;
    match op
    case Create(row) => CreateQuery(table, row, b, t);
    case Update(id, b', patch, at) =>
      var i := Find(table, id, b');
      if i < |table| { UpdateQuery(table, i, Patched(table[i], patch, at), b, t); }
    case Delete(id, b') =>
      var i := Find(table, id, b');
      if i < |table| {
        DeleteQuery(table, i, b, t);
        if (b, t) != Touched(op, trig) {
          assert Shown(table[i], b, t) == [];
          assert Query(table[..i], b, t) + [] == Query(table[..i], b, t);
        }
      }
  }

  /** What a writer may still have to do; once it has committed, only the invalidation of what it touched. */
  predicate TasksOk(tasks: seq<Task>, trig: Triggers) {
    || (|tasks| == 1 && tasks[0].Invalidate?)
    || (|tasks| == 1 && tasks[0].Commit? && tasks[0].op.Update? && Keeps(tasks[0].op, trig))
    || (|tasks| == 2 && tasks[0].Invalidate? && tasks[1].Commit? && tasks[1].op.Update? && Keeps(tasks[1].op, trig))
    || (|tasks| == 2 && tasks[0].Commit? && !tasks[0].op.Update? && Keeps(tasks[0].op, trig)
        && tasks[1] == Invalidate(Touched(tasks[0].op, trig).0, Touched(tasks[0].op, trig).1))
  }

  /** A writer that has committed still owes the invalidation of the query. */
  ghost predicate Owed(s: State, b: string, t: string) {
    exists p :: p in s.writers && s.writers[p] == [Invalidate(b, t)]
  }

  ghost predicate Exact(s: State, l: Listing)
    requires Wellformed(s)
  {
    ColonFree(l.business) && l.rules == Query(Table(s), l.business, l.trigger)
  }

  ghost predicate EntryOk(s: State, key: string, l: Listing)
    requires Wellformed(s)
  {
    ColonFree(l.business) && key == Key(l.business, l.trigger) && (Exact(s, l) || Owed(s, l.business, l.trigger))
  }

  ghost predicate ReaderCalm(s: State, r: Reader)
    requires Wellformed(s)
  {
    match r
    case Loaded(l, _) => Exact(s, l)
    case Asked(b, _) => ColonFree(b)
    case Missed(b, _, _) => ColonFree(b)
  }

  ghost predicate CalmInv(s: State, trig: Triggers) {
    && Wellformed(s) && Settled(Table(s), trig)
    && (forall p :: p in s.writers ==> TasksOk(s.writers[p], trig))
    && (forall r :: r in s.readers ==> ReaderCalm(s, s.readers[r]))
    && (forall k :: k in s.cache ==> EntryOk(s, k, s.cache[k].list))
  }

  lemma CommitCalm(s: State, p: nat, trig: Triggers)
    requires CalmInv(s, trig) && Enabled(s, Work(p, true)) && Calm(s, Work(p, true), trig) && s.writers[p][0].Commit?
    ensures CalmInv(Next(s, Work(p, true)), trig)
  {
    hide Query, Key, Settled, ColonFree, Find, Patched;
    var op := s.writers[p][0].op;
    var s' := Next(s, Work(p, true));
    assert TasksOk(s.writers[p], trig);
    ApplyTouches(Table(s), op, trig, "", "");
    CommitTasks(s, p, trig);
    forall k | k in s'.cache ensures EntryOk(s', k, s'.cache[k].list) {
      var l := s.cache[k].list;
      assert EntryOk(s, k, l);
      ApplyTouches(Table(s), op, trig, l.business, l.trigger);
      if Owed(s, l.business, l.trigger) {
        var q :| q in s.writers && s.writers[q] == [Invalidate(l.business, l.trigger)];
        assert s'.writers[q] == s.writers[q];
      }
    }
  }

  /** After its commit a writer owes the invalidation of what it touched, or it touched nothing. */
  lemma CommitTasks(s: State, p: nat, trig: Triggers)
    requires CalmInv(s, trig) && Enabled(s, Work(p, true)) && s.writers[p][0].Commit?
    ensures var s', op := Next(s, Work(p, true)), s.writers[p][0].op;
            && (forall q :: q in s'.writers ==> TasksOk(s'.writers[q], trig))
            && (Owed(s', Touched(op, trig).0, Touched(op, trig).1) || Table(s') == Table(s))
  {
    hide Query, Key, ColonFree;
    var op, rest := s.writers[p][0].op, s.writers[p][1..];
    var s' := Next(s, Work(p, true));
    assert TasksOk(s.writers[p], trig);
    var (b, t) := Touched(op, trig);
    if op.Update? {
      var i := Find(Table(s), op.id, op.business);
      if i < |Table(s)| {
        assert Patched(Table(s)[i], op.patch, op.at).trigger == t;
        assert FollowUp(s, op) + rest == [Invalidate(b, t)];
        assert s'.writers[p] == [Invalidate(b, t)];
      } else {
        assert FollowUp(s, op) + rest == [];
      }
    } else {
      assert FollowUp(s, op) + rest == [Invalidate(b, t)];
      assert s'.writers[p] == [Invalidate(b, t)];
    }
  }

  lemma InvalidateCalm(s: State, p: nat, trig: Triggers)
    requires CalmInv(s, trig) && Enabled(s, Work(p, true)) && s.writers[p][0].Invalidate?
    ensures CalmInv(Next(s, Work(p, true)), trig)
  {
    hide Query, ColonFree, Settled, Apply;
    var s' := Next(s, Work(p, true));
    var b, t := s.writers[p][0].business, s.writers[p][0].trigger;
    assert TasksOk(s.writers[p], trig);
    forall k | k in s'.cache ensures EntryOk(s', k, s'.cache[k].list) {
      var l := s.cache[k].list;
      assert EntryOk(s, k, l) && k != Key(b, t);
      if Owed(s, l.business, l.trigger) {
        var q :| q in s.writers && s.writers[q] == [Invalidate(l.business, l.trigger)];
        assert q != p;
        assert s'.writers[q] == s.writers[q];
      }
    }
    forall r | r in s'.readers ensures ReaderCalm(s', s'.readers[r]) { assert ReaderCalm(s, s.readers[r]); }
  }

  /** A failed commit drops a writer that owes nothing. */
  lemma DropCalm(s: State, p: nat, trig: Triggers)
    requires CalmInv(s, trig) && Enabled(s, Work(p, false)) && s.writers[p][0].Commit?
    ensures CalmInv(Next(s, Work(p, false)), trig)
  {
    hide Query, ColonFree, Settled, Apply, Key;
    SameReadsCalm(s, Next(s, Work(p, false)), trig);
  }

  /** Writers may come and committed ones stay. */
  lemma SameReadsCalm(s: State, s': State, trig: Triggers)
    requires CalmInv(s, trig) && s'.history == s.history && s'.cache == s.cache && s'.readers == s.readers
    requires forall q :: q in s.writers && |s.writers[q]| == 1 && s.writers[q][0].Invalidate? ==>
               q in s'.writers && s'.writers[q] == s.writers[q]
    requires forall q :: q in s'.writers ==> TasksOk(s'.writers[q], trig)
    ensures CalmInv(s', trig)
  {
    hide Query, ColonFree, Settled, Key;
    forall k | k in s'.cache ensures EntryOk(s', k, s'.cache[k].list) {
      var l := s.cache[k].list;
      assert EntryOk(s, k, l);
      if Owed(s, l.business, l.trigger) {
        var q :| q in s.writers && s.writers[q] == [Invalidate(l.business, l.trigger)];
        assert s'.writers[q] == s.writers[q];
      }
    }
    forall r | r in s'.readers ensures ReaderCalm(s', s'.readers[r]) { assert ReaderCalm(s, s.readers[r]); }
  }

  lemma BeginCalm(s: State, step: Step, trig: Triggers)
    requires CalmInv(s, trig) && Enabled(s, step) && Calm(s, step, trig)
    requires step.BeginCreate? || step.BeginUpdate? || step.BeginDelete?
    ensures CalmInv(Next(s, step), trig)
  {
    hide Query, ColonFree, Key, Apply;
    SameReadsCalm(s, Next(s, step), trig);
  }

  /** Steps that leave table, cache and writers alone. */
  lemma ReadersMove(s: State, s': State, trig: Triggers)
    requires CalmInv(s, trig) && s'.history == s.history && s'.cache == s.cache && s'.writers == s.writers
    requires forall r :: r in s'.readers ==> ReaderCalm(s', s'.readers[r])
    ensures CalmInv(s', trig)
  {
    hide Query, ColonFree, Settled, Key;
    assert forall b, t :: Owed(s', b, t) <==> Owed(s, b, t);
    forall k | k in s'.cache ensures EntryOk(s', k, s'.cache[k].list) { assert EntryOk(s, k, s.cache[k].list); }
  }

  lemma StoreCalm(s: State, p: nat, ok: bool, trig: Triggers)
    requires CalmInv(s, trig) && Enabled(s, Store(p, ok))
    ensures CalmInv(Next(s, Store(p, ok)), trig)
  {
    hide Query, ColonFree, Settled, Apply;
    var s' := Next(s, Store(p, ok));
    assert forall b, t :: Owed(s', b, t) <==> Owed(s, b, t);
    assert ReaderCalm(s, s.readers[p]);
    forall r | r in s'.readers ensures ReaderCalm(s', s'.readers[r]) { assert ReaderCalm(s, s.readers[r]); }
    forall k | k in s'.cache ensures EntryOk(s', k, s'.cache[k].list) {
      if k in s.cache { assert EntryOk(s, k, s.cache[k].list); }
    }
  }

  lemma ReadCalm(s: State, step: Step, trig: Triggers)
    requires CalmInv(s, trig) && Enabled(s, step)
    requires step.Tick? || step.Ask? || step.Get? || step.Load?
    ensures CalmInv(Next(s, step), trig)
  {
    hide Query, ColonFree, Settled, Apply, Key;
    var s' := Next(s, step);
    if step.Load? || step.Get? { assert ReaderCalm(s, s.readers[step.p]); }
    forall r | r in s'.readers ensures ReaderCalm(s', s'.readers[r]) {
      if r in s.readers { assert ReaderCalm(s, s.readers[r]); }
    }
    hide CalmInv;
    ReadersMove(s, s', trig);
  }

  lemma StepCalm(s: State, step: Step, trig: Triggers)
    requires CalmInv(s, trig) && Enabled(s, step) && Calm(s, step, trig)
    ensures CalmInv(Next(s, step), trig)
  {
    hide CalmInv, Next;
    match step
    case Work(p, ok) =>
      if s.writers[p][0].Invalidate? {
        InvalidateCalm(s, p, trig);
      } else if ok {
        CommitCalm(s, p, trig);
      } else {
        DropCalm(s, p, trig);
      }
    case BeginCreate(_, _) => BeginCalm(s, step, trig);
    case BeginUpdate(_, _, _, _) => BeginCalm(s, step, trig);
    case BeginDelete(_, _, _) => BeginCalm(s, step, trig);
    case Store(p, ok) => StoreCalm(s, p, ok, trig);
    case _ => ReadCalm(s, step, trig);
  }

  lemma {:induction false} RunCalm(s: State, run: seq<Step>, trig: Triggers)
    requires CalmInv(s, trig) && CalmRun(s, run, trig)
    ensures ValidRun(s, run) && CalmInv(Final(s, run), trig)
    decreases |run|
  {
    hide CalmInv, Next, Enabled, Calm;
    if run != [] {
      StepCalm(s, run[0], trig);
      RunCalm(Next(s, run[0]), run[1..], trig);
    }
  }

  /** In a run without failed invalidations in which no commit falls between a reader's load and its store and no
      rule is moved to another trigger, every hit is exact whenever no write is in flight, however readers and
      writers interleave otherwise. */
  lemma QuietHitsAreExact(s: State, run: seq<Step>, trig: Triggers, b: string, t: string)
    requires Initial(s) && Settled(Table(s), trig) && CalmRun(s, run, trig) && ColonFree(b)
    ensures ValidRun(s, run)
    ensures var end := Final(s, run);
            Wellformed(end) && (end.writers == map[] && Hit(end, b, t) ==>
                                  end.cache[Key(b, t)].list.rules == Query(Table(end), b, t))
  {
    RunCalm(s, run, trig);
    var end := Final(s, run);
    if end.writers == map[] && Hit(end, b, t) {
      var l := end.cache[Key(b, t)].list;
      assert EntryOk(end, Key(b, t), l);
      KeyInjective(b, t, l.business, l.trigger);
    }
  }
}
